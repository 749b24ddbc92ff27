/**
 * The executor as it runs: methods that change a StateDB and a gas pool, proved
 * to do what the functions of Ledger and Executor say
 * (internal/state/executor/state_processor.go, gas.go, pkg/token).
 */
module Processor {
  import opened Wrappers
  import opened Nibbles
  import opened BigInt
  import opened AccountCodec
  import opened StateDB
  import opened StateRollback
  import opened StateStore
  import opened Amm
  import opened Ledger
  import Executor
  import TxOutcome

  const APT_SLOT: Slot := "apt"
  const NPT_SLOT: Slot := "npt"

  /** A reserve is stored as the bytes of a big.Int; an unset slot is zero. */
  function SlotValue(storage: map<Slot, Bytes>, slot: Slot): nat {
    if slot in storage then FromBytes(storage[slot]) else 0
  }

  function PoolOf(s: State): Pool {
    if AMM_POOL_ADDRESS in s.objects
    then Pool(SlotValue(s.objects[AMM_POOL_ADDRESS].storage, APT_SLOT),
         SlotValue(s.objects[AMM_POOL_ADDRESS].storage, NPT_SLOT))
    else Pool(0, 0)
  }

  /** What the executor's functions see of a StateDB. */
  function BookOf(s: State): Book {
    Book(View(s), PoolOf(s))
  }

  lemma FetchBook(s: State, addr: Address)
    ensures BookOf(Fetch(s, addr)) == BookOf(s)
  {
    FetchView(s, addr);
  }

  lemma TouchBook(s: State, addr: Address)
    ensures BookOf(GetOrNew(s, addr)) == Touch(BookOf(s), addr)
  {
    GetOrNewView(s, addr);
  }

  lemma GetOrNewPool(s: State, addr: Address)
    ensures PoolOf(GetOrNew(s, addr)) == PoolOf(s)
  {
  }

  lemma ChangePool(s: State, addr: Address, account: Account, e: Entry)
    requires addr in s.objects
    ensures PoolOf(Change(s, addr, account, e)) == PoolOf(s)
  {
  }

  lemma SetBalancesPool(s: State, addr: Address, apt: nat, npt: nat)
    ensures PoolOf(SetBalances(GetOrNew(s, addr), addr, apt, npt)) == PoolOf(s)
  {
    var t := GetOrNew(s, addr);
    var a := t.objects[addr].account;
    GetOrNewPool(s, addr);
    ChangePool(t, addr, WithBalances(a, apt, npt), StateDB.Balance(addr, a.apt, a.npt));
  }

  /** An operation that comes down to setting both balances keeps the pool. */
  lemma BalancesSetPool(s: State, r: State, addr: Address, apt: nat, npt: nat)
    requires r == SetBalances(GetOrNew(s, addr), addr, apt, npt)
    ensures PoolOf(r) == PoolOf(s)
  {
    SetBalancesPool(s, addr, apt, npt);
  }

  lemma BooksMatch(s: State, r: State, addr: Address, apt: nat, npt: nat, b: Book)
    requires View(r) == View(s)[addr := WithBalances(AccountAt(View(s), addr), apt, npt)] && PoolOf(r) == PoolOf(s)
    requires b == Put(BookOf(s), addr, WithBalances(AccountAt(View(s), addr), apt, npt))
    ensures BookOf(r) == b
  {
  }

  lemma AddAPTBook(s: State, addr: Address, amount: nat)
    requires Valid(s)
    ensures BookOf(AddAPT(s, addr, amount)) == Credit(BookOf(s), APT, addr, amount)
    ensures Valid(AddAPT(s, addr, amount)) && AddAPT(s, addr, amount).revisions == s.revisions
  {
    AddAPTView(s, addr, amount);
    AddAPTKeepsPast(s, addr, amount);
    LoadedAccount(s, addr);
    var a := AccountAt(View(s), addr);
    BalancesSetPool(s, AddAPT(s, addr, amount), addr, a.apt + amount, a.npt);
    BooksMatch(s, AddAPT(s, addr, amount), addr, a.apt + amount, a.npt, Credit(BookOf(s), APT, addr, amount));
  }

  lemma AddNPTBook(s: State, addr: Address, amount: nat)
    requires Valid(s)
    ensures BookOf(AddNPT(s, addr, amount)) == Credit(BookOf(s), NPT, addr, amount)
    ensures Valid(AddNPT(s, addr, amount)) && AddNPT(s, addr, amount).revisions == s.revisions
  {
    AddNPTView(s, addr, amount);
    AddNPTKeepsPast(s, addr, amount);
    LoadedAccount(s, addr);
    var a := AccountAt(View(s), addr);
    BalancesSetPool(s, AddNPT(s, addr, amount), addr, a.apt, a.npt + amount);
    BooksMatch(s, AddNPT(s, addr, amount), addr, a.apt, a.npt + amount, Credit(BookOf(s), NPT, addr, amount));
  }

  lemma SubAPTBook(s: State, addr: Address, amount: nat)
    requires Valid(s) && BalanceOf(BookOf(s), APT, addr) >= amount
    ensures SubAPT(s, addr, amount).Some? && Valid(SubAPT(s, addr, amount).value)
    ensures BookOf(SubAPT(s, addr, amount).value) == Debit(BookOf(s), APT, addr, amount)
    ensures SubAPT(s, addr, amount).value.revisions == s.revisions
  {
    SubAPTView(s, addr, amount);
    SubAPTKeepsPast(s, addr, amount);
    LoadedAccount(s, addr);
    var a := AccountAt(View(s), addr);
    BalancesSetPool(s, SubAPT(s, addr, amount).value, addr, a.apt - amount, a.npt);
    BooksMatch(s, SubAPT(s, addr, amount).value, addr, a.apt - amount, a.npt, Debit(BookOf(s), APT, addr, amount));
  }

  lemma SubNPTBook(s: State, addr: Address, amount: nat)
    requires Valid(s) && BalanceOf(BookOf(s), NPT, addr) >= amount
    ensures SubNPT(s, addr, amount).Some? && Valid(SubNPT(s, addr, amount).value)
    ensures BookOf(SubNPT(s, addr, amount).value) == Debit(BookOf(s), NPT, addr, amount)
    ensures SubNPT(s, addr, amount).value.revisions == s.revisions
  {
    SubNPTView(s, addr, amount);
    SubNPTKeepsPast(s, addr, amount);
    LoadedAccount(s, addr);
    var a := AccountAt(View(s), addr);
    BalancesSetPool(s, SubNPT(s, addr, amount).value, addr, a.apt, a.npt - amount);
    BooksMatch(s, SubNPT(s, addr, amount).value, addr, a.apt, a.npt - amount, Debit(BookOf(s), NPT, addr, amount));
  }

  lemma NonceBook(s: State, addr: Address, nonce: uint64)
    requires Valid(s)
    ensures var r := SetNonce(s, addr, nonce);
            BookOf(r) == SetNonceOf(BookOf(s), addr, nonce) && Valid(r) && r.revisions == s.revisions
  {
    SetNonceView(s, addr, nonce);
    SetNonceKeepsPast(s, addr, nonce);
  }

  lemma FlushBook(s: State)
    ensures BookOf(Flush(s)) == BookOf(s)
  {
    FlushView(s);
  }

  // ---- Token operations ----

  method AddBalance(store: Store, t: Token, addr: Address, amount: nat)
    requires Valid(store.Value())
    modifies store
    ensures Valid(store.Value()) && store.revisions == old(store.revisions)
    ensures BookOf(store.Value()) == Credit(old(BookOf(store.Value())), t, addr, amount)
  {
    if t.APT? {
      AddAPTBook(store.Value(), addr, amount);
      store.AddBalanceAPT(addr, amount);
    } else {
      AddNPTBook(store.Value(), addr, amount);
      store.AddBalanceNPT(addr, amount);
    }
  }

  method SubBalance(store: Store, t: Token, addr: Address, amount: nat)
    requires Valid(store.Value()) && BalanceOf(BookOf(store.Value()), t, addr) >= amount
    modifies store
    ensures Valid(store.Value()) && store.revisions == old(store.revisions)
    ensures BookOf(store.Value()) == Debit(old(BookOf(store.Value())), t, addr, amount)
  {
    if t.APT? {
      SubAPTBook(store.Value(), addr, amount);
      store.SubBalanceAPT(addr, amount);
    } else {
      SubNPTBook(store.Value(), addr, amount);
      store.SubBalanceNPT(addr, amount);
    }
  }

  method GetBalance(store: Store, t: Token, addr: Address) returns (amount: nat)
    requires Valid(store.Value())
    modifies store
    ensures Valid(store.Value()) && store.Value() == Fetch(old(store.Value()), addr)
    ensures BookOf(store.Value()) == old(BookOf(store.Value()))
    ensures amount == BalanceOf(old(BookOf(store.Value())), t, addr)
  {
    FetchBook(store.Value(), addr);
    FetchKeepsPast(store.Value(), addr);
    var apt, npt, nonce := store.GetAccount(addr);
    amount := if t.APT? then apt else npt;
  }

  /** MintAPT and MintNPT. */
  method MintToken(store: Store, t: Token, to: Address, amount: nat) returns (e: Option<Error>)
    requires Valid(store.Value())
    modifies store
    ensures Valid(store.Value()) && store.revisions == old(store.revisions)
    ensures Executor.Effect(BookOf(store.Value()), e)
         == Executor.Of(old(BookOf(store.Value())), Mint(old(BookOf(store.Value())), t, to, amount))
  {
    if amount == 0 {
      return Some(ErrZeroAmount);
    }
    AddBalance(store, t, to, amount);
    return None;
  }

  /** BurnAPT and BurnNPT. */
  method BurnToken(store: Store, t: Token, from: Address, amount: nat) returns (e: Option<Error>)
    requires Valid(store.Value())
    modifies store
    ensures Valid(store.Value()) && store.revisions == old(store.revisions)
    ensures Executor.Effect(BookOf(store.Value()), e)
         == Executor.Of(old(BookOf(store.Value())), Burn(old(BookOf(store.Value())), t, from, amount))
  {
    if amount == 0 {
      return Some(ErrZeroAmount);
    }
    var current := GetBalance(store, t, from);
    if current < amount {
      return Some(ErrInsufficientBalance);
    }
    SubBalance(store, t, from, amount);
    return None;
  }

  /** TransferAPT and TransferNPT. */
  method TransferToken(store: Store, t: Token, from: Address, to: Address, amount: nat) returns (e: Option<Error>)
    requires Valid(store.Value())
    modifies store
    ensures Valid(store.Value()) && store.revisions == old(store.revisions)
    ensures Executor.Effect(BookOf(store.Value()), e)
         == Executor.Of(old(BookOf(store.Value())), Transfer(old(BookOf(store.Value())), t, from, to, amount))
  {
    if amount == 0 {
      return Some(ErrZeroAmount);
    }
    if from == to {
      return None;
    }
    var current := GetBalance(store, t, from);
    if current < amount {
      return Some(ErrInsufficientBalance);
    }
    SubBalance(store, t, from, amount);
    AddBalance(store, t, to, amount);
    return None;
  }

  // ---- The pool ----

  method LoadPool(store: Store) returns (p: Pool)
    requires Valid(store.Value())
    modifies store
    ensures Valid(store.Value()) && store.revisions == old(store.revisions)
    ensures BookOf(store.Value()) == Touch(old(BookOf(store.Value())), AMM_POOL_ADDRESS)
    ensures p == old(PoolOf(store.Value())) && AMM_POOL_ADDRESS in store.objects
  {
    TouchBook(store.Value(), AMM_POOL_ADDRESS);
    GetOrNewKeepsPast(store.Value(), AMM_POOL_ADDRESS);
    store.GetOrNewStateObject(AMM_POOL_ADDRESS);
    var storage := store.objects[AMM_POOL_ADDRESS].storage;
    p := Pool(SlotValue(storage, APT_SLOT), SlotValue(storage, NPT_SLOT));
  }

  /** Writing the pool's slots changes the reserves and no account. */
  lemma StorageBook(s: State, storage: map<Slot, Bytes>)
    requires AMM_POOL_ADDRESS in s.objects && Valid(s)
    ensures var o := s.objects[AMM_POOL_ADDRESS];
            var t := s.(objects := s.objects[AMM_POOL_ADDRESS := StateObject(o.account, o.dirty, storage)]);
            && BookOf(t) == Book(View(s), Pool(SlotValue(storage, APT_SLOT), SlotValue(storage, NPT_SLOT)))
            && Valid(t)
  {
    var o := s.objects[AMM_POOL_ADDRESS];
    assert AccountsOf(s.objects[AMM_POOL_ADDRESS := StateObject(o.account, o.dirty, storage)]) == AccountsOf(s.objects);
  }

  method SavePool(store: Store, p: Pool)
    requires Valid(store.Value()) && AMM_POOL_ADDRESS in View(store.Value())
    modifies store
    ensures Valid(store.Value()) && store.revisions == old(store.revisions)
    ensures BookOf(store.Value()) == Book(old(View(store.Value())), p)
  {
    var loaded := LoadPool(store);
    RoundTrip(p.apt);
    RoundTrip(p.npt);
    var o := store.objects[AMM_POOL_ADDRESS];
    var storage := o.storage[APT_SLOT := ToBytes(p.apt)][NPT_SLOT := ToBytes(p.npt)];
    StorageBook(store.Value(), storage);
    store.objects := store.objects[AMM_POOL_ADDRESS := StateObject(o.account, o.dirty, storage)];
  }

  /** The product formula as both swaps compute it; None stands for the zero-amount error. */
  method QuoteSwap(x: nat, y: nat, input: nat, m: FeeMultiplier) returns (output: Option<nat>)
    ensures output == SwapOutput(x, y, input, m)
    ensures forall o: nat :: output == Some(o) <==> Pays(x, y, input, m, o)
  {
    OutputPays(x, y, input, m);
    if input == 0 {
      return None;
    }
    var effective := AfterFee(input, m);
    var numerator, denominator := y * effective, x + effective;
    if denominator == 0 {
      return None;
    }
    var quotient := numerator / denominator;
    if quotient == 0 {
      return None;
    }
    return Some(quotient);
  }

  /** Taking and paying removes no account and leaves the reserves to the caller. */
  lemma PaidKeepsPool(b: Book, sold: Token, from: Address, input: nat, output: nat)
    requires BalanceOf(b, sold, from) >= input
    ensures var paid := Credit(Debit(b, sold, from, input), Other(sold), from, output);
            paid.pool == b.pool && forall a :: a in b.view ==> a in paid.view
  {
  }

  /** Takes the input and pays the output; nothing happens when the seller cannot pay. */
  method PaySwap(store: Store, sold: Token, from: Address, input: nat, output: nat) returns (e: Option<Error>)
    requires Valid(store.Value()) && input > 0
    modifies store
    ensures Valid(store.Value()) && store.revisions == old(store.revisions)
    ensures forall a :: a in old(View(store.Value())) ==> a in View(store.Value())
    ensures var b := old(BookOf(store.Value()));
            if BalanceOf(b, sold, from) < input then e == Some(ErrInsufficientBalance) && BookOf(store.Value()) == b
            else e == None && BookOf(store.Value()) == Credit(Debit(b, sold, from, input), Other(sold), from, output)
  {
    ghost var b := BookOf(store.Value());
    e := BurnToken(store, sold, from, input);
    if e.None? {
      AddBalance(store, Other(sold), from, output);
      PaidKeepsPool(b, sold, from, input, output);
    }
  }

  lemma Settled(b: Book, paid: Book, sold: Token, from: Address, input: nat, output: nat, after: Pool)
    requires BalanceOf(b, sold, from) >= input && output <= Reserve(b.pool, Other(sold))
    requires paid == Credit(Debit(b, sold, from, input), Other(sold), from, output)
    requires after == MakePool(sold, Reserve(b.pool, sold) + input, Reserve(b.pool, Other(sold)) - output)
    ensures Settle(b, sold, from, input, output) == (Book(paid.view, after), None)
  {
  }

  /** The end of a swap: take the input, pay the output, store the new reserves. */
  method SettleSwap(store: Store, sold: Token, from: Address, input: nat, output: nat, p: Pool)
    returns (e: Option<Error>)
    requires Valid(store.Value()) && AMM_POOL_ADDRESS in View(store.Value()) && input > 0
    requires p == PoolOf(store.Value()) && output <= Reserve(p, Other(sold))
    modifies store
    ensures Valid(store.Value()) && store.revisions == old(store.revisions)
    ensures (BookOf(store.Value()), e) == Settle(old(BookOf(store.Value())), sold, from, input, output)
  {
    ghost var b := BookOf(store.Value());
    e := PaySwap(store, sold, from, input, output);
    if e.None? {
      ghost var paid := BookOf(store.Value());
      var after := MakePool(sold, Reserve(p, sold) + input, Reserve(p, Other(sold)) - output);
      SavePool(store, after);
      Settled(b, paid, sold, from, input, output, after);
    }
  }

  /** SwapAPTForNPT and SwapNPTForAPT. */
  method SwapInPool(store: Store, sold: Token, from: Address, input: nat, m: FeeMultiplier) returns (e: Option<Error>)
    requires Valid(store.Value())
    modifies store
    ensures Valid(store.Value()) && store.revisions == old(store.revisions)
    ensures (BookOf(store.Value()), e) == SwapTokens(old(BookOf(store.Value())), sold, from, input, m)
    ensures var b, c := old(BookOf(store.Value())), BookOf(store.Value());
            var x, y := if sold == APT then b.pool.apt else b.pool.npt, if sold == APT then b.pool.npt else b.pool.apt;
            && (e == Some(ErrZeroAmount) <==> forall o: nat :: !Pays(x, y, input, m, o))
            && (e.None? ==> forall o: nat :: Pays(x, y, input, m, o) ==> Swapped(b, c, sold, from, input, o))
  {
    SwapMeans(BookOf(store.Value()), sold, from, input, m);
    var pool := LoadPool(store);
    var x, y := Reserve(pool, sold), Reserve(pool, Other(sold));
    var output := QuoteSwap(x, y, input, m);
    if output.None? {
      return Some(ErrZeroAmount);
    }
    SwapKeepsProduct(x, y, input, m);
    e := SettleSwap(store, sold, from, input, output.value, pool);
  }

  // ---- Transactions ----

  /** executeTransferAPT and the other handlers. */
  method ExecuteTx(store: Store, tx: Executor.Tx, m: FeeMultiplier) returns (e: Option<Error>)
    requires Valid(store.Value())
    modifies store
    ensures Valid(store.Value()) && store.revisions == old(store.revisions)
    ensures Executor.Effect(BookOf(store.Value()), e) == Executor.Execute(old(BookOf(store.Value())), tx, m)
    ensures exists out: nat ::
              TxOutcome.HandlerDid(old(BookOf(store.Value())), tx, m, BookOf(store.Value()), e.None?, out)
  {
    ghost var out := TxOutcome.HandlerMeans(BookOf(store.Value()), tx, m);
    if tx.kind == Executor.TX_TRANSFER_APT || tx.kind == Executor.TX_TRANSFER_NPT {
      if tx.to == ZERO_ADDRESS {
        return Some(ErrInvalidTxRecipient);
      }
      e := TransferToken(store, if tx.kind == Executor.TX_TRANSFER_APT then APT else NPT, tx.from, tx.to, tx.amount);
    } else if tx.kind == Executor.TX_SWAP {
      if tx.data == [] || (tx.data[0] != 1 && tx.data[0] != 2) {
        return Some(ErrInvalidSwap);
      }
      e := SwapInPool(store, if tx.data[0] == 1 then APT else NPT, tx.from, tx.amount, m);
    } else if tx.kind == Executor.TX_BURN {
      e := BurnToken(store, if tx.tokenKind == 0 then APT else NPT, tx.from, tx.amount);
    } else if tx.kind == Executor.TX_STAKE {
      e := BurnToken(store, NPT, tx.from, tx.amount);
    } else {
      e := Some(ErrInvalidTxType);
    }
  }

  /** validateTx: reads the sender's account and decides. */
  method ValidateTx(store: Store, tx: Executor.Tx, chainID: uint64) returns (e: Option<Error>)
    requires Valid(store.Value())
    modifies store
    ensures Valid(store.Value()) && BookOf(store.Value()) == old(BookOf(store.Value()))
    ensures store.Value() == old(store.Value()) || store.Value() == Fetch(old(store.Value()), tx.from)
    ensures e == Executor.Validate(old(BookOf(store.Value())), tx, chainID)
  {
    if tx.chainID != chainID {
      return Some(ErrInvalidChainID);
    }
    FetchBook(store.Value(), tx.from);
    FetchKeepsPast(store.Value(), tx.from);
    var apt, npt, current := store.GetAccount(tx.from);
    if tx.nonce < current {
      return Some(ErrNonceTooLow);
    }
    if tx.nonce > Executor.Add64(current, 16) {
      return Some(ErrNonceTooHigh);
    }
    if tx.kind == Executor.TX_TRANSFER_APT || tx.kind == Executor.TX_TRANSFER_NPT {
      var needed := tx.amount + Executor.Cost(tx);
      if (tx.tokenKind == 0 && apt < needed) || (tx.tokenKind == 1 && npt < needed) {
        return Some(ErrInsufficientBalance);
      }
    }
    if apt < Executor.Cost(tx) {
      return Some(ErrInsufficientBalance);
    }
    return None;
  }

  class GasPool {
    var remaining: nat

    constructor (limit: nat)
      ensures remaining == limit
    {
      remaining := limit;
    }

    method SubGas(amount: nat) returns (ok: bool)
      modifies this
      ensures ok <==> old(remaining) >= amount
      ensures remaining == if ok then old(remaining) - amount else old(remaining)
    {
      ok := remaining >= amount;
      if ok {
        remaining := remaining - amount;
      }
    }

    method AddGas(amount: nat)
      modifies this
      ensures remaining == old(remaining) + amount
    {
      remaining := remaining + amount;
    }
  }

  /** The upfront charge and the nonce. */
  method ChargeUpfront(store: Store, tx: Executor.Tx)
    requires Valid(store.Value()) && BalanceOf(BookOf(store.Value()), APT, tx.from) >= Executor.Cost(tx)
    modifies store
    ensures Valid(store.Value()) && store.revisions == old(store.revisions)
    ensures BookOf(store.Value()) == Executor.Charged(old(BookOf(store.Value())), tx)
  {
    SubBalance(store, APT, tx.from, Executor.Cost(tx));
    NonceBook(store.Value(), tx.from, Executor.Add64(tx.nonce, 1));
    store.SetAccountNonce(tx.from, Executor.Add64(tx.nonce, 1));
  }

  /** Charge, nonce, handler and refund. */
  method RunTx(store: Store, tx: Executor.Tx, m: FeeMultiplier, intrinsic: nat) returns (gasUsed: nat, ok: bool)
    requires Valid(store.Value()) && BalanceOf(BookOf(store.Value()), APT, tx.from) >= Executor.Cost(tx)
    requires intrinsic == Executor.IntrinsicGas(tx) <= tx.gasLimit
    modifies store
    ensures Valid(store.Value()) && store.revisions == old(store.revisions)
    ensures (BookOf(store.Value()), gasUsed, ok) == Executor.Run(old(BookOf(store.Value())), tx, m)
  {
    ChargeUpfront(store, tx);
    var failed := ExecuteTx(store, tx, m);
    gasUsed, ok := if failed.Some? then tx.gasLimit else intrinsic, failed.None?;
    Executor.FeeWithinCost(tx, gasUsed);
    var refund := Executor.Cost(tx) - gasUsed * tx.gasPrice;
    if refund > 0 {
      AddBalance(store, APT, tx.from, refund);
    }
  }

  /** A flush writes the trie and changes no balance, nonce or reserve. */
  method FlushState(store: Store)
    requires Valid(store.Value())
    modifies store`trie
    ensures Valid(store.Value()) && store.Value() == Flush(old(store.Value()))
    ensures BookOf(store.Value()) == old(BookOf(store.Value()))
  {
    FlushBook(store.Value());
    store.FlushDirty();
  }

  /** The end of ApplyTransaction: run, give unused gas back to the pool, flush. */
  method RunAndRefund(store: Store, gp: GasPool, tx: Executor.Tx, m: FeeMultiplier, limit: nat, intrinsic: nat)
    returns (receipt: Executor.Receipt)
    requires Valid(store.Value()) && BalanceOf(BookOf(store.Value()), APT, tx.from) >= Executor.Cost(tx)
    requires intrinsic == Executor.IntrinsicGas(tx) <= tx.gasLimit && gp.remaining + tx.gasLimit <= limit
    modifies store, gp
    ensures Valid(store.Value()) && store.revisions == old(store.revisions)
    ensures var (book, used, ok) := Executor.Run(old(BookOf(store.Value())), tx, m);
            && BookOf(store.Value()) == book
            && gp.remaining == old(gp.remaining) + (tx.gasLimit - used) <= limit
            && receipt == Executor.Receipt(ok, limit - gp.remaining, used)
  {
    var gasUsed, ok := RunTx(store, tx, m, intrinsic);
    gp.AddGas(tx.gasLimit - gasUsed);
    FlushState(store);
    return Executor.Receipt(ok, limit - gp.remaining, gasUsed);
  }

  /** ApplyTransaction. */
  method ApplyTransaction(store: Store, gp: GasPool, tx: Executor.Tx, p: Executor.Params, limit: nat)
    returns (r: Result<Executor.Receipt, Error>)
    requires Valid(store.Value()) && gp.remaining <= limit
    modifies store, gp
    ensures Valid(store.Value()) && store.revisions == old(store.revisions) && gp.remaining <= limit
    ensures var after := Executor.ApplyTx(
              Executor.Progress(old(BookOf(store.Value())), old(gp.remaining), [], None), tx, p, limit);
            && BookOf(store.Value()) == after.book && gp.remaining == after.gas
            && match r
               case Ok(receipt) => after.error == None && after.receipts == [receipt]
               case Err(e) => after.error == Some(e)
    ensures r.Err? ==> store.journal == old(store.journal)
    ensures TxOutcome.Applied(old(BookOf(store.Value())), old(gp.remaining), tx, p, limit, BookOf(store.Value()),
                              gp.remaining, r)
  {
    TxOutcome.ApplyMeans(Executor.Progress(BookOf(store.Value()), gp.remaining, [], None), tx, p, limit);
    var refused := ValidateTx(store, tx, p.chainID);
    if refused.Some? {
      return Err(refused.value);
    }
    var intrinsic := Executor.ComputeIntrinsicGas(tx);
    if tx.gasLimit < intrinsic {
      return Err(ErrIntrinsicGas);
    }
    var enough := gp.SubGas(tx.gasLimit);
    if !enough {
      return Err(ErrBlockGasLimit);
    }
    var receipt := RunAndRefund(store, gp, tx, p.feeMult, limit, intrinsic);
    return Ok(receipt);
  }

  // ---- Blocks ----

  /** A transaction that was refused leaves only a loaded account to revert. */
  lemma RevertNothing(s: State, id: nat)
    requires Valid(s) && id < |s.revisions| && s.revisions[id] == |s.journal|
    ensures Revert(s, id).Some? && BookOf(Revert(s, id).value) == BookOf(s)
  {
    assert UndoTo(s.objects, s.journal, |s.journal|) == s.objects;
  }

  lemma {:induction false} ErrorSticks(b: Book, txs: seq<Executor.Tx>, i: nat, p: Executor.Params, limit: nat)
    requires i <= |txs| && Executor.ApplyTxs(b, txs[..i], p, limit).error.Some?
    ensures Executor.ApplyTxs(b, txs, p, limit) == Executor.ApplyTxs(b, txs[..i], p, limit)
    decreases |txs|
  {
    if i == |txs| {
      assert txs[..i] == txs;
    } else {
      var front := txs[..|txs| - 1];
      assert front[..i] == txs[..i];
      ErrorSticks(b, front, i, p, limit);
    }
  }

  /** One turn of the loop: snapshot, apply, and revert on a refusal. */
  method ProcessOne(store: Store, gp: GasPool, tx: Executor.Tx, p: Executor.Params, limit: nat)
    returns (r: Result<Executor.Receipt, Error>)
    requires Valid(store.Value()) && gp.remaining <= limit
    modifies store, gp
    ensures Valid(store.Value()) && gp.remaining <= limit
    ensures var after := Executor.ApplyTx(
              Executor.Progress(old(BookOf(store.Value())), old(gp.remaining), [], None), tx, p, limit);
            && BookOf(store.Value()) == after.book && gp.remaining == after.gas
            && match r
               case Ok(receipt) => after.error == None && after.receipts == [receipt]
               case Err(e) => after.error == Some(e)
  {
    SnapshotAdvances(store.Value());
    var id := store.TakeSnapshot();
    assert BookOf(store.Value()) == old(BookOf(store.Value()));
    r := ApplyTransaction(store, gp, tx, p, limit);
    if r.Err? {
      RevertNothing(store.Value(), id);
      store.RevertToSnapshot(id);
    }
  }

  /** Earlier receipts do not matter to a transaction. */
  lemma StepReceipts(b: Book, gas: nat, receipts: seq<Executor.Receipt>, tx: Executor.Tx, p: Executor.Params,
                     limit: nat)
    requires gas <= limit
    ensures var with_ := Executor.ApplyTx(Executor.Progress(b, gas, receipts, None), tx, p, limit);
            var alone := Executor.ApplyTx(Executor.Progress(b, gas, [], None), tx, p, limit);
            with_ == Executor.Progress(alone.book, alone.gas, receipts + alone.receipts, alone.error)
  {
  }

  /** The next transaction of a block starts where the ones before it left off. */
  lemma NextTx(start: Book, txs: seq<Executor.Tx>, i: nat, p: Executor.Params, limit: nat, b: Book, gas: nat,
               receipts: seq<Executor.Receipt>)
    requires i < |txs| && gas <= limit
    requires Executor.ApplyTxs(start, txs[..i], p, limit) == Executor.Progress(b, gas, receipts, None)
    ensures var alone := Executor.ApplyTx(Executor.Progress(b, gas, [], None), txs[i], p, limit);
            Executor.ApplyTxs(start, txs[..i + 1], p, limit)
            == Executor.Progress(alone.book, alone.gas, receipts + alone.receipts, alone.error)
  {
    assert txs[..i + 1][..i] == txs[..i];
    StepReceipts(b, gas, receipts, txs[i], p, limit);
  }

  /** An accepted transaction adds its receipt. */
  lemma AcceptedTx(start: Book, txs: seq<Executor.Tx>, i: nat, p: Executor.Params, limit: nat, s: Executor.Progress,
                   t: Executor.Progress, receipt: Executor.Receipt)
    requires i < |txs| && s.gas <= limit && s.error == None && s == Executor.ApplyTxs(start, txs[..i], p, limit)
    requires t == Executor.ApplyTx(Executor.Progress(s.book, s.gas, [], None), txs[i], p, limit)
    requires t.error == None && t.receipts == [receipt]
    ensures Executor.ApplyTxs(start, txs[..i + 1], p, limit)
            == Executor.Progress(t.book, t.gas, s.receipts + [receipt], None)
    ensures Executor.TotalGas(s.receipts + [receipt]) == Executor.TotalGas(s.receipts) + receipt.gasUsed
  {
    NextTx(start, txs, i, p, limit, s.book, s.gas, s.receipts);
    assert (s.receipts + [receipt])[..|s.receipts|] == s.receipts;
  }

  /** A refused one ends the block. */
  lemma RefusedTx(start: Book, txs: seq<Executor.Tx>, i: nat, p: Executor.Params, limit: nat, s: Executor.Progress,
                  t: Executor.Progress)
    requires i < |txs| && s.gas <= limit && s.error == None && s == Executor.ApplyTxs(start, txs[..i], p, limit)
    requires t == Executor.ApplyTx(Executor.Progress(s.book, s.gas, [], None), txs[i], p, limit) && t.error.Some?
    ensures Executor.ApplyTxs(start, txs, p, limit).book == t.book
            && Executor.ApplyTxs(start, txs, p, limit).error == t.error
  {
    NextTx(start, txs, i, p, limit, s.book, s.gas, s.receipts);
    ErrorSticks(start, txs, i + 1, p, limit);
  }

  /** The transaction loop, which stops at the first refused transaction. */
  method ProcessTxs(store: Store, block: Executor.Block, p: Executor.Params)
    returns (r: Result<(nat, seq<Executor.Receipt>), Error>)
    requires Valid(store.Value())
    modifies store
    ensures Valid(store.Value())
    ensures var s := Executor.ApplyTxs(old(BookOf(store.Value())), block.txs, p, block.gasLimit);
            && BookOf(store.Value()) == s.book
            && match r
               case Ok((total, receipts)) =>
                 s.error == None && receipts == s.receipts && total == Executor.TotalGas(receipts)
               case Err(e) => s.error == Some(e)
  {
    ghost var start := BookOf(store.Value());
    var gp := new GasPool(block.gasLimit);
    var receipts, total := [], 0;
    for i := 0 to |block.txs|
      invariant Valid(store.Value()) && gp.remaining <= block.gasLimit
      invariant Executor.ApplyTxs(start, block.txs[..i], p, block.gasLimit)
             == Executor.Progress(BookOf(store.Value()), gp.remaining, receipts, None)
      invariant total == Executor.TotalGas(receipts)
    {
      var tx := block.txs[i];
      ghost var before := Executor.Progress(BookOf(store.Value()), gp.remaining, receipts, None);
      ghost var after := Executor.ApplyTx(Executor.Progress(before.book, before.gas, [], None), tx, p, block.gasLimit);
      var applied := ProcessOne(store, gp, tx, p, block.gasLimit);
      if applied.Err? {
        RefusedTx(start, block.txs, i, p, block.gasLimit, before, after);
        return Err(applied.error);
      }
      AcceptedTx(start, block.txs, i, p, block.gasLimit, before, after, applied.value);
      receipts, total := receipts + [applied.value], total + applied.value.gasUsed;
    }
    assert block.txs[..|block.txs|] == block.txs;
    return Ok((total, receipts));
  }

  /** CalculateBlockReward. */
  method CalculateBlockReward(p: Executor.Params, height: nat) returns (apt: nat, npt: nat)
    ensures apt == Executor.Reward(p.rewardAPT, height) && TxOutcome.IsReward(p.rewardAPT, height, apt)
    ensures npt == Executor.Reward(p.rewardNPT, height) && TxOutcome.IsReward(p.rewardNPT, height, npt)
  {
    var halvings := height / 8_400_000;
    apt, npt := p.rewardAPT, p.rewardNPT;
    var i := 0;
    while i < halvings && i < 10
      invariant i <= halvings && i <= 10
      invariant apt == Executor.Halved(p.rewardAPT, i) && npt == Executor.Halved(p.rewardNPT, i)
    {
      apt, npt := apt / 2, npt / 2;
      i := i + 1;
    }
    TxOutcome.RewardMeans(p.rewardAPT, height);
    TxOutcome.RewardMeans(p.rewardNPT, height);
  }

  /** Process: the transactions, then both rewards to the proposer. */
  method ProcessBlock(store: Store, block: Executor.Block, p: Executor.Params)
    returns (r: Result<(nat, seq<Executor.Receipt>), Error>)
    requires Valid(store.Value())
    modifies store
    ensures Valid(store.Value())
    ensures var s := Executor.Process(old(BookOf(store.Value())), block, p);
            && BookOf(store.Value()) == s.book
            && match r
               case Ok((total, receipts)) =>
                 s.error == None && receipts == s.receipts && total == Executor.TotalGas(receipts)
               case Err(e) => s.error == Some(e)
    ensures exists books, receipts ::
              TxOutcome.Processed(old(BookOf(store.Value())), block, p, books, receipts, BookOf(store.Value()), r)
  {
    ghost var b := BookOf(store.Value());
    r := ProcessTxs(store, block, p);
    if r.Ok? {
      var e := PayRewards(store, block, p, b);
      if e.Some? {
        r := Err(e.value);
      }
    }
    TxOutcome.ProcessMeans(b, block, p, BookOf(store.Value()), r);
  }

  /** The end of Process: both rewards to the proposer. */
  method PayRewards(store: Store, block: Executor.Block, p: Executor.Params, ghost b: Book) returns (e: Option<Error>)
    requires Valid(store.Value())
    requires var s := Executor.ApplyTxs(b, block.txs, p, block.gasLimit);
             s.error.None? && BookOf(store.Value()) == s.book
    modifies store
    ensures Valid(store.Value())
    ensures var s := Executor.Process(b, block, p); BookOf(store.Value()) == s.book && e == s.error
  {
    var apt, npt := CalculateBlockReward(p, block.height);
    e := MintToken(store, APT, block.proposer, apt);
    if e.None? {
      e := MintToken(store, NPT, block.proposer, npt);
    }
  }
}
