/**
 * Transaction execution as functions on the book: validation, gas, handlers,
 * refunds, rewards (internal/state/executor/state_processor.go, gas.go,
 * pkg/token/gas.go, economics.go, burn.go).
 */
module Executor {
  import opened Wrappers
  import opened Nibbles
  import opened AccountCodec
  import opened StateDB
  import opened Amm
  import opened Ledger

  const TX_TRANSFER_APT := 0x01
  const TX_TRANSFER_NPT := 0x02
  const TX_SWAP := 0x03
  const TX_BURN := 0x04
  const TX_STAKE := 0x05
  const TX_CREATE_TASK := 0x10
  const TX_SUBMIT_RESULT := 0x11

  const MAX_NONCE: nat := UINT64 - 1

  /** A transaction; token kind 0 is APT, 1 is NPT, anything else is neither. */
  datatype Tx = Tx(kind: byte, chainID: uint64, nonce: uint64, from: Address, to: Address, amount: nat,
                   tokenKind: byte, gasLimit: uint64, gasPrice: nat, data: Bytes)

  /** Chain id, AMM fee multiplier and initial block rewards. */
  datatype Params = Params(chainID: uint64, feeMult: FeeMultiplier, rewardAPT: nat, rewardNPT: nat)

  datatype Receipt = Receipt(success: bool, cumulativeGas: nat, gasUsed: nat)

  /** uint64 addition. */
  function Add64(a: nat, b: nat): uint64 {
    (a + b) % UINT64
  }

  /** GasLimit times GasPrice. */
  function Cost(tx: Tx): nat {
    tx.gasLimit * tx.gasPrice
  }

  function DataGas(data: Bytes): nat {
    if data == [] then 0 else DataGas(data[..|data| - 1]) + (if data[|data| - 1] == 0 then 4 else 16)
  }

  function Overhead(kind: byte): nat {
    if kind == TX_SWAP then 5000
    else if kind == TX_CREATE_TASK then 50000
    else if kind == TX_SUBMIT_RESULT then 20000
    else if kind == TX_STAKE then 10000
    else 0
  }

  /** A uint64 sum. */
  function IntrinsicGas(tx: Tx): nat {
    (21000 + DataGas(tx.data) + Overhead(tx.kind)) % UINT64
  }

  /** The gas of a transaction: 4 for each zero byte of its data, 16 for any other, and more for some kinds. */
  ghost predicate Needs(tx: Tx, gas: nat) {
    var zeros := multiset(tx.data)[0];
    var extra := if tx.kind == 0x03 then 5000 else if tx.kind == 0x05 then 10000
                 else if tx.kind == 0x10 then 50000 else if tx.kind == 0x11 then 20000 else 0;
    gas == (21000 + 4 * zeros + 16 * (|tx.data| - zeros) + extra) % 0x1_0000_0000_0000_0000
  }

  lemma {:induction false} DataGasCounts(data: Bytes)
    ensures multiset(data)[0] <= |data|
    ensures DataGas(data) == 4 * multiset(data)[0] + 16 * (|data| - multiset(data)[0])
  {
    if data != [] {
      var front, last := data[..|data| - 1], data[|data| - 1];
      assert data == front + [last];
      DataGasCounts(front);
    }
  }

  lemma IntrinsicGasMeans(tx: Tx, gas: nat)
    ensures gas == IntrinsicGas(tx) <==> Needs(tx, gas)
  {
    DataGasCounts(tx.data);
  }

  /** IntrinsicGas, accumulating byte by byte. */
  method ComputeIntrinsicGas(tx: Tx) returns (gas: nat)
    ensures gas == IntrinsicGas(tx) && Needs(tx, gas)
  {
    IntrinsicGasMeans(tx, IntrinsicGas(tx));
    gas := 21000;
    for i := 0 to |tx.data|
      invariant gas == (21000 + DataGas(tx.data[..i])) % UINT64
    {
      assert tx.data[..i + 1][..i] == tx.data[..i];
      var cost := if tx.data[i] == 0 then 4 else 16;
      WrapAdd(21000 + DataGas(tx.data[..i]), cost);
      gas := Add64(gas, cost);
    }
    assert tx.data[..|tx.data|] == tx.data;
    WrapAdd(21000 + DataGas(tx.data), Overhead(tx.kind));
    gas := Add64(gas, Overhead(tx.kind));
  }

  lemma WrapAdd(x: nat, y: nat)
    ensures Add64(x % UINT64, y) == (x + y) % UINT64
  {
  }

  /** validateTx: None when the transaction may run. */
  function Validate(b: Book, tx: Tx, chainID: uint64): Option<Error> {
    var current := AccountAt(b.view, tx.from).nonce;
    var needed := tx.amount + Cost(tx);
    if tx.chainID != chainID then Some(ErrInvalidChainID)
    else if tx.nonce < current then Some(ErrNonceTooLow)
    else if tx.nonce > Add64(current, 16) then Some(ErrNonceTooHigh)
    else if (tx.kind == TX_TRANSFER_APT || tx.kind == TX_TRANSFER_NPT)
            && ((tx.tokenKind == 0 && BalanceOf(b, APT, tx.from) < needed)
                || (tx.tokenKind == 1 && BalanceOf(b, NPT, tx.from) < needed))
    then Some(ErrInsufficientBalance)
    else if BalanceOf(b, APT, tx.from) < Cost(tx) then Some(ErrInsufficientBalance)
    else None
  }

  /** A handler's effect: the book, and an error if it refused. */
  datatype Effect = Effect(book: Book, error: Option<Error>)

  function Of(b: Book, r: Result<Book, Error>): Effect {
    match r
    case Ok(c) => Effect(c, None)
    case Err(e) => Effect(b, Some(e))
  }

  /** The execute* handlers, chosen by the transaction type. */
  function Execute(b: Book, tx: Tx, m: FeeMultiplier): Effect {
    if tx.kind == TX_TRANSFER_APT || tx.kind == TX_TRANSFER_NPT then
      if tx.to == ZERO_ADDRESS then Effect(b, Some(ErrInvalidTxRecipient))
      else Of(b, Transfer(b, if tx.kind == TX_TRANSFER_APT then APT else NPT, tx.from, tx.to, tx.amount))
    else if tx.kind == TX_SWAP then
      if tx.data == [] || (tx.data[0] != 1 && tx.data[0] != 2) then Effect(b, Some(ErrInvalidSwap))
      else
        var r := SwapTokens(b, if tx.data[0] == 1 then APT else NPT, tx.from, tx.amount, m);
        Effect(r.0, r.1)
    else if tx.kind == TX_BURN then
      Of(b, Burn(b, if tx.tokenKind == 0 then APT else NPT, tx.from, tx.amount))
    else if tx.kind == TX_STAKE then Of(b, Burn(b, NPT, tx.from, tx.amount))
    else Effect(b, Some(ErrInvalidTxType))
  }

  /** The checks of ApplyTransaction before it changes anything. */
  function Precheck(b: Book, gas: nat, tx: Tx, p: Params): Option<Error> {
    var v := Validate(b, tx, p.chainID);
    if v.Some? then v
    else if tx.gasLimit < IntrinsicGas(tx) then Some(ErrIntrinsicGas)
    else if gas < tx.gasLimit then Some(ErrBlockGasLimit)
    else None
  }

  /** Upfront charge and nonce. */
  function Charged(b: Book, tx: Tx): Book
    requires BalanceOf(b, APT, tx.from) >= Cost(tx)
  {
    SetNonceOf(Debit(b, APT, tx.from, Cost(tx)), tx.from, Add64(tx.nonce, 1))
  }

  function GasUsed(tx: Tx, e: Effect): nat {
    if e.error.Some? then tx.gasLimit else IntrinsicGas(tx)
  }

  function Refund(b: Book, tx: Tx, amount: nat): Book {
    if amount > 0 then Credit(b, APT, tx.from, amount) else b
  }

  lemma FeeWithinCost(tx: Tx, gasUsed: nat)
    requires gasUsed <= tx.gasLimit
    ensures gasUsed * tx.gasPrice <= Cost(tx)
  {
  }

  /** The part of ApplyTransaction that runs once the checks have passed. */
  function Run(b: Book, tx: Tx, m: FeeMultiplier): (r: (Book, nat, bool))
    requires BalanceOf(b, APT, tx.from) >= Cost(tx) && IntrinsicGas(tx) <= tx.gasLimit
    ensures r.1 <= tx.gasLimit
  {
    var e := Execute(Charged(b, tx), tx, m);
    var used := GasUsed(tx, e);
    FeeWithinCost(tx, used);
    (Refund(e.book, tx, Cost(tx) - used * tx.gasPrice), used, e.error.None?)
  }

  /** State of a block under execution. */
  datatype Progress = Progress(book: Book, gas: nat, receipts: seq<Receipt>, error: Option<Error>)

  /** ApplyTransaction: a refused transaction leaves the book and the gas pool alone. */
  function ApplyTx(s: Progress, tx: Tx, p: Params, limit: nat): (r: Progress)
    requires s.gas <= limit
    ensures r.gas <= limit
  {
    if s.error.Some? then s
    else
      var e := Precheck(s.book, s.gas, tx, p);
      if e.Some? then s.(error := e)
      else
        var (book, used, ok) := Run(s.book, tx, p.feeMult);
        var gas := s.gas - tx.gasLimit + (tx.gasLimit - used);
        Progress(book, gas, s.receipts + [Receipt(ok, limit - gas, used)], None)
  }

  /** The transaction loop of Process, up to the first refused transaction. */
  function ApplyTxs(b: Book, txs: seq<Tx>, p: Params, limit: nat): (r: Progress)
    ensures r.gas <= limit
    ensures r.error.None? ==> |r.receipts| == |txs|
    ensures |r.receipts| <= |txs|
  {
    if txs == [] then Progress(b, limit, [], None)
    else ApplyTx(ApplyTxs(b, txs[..|txs| - 1], p, limit), txs[|txs| - 1], p, limit)
  }

  /** CalculateBlockReward: halved every 8,400,000 blocks, at most ten times. */
  function Halved(base: nat, times: nat): nat {
    if times == 0 then base else Halved(base, times - 1) / 2
  }

  function Reward(base: nat, height: nat): nat {
    Halved(base, if height / 8_400_000 < 10 then height / 8_400_000 else 10)
  }

  datatype Block = Block(txs: seq<Tx>, proposer: Address, height: nat, gasLimit: uint64)

  /** Process: the transactions, then the two rewards; a zero reward is refused. */
  function Process(b: Book, block: Block, p: Params): Progress {
    var s := ApplyTxs(b, block.txs, p, block.gasLimit);
    if s.error.Some? then s
    else
      var apt := Mint(s.book, APT, block.proposer, Reward(p.rewardAPT, block.height));
      if apt.Err? then s.(error := Some(apt.error))
      else
        var npt := Mint(apt.value, NPT, block.proposer, Reward(p.rewardNPT, block.height));
        if npt.Err? then Progress(apt.value, s.gas, s.receipts, Some(npt.error))
        else Progress(npt.value, s.gas, s.receipts, None)
  }

  // ---- Gas ----

  function TotalGas(receipts: seq<Receipt>): nat {
    if receipts == [] then 0 else TotalGas(receipts[..|receipts| - 1]) + receipts[|receipts| - 1].gasUsed
  }

  /** What the pool has given out is the gas used so far, and each receipt carries that sum. */
  lemma {:induction false} GasAccounts(b: Book, txs: seq<Tx>, p: Params, limit: nat)
    ensures var s := ApplyTxs(b, txs, p, limit);
            && TotalGas(s.receipts) == limit - s.gas
            && forall i :: 0 <= i < |s.receipts| ==> s.receipts[i].cumulativeGas == TotalGas(s.receipts[..i + 1])
  {
    if txs != [] {
      var before := txs[..|txs| - 1];
      GasAccounts(b, before, p, limit);
      var s, t := ApplyTxs(b, before, p, limit), ApplyTxs(b, txs, p, limit);
      if t != s && t.receipts != s.receipts {
        assert t.receipts[..|t.receipts| - 1] == s.receipts;
        assert TotalGas(t.receipts) == limit - t.gas;
        forall i | 0 <= i < |t.receipts|
          ensures t.receipts[i].cumulativeGas == TotalGas(t.receipts[..i + 1])
        {
          if i < |s.receipts| {
            assert t.receipts[..i + 1] == s.receipts[..i + 1];
          } else {
            assert t.receipts[..i + 1] == t.receipts;
          }
        }
      }
    }
  }

  // ---- Conservation ----

  /** Tokens a transaction destroys besides its fee. */
  function Destroyed(tx: Tx, success: bool, t: Token): nat {
    if success && tx.kind == TX_BURN && (tx.tokenKind == 0 <==> t.APT?) then tx.amount
    else if success && tx.kind == TX_STAKE && t.NPT? then tx.amount
    else 0
  }

  /** The fee is paid in APT. */
  function Fee(tx: Tx, gasUsed: nat, t: Token): nat {
    if t.APT? then gasUsed * tx.gasPrice else 0
  }

  lemma ExecuteTotal(b: Book, tx: Tx, m: FeeMultiplier, t: Token)
    ensures var e := Execute(b, tx, m);
            Total(b, t) == Total(e.book, t) + Destroyed(tx, e.error.None?, t)
  {
    if tx.kind == TX_TRANSFER_APT || tx.kind == TX_TRANSFER_NPT {
      var token := if tx.kind == TX_TRANSFER_APT then APT else NPT;
      if tx.to != ZERO_ADDRESS && Transfer(b, token, tx.from, tx.to, tx.amount).Ok? {
        TransferTotal(b, token, tx.from, tx.to, tx.amount, t);
      }
    } else if tx.kind == TX_SWAP {
      if tx.data != [] {
        SwapTotal(b, if tx.data[0] == 1 then APT else NPT, tx.from, tx.amount, m, t);
      }
    } else if tx.kind == TX_BURN || tx.kind == TX_STAKE {
      var token := if tx.kind == TX_BURN && tx.tokenKind == 0 then APT else NPT;
      if Burn(b, token, tx.from, tx.amount).Ok? {
        DebitTotal(b, token, tx.from, tx.amount);
      }
    }
  }

  /** One transaction takes its fee and what it destroys out of the total, and nothing else. */
  lemma RunTotal(b: Book, tx: Tx, m: FeeMultiplier, t: Token)
    requires BalanceOf(b, APT, tx.from) >= Cost(tx) && IntrinsicGas(tx) <= tx.gasLimit
    ensures var (book, used, ok) := Run(b, tx, m);
            Total(b, t) == Total(book, t) + Fee(tx, used, t) + Destroyed(tx, ok, t)
  {
    var c := Charged(b, tx);
    DebitTotal(b, APT, tx.from, Cost(tx));
    NonceTotal(Debit(b, APT, tx.from, Cost(tx)), tx.from, Add64(tx.nonce, 1), t);
    ExecuteTotal(c, tx, m, t);
    var e := Execute(c, tx, m);
    var used := GasUsed(tx, e);
    FeeWithinCost(tx, used);
    CreditTotal(e.book, APT, tx.from, Cost(tx) - used * tx.gasPrice);
  }

  /** Fees and destroyed tokens of the executed transactions of a block. */
  function Outflow(txs: seq<Tx>, receipts: seq<Receipt>, t: Token): nat
    requires |receipts| <= |txs|
    decreases |receipts|
  {
    if receipts == [] then 0
    else
      var i := |receipts| - 1;
      Outflow(txs[..i], receipts[..i], t) + Fee(txs[i], receipts[i].gasUsed, t)
          + Destroyed(txs[i], receipts[i].success, t)
  }

  lemma {:induction false} OutflowPrefix(txs: seq<Tx>, more: seq<Tx>, receipts: seq<Receipt>, t: Token)
    requires |receipts| <= |txs|
    ensures Outflow(txs + more, receipts, t) == Outflow(txs, receipts, t)
    decreases |receipts|
  {
    if receipts != [] {
      var i := |receipts| - 1;
      assert (txs + more)[..i] == txs[..i];
    }
  }

  lemma {:induction false} TxsTotal(b: Book, txs: seq<Tx>, p: Params, limit: nat, t: Token)
    ensures var s := ApplyTxs(b, txs, p, limit);
            Total(b, t) == Total(s.book, t) + Outflow(txs, s.receipts, t)
  {
    if txs != [] {
      var before, tx := txs[..|txs| - 1], txs[|txs| - 1];
      assert txs == before + [tx];
      TxsTotal(b, before, p, limit, t);
      var s := ApplyTxs(b, before, p, limit);
      OutflowPrefix(before, [tx], s.receipts, t);
      if s.error.None? && Precheck(s.book, s.gas, tx, p).None? {
        RunTotal(s.book, tx, p.feeMult, t);
        var after := ApplyTxs(b, txs, p, limit);
        assert after.receipts[..|after.receipts| - 1] == s.receipts;
      }
    }
  }

  function RewardOf(p: Params, height: nat, t: Token): nat {
    Reward(if t.APT? then p.rewardAPT else p.rewardNPT, height)
  }

  /**
   * Supply over a successful block: accounts and reserve together change by the
   * reward minus the fees minus what was burned or staked, for both tokens.
   */
  lemma BlockTotal(b: Book, block: Block, p: Params, t: Token)
    requires Process(b, block, p).error.None?
    ensures var s := Process(b, block, p);
            |s.receipts| == |block.txs|
            && Total(s.book, t) + Outflow(block.txs, s.receipts, t) == Total(b, t) + RewardOf(p, block.height, t)
  {
    TxsTotal(b, block.txs, p, block.gasLimit, t);
    var s := ApplyTxs(b, block.txs, p, block.gasLimit);
    var r := Reward(p.rewardAPT, block.height);
    CreditTotal(s.book, APT, block.proposer, r);
    CreditTotal(Credit(s.book, APT, block.proposer, r), NPT, block.proposer, Reward(p.rewardNPT, block.height));
  }

  /** The book after a chain of blocks. */
  function ProcessAll(b: Book, blocks: seq<Block>, p: Params): Book {
    if blocks == [] then b
    else Process(ProcessAll(b, blocks[..|blocks| - 1], p), blocks[|blocks| - 1], p).book
  }

  ghost predicate AllSucceed(b: Book, blocks: seq<Block>, p: Params) {
    forall i :: 0 <= i < |blocks| ==> Process(ProcessAll(b, blocks[..i], p), blocks[i], p).error.None?
  }

  function Minted(blocks: seq<Block>, p: Params, t: Token): nat {
    if blocks == [] then 0
    else Minted(blocks[..|blocks| - 1], p, t) + RewardOf(p, blocks[|blocks| - 1].height, t)
  }

  function Spent(b: Book, blocks: seq<Block>, p: Params, t: Token): nat {
    if blocks == [] then 0
    else
      var before, last := blocks[..|blocks| - 1], blocks[|blocks| - 1];
      Spent(b, before, p, t)
          + Outflow(last.txs, ApplyTxs(ProcessAll(b, before, p), last.txs, p, last.gasLimit).receipts, t)
  }

  /** Supply over any chain of successful blocks. */
  lemma {:induction false} ChainTotal(b: Book, blocks: seq<Block>, p: Params, t: Token)
    requires AllSucceed(b, blocks, p)
    ensures Total(ProcessAll(b, blocks, p), t) + Spent(b, blocks, p, t) == Total(b, t) + Minted(blocks, p, t)
  {
    if blocks != [] {
      var before, last := blocks[..|blocks| - 1], blocks[|blocks| - 1];
      forall i | 0 <= i < |before|
        ensures Process(ProcessAll(b, before[..i], p), before[i], p).error.None?
      {
        assert before[..i] == blocks[..i] && before[i] == blocks[i];
      }
      ChainTotal(b, before, p, t);
      BlockTotal(ProcessAll(b, before, p), last, p, t);
    }
  }

  // ---- A failed transaction ----

  lemma FailedExecute(b: Book, tx: Tx, m: FeeMultiplier)
    requires Execute(b, tx, m).error.Some?
    ensures SameAccounts(b, Execute(b, tx, m).book)
  {
    if tx.kind == TX_SWAP && tx.data != [] {
      var sold := if tx.data[0] == 1 then APT else NPT;
      if SwapTokens(b, sold, tx.from, tx.amount, m).1.Some? {
        RefusedSwap(b, sold, tx.from, tx.amount, m);
      }
    }
  }

  /** A transaction whose handler fails changes the sender's fee and nonce, and nothing else anywhere. */
  lemma FailedTx(b: Book, tx: Tx, m: FeeMultiplier, addr: Address)
    requires BalanceOf(b, APT, tx.from) >= Cost(tx) && IntrinsicGas(tx) <= tx.gasLimit
    requires !Run(b, tx, m).2
    ensures var book := Run(b, tx, m).0;
            var was, now := AccountAt(b.view, addr), AccountAt(book.view, addr);
            && book.pool == b.pool
            && now == if addr == tx.from
                      then WithNonce(WithBalances(was, was.apt - Cost(tx), was.npt), Add64(tx.nonce, 1))
                      else was
  {
    FailedExecute(Charged(b, tx), tx, m);
  }

  // ---- Replay protection ----

  lemma ExecuteNonces(b: Book, tx: Tx, m: FeeMultiplier, addr: Address)
    ensures AccountAt(Execute(b, tx, m).book.view, addr).nonce == AccountAt(b.view, addr).nonce
  {
  }

  /** An executed transaction sets its sender's nonce just past its own and touches no other. */
  lemma RunNonces(b: Book, tx: Tx, m: FeeMultiplier, addr: Address)
    requires BalanceOf(b, APT, tx.from) >= Cost(tx) && IntrinsicGas(tx) <= tx.gasLimit
    ensures AccountAt(Run(b, tx, m).0.view, addr).nonce
         == if addr == tx.from then Add64(tx.nonce, 1) else AccountAt(b.view, addr).nonce
  {
    ExecuteNonces(Charged(b, tx), tx, m, addr);
  }

  /** An accepted transaction raises its sender's nonce exactly when its own nonce is not the largest uint64. */
  lemma NonceRises(s: Progress, tx: Tx, p: Params, limit: nat)
    requires s.gas <= limit && s.error.None? && ApplyTx(s, tx, p, limit).error.None?
    ensures var was := AccountAt(s.book.view, tx.from).nonce;
            var now := AccountAt(ApplyTx(s, tx, p, limit).book.view, tx.from).nonce;
            (now > was && now > tx.nonce >= was) <==> tx.nonce != MAX_NONCE
  {
    RunNonces(s.book, tx, p.feeMult, tx.from);
  }

  /** The transactions of a block that were executed. */
  function Executed(b: Book, block: Block, p: Params): seq<Tx> {
    block.txs[..|ApplyTxs(b, block.txs, p, block.gasLimit).receipts|]
  }

  /** Every transaction executed so far has a nonce below its sender's. */
  ghost predicate Below(b: Book, executed: seq<Tx>) {
    forall i :: 0 <= i < |executed| ==> executed[i].nonce < AccountAt(b.view, executed[i].from).nonce
  }

  /** No sender and nonce twice. */
  ghost predicate AtMostOnce(executed: seq<Tx>) {
    forall i, j ::
      0 <= i < j < |executed| && executed[i].from == executed[j].from ==> executed[i].nonce < executed[j].nonce
  }

  /** None of these transactions carries the largest nonce. */
  ghost predicate NoLastNonce(txs: seq<Tx>) {
    forall i :: 0 <= i < |txs| ==> txs[i].nonce != MAX_NONCE
  }

  /** Executing one valid transaction extends the list without repeating. */
  lemma RunOnce(b: Book, tx: Tx, p: Params, all: seq<Tx>)
    requires Below(b, all) && AtMostOnce(all) && tx.nonce != MAX_NONCE
    requires Validate(b, tx, p.chainID).None? && IntrinsicGas(tx) <= tx.gasLimit
    ensures Below(Run(b, tx, p.feeMult).0, all + [tx]) && AtMostOnce(all + [tx])
  {
    var now := all + [tx];
    forall i | 0 <= i < |now| ensures now[i].nonce < AccountAt(Run(b, tx, p.feeMult).0.view, now[i].from).nonce {
      RunNonces(b, tx, p.feeMult, now[i].from);
      assert i < |all| ==> now[i] == all[i];
    }
    forall i, j | 0 <= i < j < |now| && now[i].from == now[j].from ensures now[i].nonce < now[j].nonce {
      assert now[i] == all[i];
    }
  }

  /** What ran is below its sender's nonce only if it is not the last nonce. */
  lemma BelowMeans(b: Book, executed: seq<Tx>)
    requires Below(b, executed)
    ensures NoLastNonce(executed)
  {
  }

  /** The transactions of a block keep replay protection exactly when none that ran carries the last nonce. */
  lemma {:induction false} TxsOnce(b: Book, txs: seq<Tx>, p: Params, limit: nat, before: seq<Tx>)
    requires Below(b, before) && AtMostOnce(before)
    ensures var s := ApplyTxs(b, txs, p, limit);
            var all := before + txs[..|s.receipts|];
            Below(s.book, all) && AtMostOnce(all) <==> NoLastNonce(all)
  {
    if txs == [] {
      assert before + [] == before;
    } else {
      var front := txs[..|txs| - 1];
      TxsOnce(b, front, p, limit, before);
      var s, t := ApplyTxs(b, front, p, limit), ApplyTxs(b, txs, p, limit);
      TurnOnce(s, t, txs, p, limit, before);
    }
  }

  lemma TurnOnce(s: Progress, t: Progress, txs: seq<Tx>, p: Params, limit: nat, before: seq<Tx>)
    requires txs != [] && |s.receipts| < |txs| && |t.receipts| <= |txs|
    requires s.error.None? ==> |s.receipts| == |txs| - 1
    requires s.gas <= limit && t == ApplyTx(s, txs[|txs| - 1], p, limit)
    requires var all := before + txs[..|txs| - 1][..|s.receipts|];
             Below(s.book, all) && AtMostOnce(all) <==> NoLastNonce(all)
    ensures var all := before + txs[..|t.receipts|];
            Below(t.book, all) && AtMostOnce(all) <==> NoLastNonce(all)
  {
    StepOnce(s, t, txs[|txs| - 1], p, limit, before + txs[..|txs| - 1][..|s.receipts|]);
    TakeMore(before, txs, |s.receipts|);
  }

  lemma TakeMore(before: seq<Tx>, txs: seq<Tx>, k: nat)
    requires k < |txs|
    ensures var front := txs[..|txs| - 1];
            && front[..k] == txs[..k]
            && (k == |front| ==> before + txs[..k + 1] == before + front[..k] + [txs[|txs| - 1]])
  {
    assert txs[..k + 1] == txs[..k] + [txs[k]];
  }

  /** One turn of the loop: the transaction runs, or nothing happens. */
  lemma StepOnce(s: Progress, t: Progress, tx: Tx, p: Params, limit: nat, all: seq<Tx>)
    requires s.gas <= limit && t == ApplyTx(s, tx, p, limit)
    requires Below(s.book, all) && AtMostOnce(all) <==> NoLastNonce(all)
    ensures if |t.receipts| > |s.receipts|
            then |t.receipts| == |s.receipts| + 1 && s.error.None?
                 && (Below(t.book, all + [tx]) && AtMostOnce(all + [tx]) <==> NoLastNonce(all + [tx]))
            else t.book == s.book && t.receipts == s.receipts
  {
    if s.error.None? && Precheck(s.book, s.gas, tx, p).None? {
      NextOnce(s.book, tx, p, all);
    }
  }

  lemma NextOnce(b: Book, tx: Tx, p: Params, all: seq<Tx>)
    requires Below(b, all) && AtMostOnce(all) <==> NoLastNonce(all)
    requires Validate(b, tx, p.chainID).None? && IntrinsicGas(tx) <= tx.gasLimit
    ensures Below(Run(b, tx, p.feeMult).0, all + [tx]) && AtMostOnce(all + [tx]) <==> NoLastNonce(all + [tx])
  {
    var now := all + [tx];
    if NoLastNonce(now) {
      forall i | 0 <= i < |all| ensures all[i].nonce != MAX_NONCE {
        assert now[i] == all[i];
      }
      assert now[|all|] == tx;
      RunOnce(b, tx, p, all);
    }
  }

  lemma MintNonces(b: Book, t: Token, to: Address, amount: nat, addr: Address)
    requires Mint(b, t, to, amount).Ok?
    ensures AccountAt(Mint(b, t, to, amount).value.view, addr).nonce == AccountAt(b.view, addr).nonce
  {
  }

  /** One block, accepted or not, keeps replay protection exactly when nothing it ran carries the last nonce. */
  lemma BlockOnce(b: Book, block: Block, p: Params, before: seq<Tx>)
    requires Below(b, before) && AtMostOnce(before)
    ensures var all := before + Executed(b, block, p);
            Below(Process(b, block, p).book, all) && AtMostOnce(all) <==> NoLastNonce(all)
  {
    TxsOnce(b, block.txs, p, block.gasLimit, before);
    var s := ApplyTxs(b, block.txs, p, block.gasLimit);
    var all := before + Executed(b, block, p);
    RewardNonces(b, block, p);
    assert Below(Process(b, block, p).book, all) <==> Below(s.book, all);
  }

  /** Rewards touch no nonce. */
  lemma RewardNonces(b: Book, block: Block, p: Params)
    ensures forall a :: AccountAt(Process(b, block, p).book.view, a).nonce
                     == AccountAt(ApplyTxs(b, block.txs, p, block.gasLimit).book.view, a).nonce
  {
    var s := ApplyTxs(b, block.txs, p, block.gasLimit);
    forall a ensures AccountAt(Process(b, block, p).book.view, a).nonce == AccountAt(s.book.view, a).nonce {
      var apt := Mint(s.book, APT, block.proposer, Reward(p.rewardAPT, block.height));
      if s.error.None? && apt.Ok? {
        MintNonces(s.book, APT, block.proposer, Reward(p.rewardAPT, block.height), a);
        if Mint(apt.value, NPT, block.proposer, Reward(p.rewardNPT, block.height)).Ok? {
          MintNonces(apt.value, NPT, block.proposer, Reward(p.rewardNPT, block.height), a);
        }
      }
    }
  }

  /** The nonce checks of validateTx. */
  predicate NonceInTime(b: Book, tx: Tx) {
    var current := AccountAt(b.view, tx.from).nonce;
    current <= tx.nonce <= Add64(current, 16)
  }

  /** The window of 16 wraps too, so the last nonce is in time at one nonce only. */
  lemma LastNonceInTime(b: Book, tx: Tx)
    requires tx.nonce == MAX_NONCE
    ensures NonceInTime(b, tx) <==> AccountAt(b.view, tx.from).nonce == UINT64 - 17
  {
  }

  /** There it runs: a transfer of one to oneself, free of gas price, takes the nonce to zero. */
  lemma LastNonceRuns(from: Address, p: Params)
    requires from != ZERO_ADDRESS
    ensures var b := Book(map[from := WithNonce(WithBalances(NEW_ACCOUNT, 1, 1), UINT64 - 17)], Pool(0, 0));
            var tx := Tx(TX_TRANSFER_APT, p.chainID, MAX_NONCE, from, from, 1, 0, 21000, 0, []);
            && Precheck(b, 21000, tx, p) == None
            && Run(b, tx, p.feeMult).2 && AccountAt(Run(b, tx, p.feeMult).0.view, from).nonce == 0
  {
    var b := Book(map[from := WithNonce(WithBalances(NEW_ACCOUNT, 1, 1), UINT64 - 17)], Pool(0, 0));
    var tx := Tx(TX_TRANSFER_APT, p.chainID, MAX_NONCE, from, from, 1, 0, 21000, 0, []);
    assert IntrinsicGas(tx) == 21000;
    RunNonces(b, tx, p.feeMult, from);
  }

  /**
   * A transaction with the last nonce resets its sender's nonce: whatever the
   * sender ran with a nonce of at most 16 is in time again.
   */
  lemma LastNonceReopens(b: Book, tx: Tx, p: Params, again: Tx)
    requires tx.nonce == MAX_NONCE && again.from == tx.from && again.nonce <= 16
    requires Validate(b, tx, p.chainID).None? && IntrinsicGas(tx) <= tx.gasLimit
    ensures var e := Validate(Run(b, tx, p.feeMult).0, again, p.chainID);
            e != Some(ErrNonceTooLow) && e != Some(ErrNonceTooHigh)
  {
    RunNonces(b, tx, p.feeMult, tx.from);
  }
}
