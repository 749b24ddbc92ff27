/**
 * What a transaction and a block come to, in balances and plain numbers
 * (internal/state/executor/state_processor.go, pkg/token/apt.go, npt.go, amm.go,
 * gas.go, economics.go): who pays, who receives, when, and what stays as it was.
 */
module TxOutcome {
  import opened Wrappers
  import opened Nibbles
  import opened AccountCodec
  import opened StateDB
  import opened Amm
  import opened Ledger
  import opened Executor

  // ---- Admission ----

  /** What this gas costs, in APT. */
  function FeeFor(tx: Tx, gas: nat): nat {
    gas * tx.gasPrice
  }

  /** What a transfer takes at the start of its sender's balance of the declared token, fee included. */
  predicate Covers(a: Account, tx: Tx) {
    var needed := tx.amount + FeeFor(tx, tx.gasLimit);
    tx.kind == 0x01 || tx.kind == 0x02 ==>
      && (tx.tokenKind == 0 ==> a.apt >= needed)
      && (tx.tokenKind == 1 ==> a.npt >= needed)
  }

  /** The checks a transaction has to pass, in order, and the error of each. */
  ghost predicate Refuses(b: Book, gas: int, tx: Tx, p: Params, e: Error) {
    var a := AccountAt(b.view, tx.from);
    var chain := tx.chainID == p.chainID;
    var late := tx.nonce < a.nonce;
    var early := tx.nonce > (a.nonce + 16) % 0x1_0000_0000_0000_0000;
    var funded := Covers(a, tx) && a.apt >= FeeFor(tx, tx.gasLimit);
    var enough := exists g: nat :: Needs(tx, g) && g <= tx.gasLimit;
    || (e == ErrInvalidChainID && !chain)
    || (e == ErrNonceTooLow && chain && late)
    || (e == ErrNonceTooHigh && chain && !late && early)
    || (e == ErrInsufficientBalance && chain && !late && !early && !funded)
    || (e == ErrIntrinsicGas && chain && !late && !early && funded && !enough)
    || (e == ErrBlockGasLimit && chain && !late && !early && funded && enough && gas < tx.gasLimit)
  }

  lemma PrecheckMeans(b: Book, gas: nat, tx: Tx, p: Params)
    ensures forall e :: Precheck(b, gas, tx, p) == Some(e) <==> Refuses(b, gas, tx, p, e)
  {
    IntrinsicGasMeans(tx, IntrinsicGas(tx));
    forall g: nat ensures Needs(tx, g) <==> g == IntrinsicGas(tx) {
      IntrinsicGasMeans(tx, g);
    }
  }

  // ---- Execution ----

  /** The token that the sender gives: APT if it transfers APT, sells APT or burns APT. */
  function Given(tx: Tx): Token {
    if tx.kind == 0x01 then APT
    else if tx.kind == 0x03 && tx.data != [] && tx.data[0] == 1 then APT
    else if tx.kind == 0x04 && tx.tokenKind == 0 then APT
    else NPT
  }

  /** Whether the sender has the amount left once a charge in APT is set aside. */
  predicate HasLeft(b: Book, tx: Tx, charge: nat) {
    var a := AccountAt(b.view, tx.from);
    if Given(tx) == APT then a.apt >= tx.amount + charge else a.npt >= tx.amount
  }

  /** Next to this charge the transaction succeeds, and the pool pays this much for it. */
  ghost predicate Succeeds(b: Book, tx: Tx, m: nat, charge: nat, out: nat) {
    if tx.kind == 0x01 || tx.kind == 0x02 then
      tx.to != ZERO_ADDRESS && tx.amount > 0 && (tx.from == tx.to || HasLeft(b, tx, charge)) && out == 0
    else if tx.kind == 0x03 then
      && tx.data != [] && tx.data[0] in {1, 2} && HasLeft(b, tx, charge)
      && if tx.data[0] == 1 then Pays(b.pool.apt, b.pool.npt, tx.amount, m, out)
         else Pays(b.pool.npt, b.pool.apt, tx.amount, m, out)
    else (tx.kind == 0x04 || tx.kind == 0x05) && tx.amount > 0 && HasLeft(b, tx, charge) && out == 0
  }

  /** By how much a successful transaction raises an address's balance of a token, its fee aside. */
  function Raise(tx: Tx, out: nat, addr: Address, t: Token): int {
    (if addr == tx.from && t == Given(tx) then 0 - tx.amount else 0)
    + (if addr == tx.to && t == Given(tx) && (tx.kind == 0x01 || tx.kind == 0x02) then tx.amount else 0)
    + (if addr == tx.from && t != Given(tx) && tx.kind == 0x03 then out else 0)
  }

  /** An account before and after a transaction: its balances, and the sender's fee and nonce. */
  ghost predicate Became(was: Account, now: Account, tx: Tx, sender: bool, fee: nat, apt: int, npt: int) {
    && now.apt == was.apt + apt - (if sender then fee else 0) && now.npt == was.npt + npt
    && now.nonce == (if sender then (tx.nonce + 1) % 0x1_0000_0000_0000_0000 else was.nonce)
    && now.codeHash == was.codeHash && now.storageRoot == was.storageRoot
  }

  /** A transaction that was admitted takes the book from b to c, using this gas, with success or not. */
  ghost predicate Ran(b: Book, tx: Tx, m: nat, c: Book, used: nat, ok: bool, out: nat) {
    && (if ok then Needs(tx, used) else used == tx.gasLimit)
    && Moves(b, tx, m, c, ok, out, FeeFor(tx, tx.gasLimit), FeeFor(tx, used))
  }

  /** What it moves, with the charge for all its gas and the fee for the gas used. */
  ghost predicate Moves(b: Book, tx: Tx, m: nat, c: Book, ok: bool, out: nat, charge: nat, fee: nat) {
    && (if ok then Succeeds(b, tx, m, charge, out) else out == 0 && forall o: nat :: !Succeeds(b, tx, m, charge, o))
    && (forall addr ::
          Became(AccountAt(b.view, addr), AccountAt(c.view, addr), tx, addr == tx.from, fee,
                 if ok then Raise(tx, out, addr, APT) else 0, if ok then Raise(tx, out, addr, NPT) else 0))
    && (if ok && tx.kind == 0x03
        then if tx.data != [] && tx.data[0] == 1
             then c.pool.apt == b.pool.apt + tx.amount && c.pool.npt + out == b.pool.npt
             else c.pool.npt == b.pool.npt + tx.amount && c.pool.apt + out == b.pool.apt
        else c.pool == b.pool)
  }

  /** The book between the charge and the refund, as the handler leaves it. */
  ghost predicate Handled(c: Book, tx: Tx, d: Book, ok: bool, out: nat) {
    && (forall addr ::
          Moved(AccountAt(c.view, addr), AccountAt(d.view, addr),
                if ok then Raise(tx, out, addr, APT) else 0, if ok then Raise(tx, out, addr, NPT) else 0))
    && (if ok && tx.kind == 0x03
        then if tx.data != [] && tx.data[0] == 1
             then d.pool.apt == c.pool.apt + tx.amount && d.pool.npt + out == c.pool.npt
             else d.pool.npt == c.pool.npt + tx.amount && d.pool.apt + out == c.pool.apt
        else d.pool == c.pool)
  }

  /** What a handler alone does to a book. */
  ghost predicate HandlerDid(c: Book, tx: Tx, m: nat, d: Book, ok: bool, out: nat) {
    && (if ok then Succeeds(c, tx, m, 0, out) else out == 0 && forall o: nat :: !Succeeds(c, tx, m, 0, o))
    && Handled(c, tx, d, ok, out)
  }

  lemma TransferMoves(c: Book, tx: Tx, t: Token)
    requires (tx.kind == 0x01 || tx.kind == 0x02) && t == Given(tx)
    ensures var r := Transfer(c, t, tx.from, tx.to, tx.amount);
            && (r.Ok? <==> tx.amount > 0 && (tx.from == tx.to || HasLeft(c, tx, 0)))
            && (r.Ok? ==> Handled(c, tx, r.value, true, 0))
  {
  }

  lemma TransferHandled(c: Book, tx: Tx, m: FeeMultiplier)
    requires tx.kind == 0x01 || tx.kind == 0x02
    ensures var e := Execute(c, tx, m);
            (e.error.None? <==> Succeeds(c, tx, m, 0, 0)) && Handled(c, tx, e.book, e.error.None?, 0)
  {
    TransferMoves(c, tx, Given(tx));
  }

  lemma BurnHandled(c: Book, tx: Tx, m: FeeMultiplier)
    requires tx.kind == 0x04 || tx.kind == 0x05
    ensures var e := Execute(c, tx, m);
            (e.error.None? <==> Succeeds(c, tx, m, 0, 0)) && Handled(c, tx, e.book, e.error.None?, 0)
  {
  }

  lemma SwapMoves(c: Book, d: Book, tx: Tx, out: nat, sold: Token)
    requires tx.kind == 0x03 && tx.data != [] && sold == (if tx.data[0] == 1 then APT else NPT)
    requires Swapped(c, d, sold, tx.from, tx.amount, out)
    ensures Handled(c, tx, d, true, out)
  {
  }

  lemma SwapHandled(c: Book, tx: Tx, m: FeeMultiplier) returns (out: nat)
    requires tx.kind == 0x03
    ensures var e := Execute(c, tx, m);
            HandlerDid(c, tx, m, e.book, e.error.None?, out)
  {
    out := 0;
    if tx.data != [] && (tx.data[0] == 1 || tx.data[0] == 2) {
      var sold := if tx.data[0] == 1 then APT else NPT;
      var x, y := if sold == APT then c.pool.apt else c.pool.npt, if sold == APT then c.pool.npt else c.pool.apt;
      SwapMeans(c, sold, tx.from, tx.amount, m);
      var (d, e) := SwapTokens(c, sold, tx.from, tx.amount, m);
      if e.None? {
        out :| Pays(x, y, tx.amount, m, out);
        SwapMoves(c, d, tx, out, sold);
      }
    }
  }

  /** The handler of any kind. */
  lemma HandlerMeans(c: Book, tx: Tx, m: FeeMultiplier) returns (out: nat)
    ensures var e := Execute(c, tx, m);
            HandlerDid(c, tx, m, e.book, e.error.None?, out)
  {
    out := 0;
    if tx.kind == 0x01 || tx.kind == 0x02 {
      TransferHandled(c, tx, m);
    } else if tx.kind == 0x03 {
      out := SwapHandled(c, tx, m);
    } else if tx.kind == 0x04 || tx.kind == 0x05 {
      BurnHandled(c, tx, m);
    }
  }

  /** After the charge what is left is there. */
  lemma ChargeSetAside(b: Book, tx: Tx, m: nat)
    requires BalanceOf(b, APT, tx.from) >= Cost(tx)
    ensures forall o: nat :: Succeeds(Charged(b, tx), tx, m, 0, o) <==> Succeeds(b, tx, m, FeeFor(tx, tx.gasLimit), o)
  {
    var c := Charged(b, tx);
    assert c.pool == b.pool;
    assert HasLeft(c, tx, 0) <==> HasLeft(b, tx, FeeFor(tx, tx.gasLimit));
  }

  /** Any admitted transaction. */
  lemma RunMeans(b: Book, tx: Tx, m: FeeMultiplier) returns (out: nat)
    requires BalanceOf(b, APT, tx.from) >= Cost(tx) && IntrinsicGas(tx) <= tx.gasLimit
    ensures var (c, used, ok) := Run(b, tx, m);
            Ran(b, tx, m, c, used, ok, out)
  {
    out := HandlerMeans(Charged(b, tx), tx, m);
    ChargeSetAside(b, tx, m);
    var e := Execute(Charged(b, tx), tx, m);
    var used := GasUsed(tx, e);
    FeeWithinCost(tx, used);
    IntrinsicGasMeans(tx, IntrinsicGas(tx));
    var back := Cost(tx) - FeeFor(tx, used);
    AllPaidBack(b, tx, Charged(b, tx), e.book, Refund(e.book, tx, back), back, e.error.None?, out);
    SamePool(b, tx, Charged(b, tx), e.book, Refund(e.book, tx, back), back);
    Together(b, tx, m, Charged(b, tx), e, out, Refund(e.book, tx, back), Cost(tx), Cost(tx) - back);
  }

  lemma Together(b: Book, tx: Tx, m: FeeMultiplier, charged: Book, e: Effect, out: nat, after: Book, charge: nat,
                 fee: nat)
    requires HandlerDid(charged, tx, m, e.book, e.error.None?, out)
    requires forall o: nat :: Succeeds(charged, tx, m, 0, o) <==> Succeeds(b, tx, m, charge, o)
    requires charged.pool == b.pool && after.pool == e.book.pool
    requires forall addr ::
               Became(AccountAt(b.view, addr), AccountAt(after.view, addr), tx, addr == tx.from, fee,
                      if e.error.None? then Raise(tx, out, addr, APT) else 0,
                      if e.error.None? then Raise(tx, out, addr, NPT) else 0)
    ensures Moves(b, tx, m, after, e.error.None?, out, charge, fee)
  {
  }

  /** Charge and refund come to the fee. */
  lemma AllPaidBack(b: Book, tx: Tx, charged: Book, d: Book, after: Book, back: nat, ok: bool, out: nat)
    requires BalanceOf(b, APT, tx.from) >= Cost(tx) >= back && charged == Charged(b, tx)
    requires after == Refund(d, tx, back) && Handled(charged, tx, d, ok, out)
    ensures forall addr ::
              Became(AccountAt(b.view, addr), AccountAt(after.view, addr), tx, addr == tx.from, Cost(tx) - back,
                     if ok then Raise(tx, out, addr, APT) else 0, if ok then Raise(tx, out, addr, NPT) else 0)
  {
    forall addr
      ensures Became(AccountAt(b.view, addr), AccountAt(after.view, addr), tx, addr == tx.from, Cost(tx) - back,
                     if ok then Raise(tx, out, addr, APT) else 0, if ok then Raise(tx, out, addr, NPT) else 0)
    {
      PaidBack(b, tx, charged, d, after, back, addr,
               if ok then Raise(tx, out, addr, APT) else 0, if ok then Raise(tx, out, addr, NPT) else 0);
    }
  }

  lemma SamePool(b: Book, tx: Tx, c: Book, d: Book, after: Book, back: nat)
    requires BalanceOf(b, APT, tx.from) >= Cost(tx) && c == Charged(b, tx) && after == Refund(d, tx, back)
    ensures c.pool == b.pool && after.pool == d.pool
  {
  }

  lemma PaidBack(b: Book, tx: Tx, c: Book, d: Book, after: Book, back: nat, addr: Address, apt: int, npt: int)
    requires BalanceOf(b, APT, tx.from) >= Cost(tx) >= back && c == Charged(b, tx) && after == Refund(d, tx, back)
    requires Moved(AccountAt(c.view, addr), AccountAt(d.view, addr), apt, npt)
    ensures Became(AccountAt(b.view, addr), AccountAt(after.view, addr), tx, addr == tx.from, Cost(tx) - back, apt, npt)
  {
  }

  // ---- One transaction of a block ----

  ghost predicate Admits(b: Book, gas: int, tx: Tx, p: Params) {
    gas >= 0 && forall e :: !Refuses(b, gas, tx, p, e)
  }

  /** The transaction ran, whatever a swap then paid. */
  ghost predicate RanTo(b: Book, tx: Tx, m: nat, c: Book, r: Receipt) {
    exists out: nat :: Ran(b, tx, m, c, r.gasUsed, r.success, out)
  }

  /** One turn of the transaction loop that is not refused, with what is left of the block's gas. */
  ghost predicate Turn(b: Book, gas: int, tx: Tx, p: Params, limit: nat, c: Book, r: Receipt) {
    && Admits(b, gas, tx, p) && RanTo(b, tx, p.feeMult, c, r)
    && r.gasUsed <= tx.gasLimit && r.cumulativeGas == limit - (gas - r.gasUsed)
  }

  /** What ApplyTransaction comes to. */
  ghost predicate Applied(b: Book, gas: nat, tx: Tx, p: Params, limit: nat, c: Book, left: nat,
                          r: Result<Receipt, Error>)
  {
    match r
    case Err(e) => Refuses(b, gas, tx, p, e) && c == b && left == gas
    case Ok(receipt) => Turn(b, gas, tx, p, limit, c, receipt) && left == gas - receipt.gasUsed
  }

  /** A transaction is refused, and then nothing has changed, or it runs. */
  lemma ApplyMeans(s: Progress, tx: Tx, p: Params, limit: nat)
    requires s.gas <= limit && s.error == None
    ensures var t := ApplyTx(s, tx, p, limit);
            if t.error.Some?
            then Refuses(s.book, s.gas, tx, p, t.error.value) && t == s.(error := t.error)
            else |t.receipts| == |s.receipts| + 1
                 && var r := t.receipts[|s.receipts|];
                 && t.receipts == s.receipts + [r] && t.gas == s.gas - r.gasUsed
                 && Turn(s.book, s.gas, tx, p, limit, t.book, r)
  {
    PrecheckMeans(s.book, s.gas, tx, p);
    if Precheck(s.book, s.gas, tx, p).None? {
      var out := RunMeans(s.book, tx, p.feeMult);
    }
  }

  lemma RanMoves(b: Book, tx: Tx, m: nat, c: Book, r: Receipt) returns (out: nat)
    requires RanTo(b, tx, m, c, r)
    ensures Moves(b, tx, m, c, r.success, out, FeeFor(tx, tx.gasLimit), FeeFor(tx, r.gasUsed))
  {
    out :| Ran(b, tx, m, c, r.gasUsed, r.success, out);
  }

  /**
   * An accepted transfer: when it succeeds, and what it then moves.  The upfront
   * charge counts for all the gas, the fee for the gas used.
   */
  lemma TransferPays(s: Progress, tx: Tx, p: Params, limit: nat)
    requires s.gas <= limit && s.error == None && ApplyTx(s, tx, p, limit).error == None
    requires tx.kind == 0x01 || tx.kind == 0x02
    ensures var t := ApplyTx(s, tx, p, limit);
            var r := t.receipts[|s.receipts|];
            Transferred(s.book, tx, t.book, r.success, if tx.kind == 0x01 then APT else NPT,
                        FeeFor(tx, tx.gasLimit), FeeFor(tx, r.gasUsed))
  {
    ApplyMeans(s, tx, p, limit);
    var t := ApplyTx(s, tx, p, limit);
    TransferTurn(s.book, tx, p.feeMult, t.book, t.receipts[|s.receipts|], if tx.kind == 0x01 then APT else NPT);
  }

  lemma TransferTurn(b: Book, tx: Tx, m: nat, c: Book, r: Receipt, token: Token)
    requires RanTo(b, tx, m, c, r) && ((tx.kind == 0x01 && token == APT) || (tx.kind == 0x02 && token == NPT))
    ensures Transferred(b, tx, c, r.success, token, FeeFor(tx, tx.gasLimit), FeeFor(tx, r.gasUsed))
  {
    var out := RanMoves(b, tx, m, c, r);
    TransferRan(b, tx, m, c, r.success, out, token, FeeFor(tx, tx.gasLimit), FeeFor(tx, r.gasUsed));
  }

  ghost predicate Transferred(b: Book, tx: Tx, c: Book, ok: bool, token: Token, charge: nat, fee: nat) {
    && (ok <==> tx.to != ZERO_ADDRESS && tx.amount > 0
                && (tx.from == tx.to
                    || BalanceOf(b, token, tx.from) - (if token == APT then charge else 0) >= tx.amount))
    && (ok && tx.from != tx.to ==>
          && BalanceOf(c, token, tx.to) == BalanceOf(b, token, tx.to) + tx.amount
          && BalanceOf(c, token, tx.from)
             == BalanceOf(b, token, tx.from) - tx.amount - (if token == APT then fee else 0)
          && BalanceOf(c, Other(token), tx.to) == BalanceOf(b, Other(token), tx.to)
          && BalanceOf(c, Other(token), tx.from)
             == BalanceOf(b, Other(token), tx.from) - (if token == APT then 0 else fee)
          && c.pool == b.pool)
    && forall a :: a != tx.from && a != tx.to ==> AccountAt(c.view, a) == AccountAt(b.view, a)
  }

  lemma TransferRan(b: Book, tx: Tx, m: nat, c: Book, ok: bool, out: nat, token: Token, charge: nat, fee: nat)
    requires Moves(b, tx, m, c, ok, out, charge, fee)
    requires (tx.kind == 0x01 && token == APT) || (tx.kind == 0x02 && token == NPT)
    ensures Transferred(b, tx, c, ok, token, charge, fee)
  {
    assert ok <==> Succeeds(b, tx, m, charge, 0);
    var apt, npt := if ok then Raise(tx, out, tx.from, APT) else 0, if ok then Raise(tx, out, tx.from, NPT) else 0;
    assert Became(AccountAt(b.view, tx.from), AccountAt(c.view, tx.from), tx, true, fee, apt, npt);
    apt, npt := if ok then Raise(tx, out, tx.to, APT) else 0, if ok then Raise(tx, out, tx.to, NPT) else 0;
    assert Became(AccountAt(b.view, tx.to), AccountAt(c.view, tx.to), tx, tx.to == tx.from, fee, apt, npt);
    forall a | a != tx.from && a != tx.to ensures AccountAt(c.view, a) == AccountAt(b.view, a) {
      assert Became(AccountAt(b.view, a), AccountAt(c.view, a), tx, false, fee, 0, 0);
    }
  }

  /** An accepted burn or stake: APT is burned if the token kind says so, otherwise, and by every stake, NPT. */
  lemma BurnTakes(s: Progress, tx: Tx, p: Params, limit: nat)
    requires s.gas <= limit && s.error == None && ApplyTx(s, tx, p, limit).error == None
    requires tx.kind == 0x04 || tx.kind == 0x05
    ensures var t := ApplyTx(s, tx, p, limit);
            var r := t.receipts[|s.receipts|];
            Burned(s.book, tx, t.book, r.success, FeeFor(tx, tx.gasLimit), FeeFor(tx, r.gasUsed))
  {
    ApplyMeans(s, tx, p, limit);
    var t := ApplyTx(s, tx, p, limit);
    BurnTurn(s.book, tx, p.feeMult, t.book, t.receipts[|s.receipts|]);
  }

  lemma BurnTurn(b: Book, tx: Tx, m: nat, c: Book, r: Receipt)
    requires RanTo(b, tx, m, c, r) && (tx.kind == 0x04 || tx.kind == 0x05)
    ensures Burned(b, tx, c, r.success, FeeFor(tx, tx.gasLimit), FeeFor(tx, r.gasUsed))
  {
    var out := RanMoves(b, tx, m, c, r);
    BurnRan(b, tx, m, c, r.success, out, FeeFor(tx, tx.gasLimit), FeeFor(tx, r.gasUsed));
  }

  ghost predicate Burned(b: Book, tx: Tx, c: Book, ok: bool, charge: nat, fee: nat) {
    var was, now := AccountAt(b.view, tx.from), AccountAt(c.view, tx.from);
    var apt := tx.kind == 0x04 && tx.tokenKind == 0;
    && (ok <==> tx.amount > 0 && (if apt then was.apt - charge else was.npt) >= tx.amount)
    && now.apt == was.apt - fee - (if ok && apt then tx.amount else 0)
    && now.npt == was.npt - (if ok && !apt then tx.amount else 0)
    && c.pool == b.pool && forall a :: a != tx.from ==> AccountAt(c.view, a) == AccountAt(b.view, a)
  }

  lemma BurnRan(b: Book, tx: Tx, m: nat, c: Book, ok: bool, out: nat, charge: nat, fee: nat)
    requires Moves(b, tx, m, c, ok, out, charge, fee) && (tx.kind == 0x04 || tx.kind == 0x05)
    ensures Burned(b, tx, c, ok, charge, fee)
  {
    assert ok <==> Succeeds(b, tx, m, charge, 0);
    var apt, npt := if ok then Raise(tx, out, tx.from, APT) else 0, if ok then Raise(tx, out, tx.from, NPT) else 0;
    assert Became(AccountAt(b.view, tx.from), AccountAt(c.view, tx.from), tx, true, fee, apt, npt);
    forall a | a != tx.from ensures AccountAt(c.view, a) == AccountAt(b.view, a) {
      assert Became(AccountAt(b.view, a), AccountAt(c.view, a), tx, false, fee, 0, 0);
    }
  }

  /** An accepted swap with direction 1 or 2: it sells APT or NPT, for what the pool pays in the other token. */
  lemma SwapTrades(s: Progress, tx: Tx, p: Params, limit: nat)
    requires s.gas <= limit && s.error == None && ApplyTx(s, tx, p, limit).error == None
    requires tx.kind == 0x03 && tx.data != [] && tx.data[0] in {1, 2}
    ensures var t := ApplyTx(s, tx, p, limit);
            var r := t.receipts[|s.receipts|];
            Trades(s.book, tx, p.feeMult, t.book, r.success, FeeFor(tx, tx.gasLimit), FeeFor(tx, r.gasUsed))
  {
    ApplyMeans(s, tx, p, limit);
    var t := ApplyTx(s, tx, p, limit);
    SwapTurn(s.book, tx, p.feeMult, t.book, t.receipts[|s.receipts|]);
  }

  ghost predicate Trades(b: Book, tx: Tx, m: nat, c: Book, ok: bool, charge: nat, fee: nat)
    requires tx.data != []
  {
    var sells := tx.data[0] == 1;
    var was, now := AccountAt(b.view, tx.from), AccountAt(c.view, tx.from);
    var x, y := if sells then b.pool.apt else b.pool.npt, if sells then b.pool.npt else b.pool.apt;
    var funded := (if sells then was.apt - charge else was.npt) >= tx.amount;
    && (ok <==> funded && exists o: nat :: Pays(x, y, tx.amount, m, o))
    && (!ok ==> now.apt == was.apt - fee && now.npt == was.npt && c.pool == b.pool)
    && (ok ==> exists o: nat :: Pays(x, y, tx.amount, m, o) &&
                 if sells
                 then now.apt == was.apt - tx.amount - fee && now.npt == was.npt + o
                      && c.pool.apt == b.pool.apt + tx.amount && c.pool.npt == b.pool.npt - o
                 else now.npt == was.npt - tx.amount && now.apt == was.apt + o - fee
                      && c.pool.npt == b.pool.npt + tx.amount && c.pool.apt == b.pool.apt - o)
    && forall a :: a != tx.from ==> AccountAt(c.view, a) == AccountAt(b.view, a)
  }

  lemma SwapTurn(b: Book, tx: Tx, m: nat, c: Book, r: Receipt)
    requires RanTo(b, tx, m, c, r) && tx.kind == 0x03 && tx.data != [] && tx.data[0] in {1, 2}
    ensures Trades(b, tx, m, c, r.success, FeeFor(tx, tx.gasLimit), FeeFor(tx, r.gasUsed))
  {
    var out := RanMoves(b, tx, m, c, r);
    SwapRan(b, tx, m, c, r.success, out, FeeFor(tx, tx.gasLimit), FeeFor(tx, r.gasUsed));
  }

  lemma SwapRan(b: Book, tx: Tx, m: nat, c: Book, ok: bool, out: nat, charge: nat, fee: nat)
    requires Moves(b, tx, m, c, ok, out, charge, fee) && tx.kind == 0x03 && tx.data != [] && tx.data[0] in {1, 2}
    ensures Trades(b, tx, m, c, ok, charge, fee)
  {
    var sells := tx.data[0] == 1;
    var x, y := if sells then b.pool.apt else b.pool.npt, if sells then b.pool.npt else b.pool.apt;
    if HasLeft(b, tx, charge) && !ok {
      forall o: nat ensures !Pays(x, y, tx.amount, m, o) {
        assert !Succeeds(b, tx, m, charge, o);
      }
    }
    assert ok ==> Pays(x, y, tx.amount, m, out);
    var apt, npt := if ok then Raise(tx, out, tx.from, APT) else 0, if ok then Raise(tx, out, tx.from, NPT) else 0;
    assert Became(AccountAt(b.view, tx.from), AccountAt(c.view, tx.from), tx, true, fee, apt, npt);
    forall a | a != tx.from ensures AccountAt(c.view, a) == AccountAt(b.view, a) {
      assert Became(AccountAt(b.view, a), AccountAt(c.view, a), tx, false, fee, 0, 0);
    }
  }

  // ---- Blocks ----

  /** The transactions of a block that ran, with the books before, between and after them. */
  ghost predicate Trace(b: Book, txs: seq<Tx>, p: Params, limit: nat, books: seq<Book>, receipts: seq<Receipt>) {
    && |books| == |receipts| + 1 && |receipts| <= |txs| && books[0] == b
    && forall i, j :: 0 <= i < |receipts| && j == i + 1 ==> TurnAt(txs, p, limit, books, receipts, i, j)
  }

  ghost predicate TurnAt(txs: seq<Tx>, p: Params, limit: nat, books: seq<Book>, receipts: seq<Receipt>, i: nat, j: nat)
    requires i < |receipts| <= |txs| && i < j < |books|
  {
    Turn(books[i], limit - TotalGas(receipts[..i]), txs[i], p, limit, books[j], receipts[i])
  }

  lemma {:induction false} TxsMean(b: Book, txs: seq<Tx>, p: Params, limit: nat) returns (books: seq<Book>)
    ensures var s := ApplyTxs(b, txs, p, limit);
            && Trace(b, txs, p, limit, books, s.receipts) && s.book == books[|s.receipts|]
            && s.gas == limit - TotalGas(s.receipts)
            && (s.error.None? <==> |s.receipts| == |txs|)
            && (s.error.Some? ==> Refuses(s.book, s.gas, txs[|s.receipts|], p, s.error.value))
  {
    if txs == [] {
      books := [b];
    } else {
      var front, tx := txs[..|txs| - 1], txs[|txs| - 1];
      books := TxsMean(b, front, p, limit);
      books := TxsMore(b, txs, p, limit, books, ApplyTxs(b, front, p, limit), ApplyTxs(b, txs, p, limit));
    }
  }

  lemma TxsMore(b: Book, txs: seq<Tx>, p: Params, limit: nat, books: seq<Book>, s: Progress, t: Progress)
    returns (after: seq<Book>)
    requires txs != [] && s.gas <= limit && t == ApplyTx(s, txs[|txs| - 1], p, limit)
    requires Trace(b, txs[..|txs| - 1], p, limit, books, s.receipts) && s.book == books[|s.receipts|]
    requires s.gas == limit - TotalGas(s.receipts) && (s.error.None? <==> |s.receipts| == |txs| - 1)
    requires s.error.Some? ==> Refuses(s.book, s.gas, txs[|s.receipts|], p, s.error.value)
    ensures Trace(b, txs, p, limit, after, t.receipts) && t.book == after[|t.receipts|]
    ensures t.gas == limit - TotalGas(t.receipts) && (t.error.None? <==> |t.receipts| == |txs|)
    ensures t.error.Some? ==> Refuses(t.book, t.gas, txs[|t.receipts|], p, t.error.value)
  {
    Shorter(b, txs[..|txs| - 1], txs, p, limit, books, s.receipts);
    after := books;
    if s.error.None? {
      ApplyMeans(s, txs[|txs| - 1], p, limit);
      if t.error.None? {
        after := OneMore(b, txs, p, limit, books, s.receipts, t.receipts, t.book);
      }
    }
  }

  lemma Shorter(b: Book, front: seq<Tx>, txs: seq<Tx>, p: Params, limit: nat, books: seq<Book>, receipts: seq<Receipt>)
    requires txs != [] && front == txs[..|txs| - 1] && Trace(b, front, p, limit, books, receipts)
    ensures Trace(b, txs, p, limit, books, receipts)
  {
    forall i, j | 0 <= i < |receipts| && j == i + 1 ensures TurnAt(txs, p, limit, books, receipts, i, j) {
      assert TurnAt(front, p, limit, books, receipts, i, j);
    }
  }

  lemma OneMore(b: Book, txs: seq<Tx>, p: Params, limit: nat, books: seq<Book>, receipts: seq<Receipt>,
                more: seq<Receipt>, c: Book)
    returns (after: seq<Book>)
    requires txs != [] && |receipts| == |txs| - 1 && Trace(b, txs[..|txs| - 1], p, limit, books, receipts)
    requires |more| == |txs| && more == receipts + [more[|receipts|]]
    requires Turn(books[|receipts|], limit - TotalGas(receipts), txs[|receipts|], p, limit, c, more[|receipts|])
    ensures after == books + [c] && Trace(b, txs, p, limit, after, more)
    ensures TotalGas(more) == TotalGas(receipts) + more[|receipts|].gasUsed
  {
    after := books + [c];
    var front := txs[..|txs| - 1];
    assert more[..|receipts|] == receipts;
    forall i, j | 0 <= i < |more| && j == i + 1 ensures TurnAt(txs, p, limit, after, more, i, j) {
      if i < |receipts| {
        assert TurnAt(front, p, limit, books, receipts, i, j);
        assert more[..i] == receipts[..i];
      }
    }
  }

  function PowerOfTwo(k: nat): (n: nat)
    ensures n > 0
  {
    if k == 0 then 1 else 2 * PowerOfTwo(k - 1)
  }

  /** The reward of a height: the base divided by 2 for every 8,400,000 blocks, ten times at most, rounded down. */
  ghost predicate IsReward(base: nat, height: nat, reward: nat) {
    exists k: nat :: HalvedBy(height, k) && reward * PowerOfTwo(k) <= base < (reward + 1) * PowerOfTwo(k)
  }

  predicate HalvedBy(height: nat, k: nat) {
    k <= 10 && k * 8_400_000 <= height && (height < (k + 1) * 8_400_000 || k == 10)
  }

  lemma {:induction false} HalvedMeans(base: nat, k: nat)
    ensures Halved(base, k) * PowerOfTwo(k) <= base < (Halved(base, k) + 1) * PowerOfTwo(k)
  {
    if k > 0 {
      HalvedMeans(base, k - 1);
      HalveOnce(base, Halved(base, k - 1), PowerOfTwo(k - 1), Halved(base, k));
    }
  }

  lemma HalveOnce(base: nat, h: nat, d: nat, q: nat)
    requires h * d <= base < (h + 1) * d && q == h / 2
    ensures q * (2 * d) <= base < (q + 1) * (2 * d)
  {
    MulMono(2 * q, h, d);
    MulMono(h + 1, 2 * q + 2, d);
    assert q * (2 * d) == (2 * q) * d;
    assert (q + 1) * (2 * d) == (2 * q + 2) * d;
  }

  lemma RewardMeans(base: nat, height: nat)
    ensures IsReward(base, height, Reward(base, height))
  {
    var k := if height / 8_400_000 < 10 then height / 8_400_000 else 10;
    HalvedMeans(base, k);
    assert HalvedBy(height, k);
  }

  /** There is only one. */
  lemma RewardUnique(base: nat, height: nat, r: nat, q: nat)
    requires IsReward(base, height, r) && IsReward(base, height, q)
    ensures r == q
  {
    var k: nat :| HalvedBy(height, k) && r * PowerOfTwo(k) <= base < (r + 1) * PowerOfTwo(k);
    var l: nat :| HalvedBy(height, l) && q * PowerOfTwo(l) <= base < (q + 1) * PowerOfTwo(l);
    assert k == l;
    FloorIs(base, PowerOfTwo(k), r);
    FloorIs(base, PowerOfTwo(k), q);
  }

  /** The proposer alone gains, this much of either token. */
  ghost predicate Rewarded(b: Book, c: Book, proposer: Address, apt: nat, npt: nat) {
    && c.pool == b.pool
    && forall a :: Moved(AccountAt(b.view, a), AccountAt(c.view, a),
                         if a == proposer then apt else 0, if a == proposer then npt else 0)
  }

  /**
   * What a block comes to: its transactions in order up to the first that is
   * refused; if none is, the rewards to the proposer, up to the first that is zero.
   */
  ghost predicate Produced(b: Book, block: Block, p: Params, books: seq<Book>, receipts: seq<Receipt>, c: Book,
                           error: Option<Error>)
  {
    && Trace(b, block.txs, p, block.gasLimit, books, receipts)
    && var last := books[|receipts|];
    if |receipts| < |block.txs| then
      && c == last && error.Some?
      && Refuses(last, block.gasLimit - TotalGas(receipts), block.txs[|receipts|], p, error.value)
    else
      exists apt: nat, npt: nat ::
        && IsReward(p.rewardAPT, block.height, apt) && IsReward(p.rewardNPT, block.height, npt)
        && error == (if apt == 0 || npt == 0 then Some(ErrZeroAmount) else None)
        && Rewarded(last, c, block.proposer, apt, if apt == 0 then 0 else npt)
  }

  /** Process returns an error, or the sum of the gas and the receipts. */
  ghost predicate Processed(b: Book, block: Block, p: Params, books: seq<Book>, receipts: seq<Receipt>, c: Book,
                            r: Result<(nat, seq<Receipt>), Error>)
  {
    && Produced(b, block, p, books, receipts, c, if r.Ok? then None else Some(r.error))
    && (r.Ok? ==> r.value == (TotalGas(receipts), receipts))
  }

  lemma BlockMeans(b: Book, block: Block, p: Params) returns (books: seq<Book>)
    ensures var s := Process(b, block, p);
            Produced(b, block, p, books, s.receipts, s.book, s.error)
  {
    books := TxsMean(b, block.txs, p, block.gasLimit);
    var s := ApplyTxs(b, block.txs, p, block.gasLimit);
    if s.error.None? {
      RewardsMean(b, block, p, s, Process(b, block, p));
    }
  }

  lemma ProcessMeans(b: Book, block: Block, p: Params, c: Book, r: Result<(nat, seq<Receipt>), Error>)
    requires var s := Process(b, block, p);
             && c == s.book && s.error == (if r.Ok? then None else Some(r.error))
             && (r.Ok? ==> r.value == (TotalGas(s.receipts), s.receipts))
    ensures exists books, receipts :: Processed(b, block, p, books, receipts, c, r)
  {
    var books := BlockMeans(b, block, p);
    assert Processed(b, block, p, books, Process(b, block, p).receipts, c, r);
  }

  lemma RewardsMean(b: Book, block: Block, p: Params, s: Progress, t: Progress)
    requires s == ApplyTxs(b, block.txs, p, block.gasLimit) && s.error == None && t == Process(b, block, p)
    ensures var apt, npt := Reward(p.rewardAPT, block.height), Reward(p.rewardNPT, block.height);
            && IsReward(p.rewardAPT, block.height, apt) && IsReward(p.rewardNPT, block.height, npt)
            && t.error == (if apt == 0 || npt == 0 then Some(ErrZeroAmount) else None)
            && Rewarded(s.book, t.book, block.proposer, apt, if apt == 0 then 0 else npt)
  {
    RewardMeans(p.rewardAPT, block.height);
    RewardMeans(p.rewardNPT, block.height);
  }

  /** After a successful block the proposer has both rewards, and nothing else differs from after the transactions. */
  lemma ProposerPaid(b: Book, block: Block, p: Params, apt: nat, npt: nat)
    requires Process(b, block, p).error == None
    requires IsReward(p.rewardAPT, block.height, apt) && IsReward(p.rewardNPT, block.height, npt)
    ensures var before, after := ApplyTxs(b, block.txs, p, block.gasLimit).book, Process(b, block, p).book;
            && apt > 0 && npt > 0 && after.pool == before.pool
            && BalanceOf(after, APT, block.proposer) == BalanceOf(before, APT, block.proposer) + apt
            && BalanceOf(after, NPT, block.proposer) == BalanceOf(before, NPT, block.proposer) + npt
            && AccountAt(after.view, block.proposer).nonce == AccountAt(before.view, block.proposer).nonce
            && forall a :: a != block.proposer ==> AccountAt(after.view, a) == AccountAt(before.view, a)
  {
    var s, t := ApplyTxs(b, block.txs, p, block.gasLimit), Process(b, block, p);
    RewardsMean(b, block, p, s, t);
    RewardUnique(p.rewardAPT, block.height, apt, Reward(p.rewardAPT, block.height));
    RewardUnique(p.rewardNPT, block.height, npt, Reward(p.rewardNPT, block.height));
    PaidOut(s.book, t.book, block.proposer, apt, npt);
  }

  lemma PaidOut(b: Book, c: Book, proposer: Address, apt: nat, npt: nat)
    requires Rewarded(b, c, proposer, apt, npt)
    ensures Moved(AccountAt(b.view, proposer), AccountAt(c.view, proposer), apt, npt)
    ensures forall a :: a != proposer ==> AccountAt(c.view, a) == AccountAt(b.view, a)
  {
    forall a | a != proposer ensures AccountAt(c.view, a) == AccountAt(b.view, a) {
      assert Moved(AccountAt(b.view, a), AccountAt(c.view, a), 0, 0);
    }
  }
}
