/**
 * The chain of blocks (internal/blockchain/blockchain.go, validator.go): block
 * validation, genesis, insertion, and what every history of insertions keeps.
 */
module Blockchain {
  import opened Wrappers
  import opened Nibbles
  import opened TrieNode
  import opened AccountCodec
  import opened StateDB
  import opened StateRollback
  import opened StateStore
  import opened StateReopen
  import opened Amm
  import opened Ledger
  import opened Processor
  import Executor
  import TxOutcome

  /** A header; the fields that nothing here looks at are kept in other. */
  datatype Header = Header(parentHash: Hash, height: uint64, timestamp: uint64, stateRoot: Hash, proposer: Address,
                           gasLimit: uint64, gasUsed: nat, other: Bytes)

  datatype Block = Block(header: Header, txs: seq<Executor.Tx>)

  /** ComputeBlockHash, abstract. */
  type HeaderHash = Header -> Hash

  datatype Error =
    | NoParent
    | InvalidHeight
    | InvalidParentHash
    | InvalidTimestamp
    | GasLimitChange
    | GasUsedTooHigh
    | ExecutionFailed(reason: Ledger.Error)

  function AbsDiff(a: nat, b: nat): nat {
    if a > b then a - b else b - a
  }

  /** How far the gas limit may move from a parent's. */
  function MaxChange(limit: nat): nat {
    if limit / 1024 < 1 then 1 else limit / 1024
  }

  /** ValidateBlock: the first check that fails. */
  function ValidateBlock(block: Block, parent: Block, hashOf: HeaderHash): Option<Error> {
    var h, p := block.header, parent.header;
    if h.height != (p.height + 1) % UINT64 then Some(InvalidHeight)
    else if h.parentHash != hashOf(p) then Some(InvalidParentHash)
    else if h.timestamp <= p.timestamp then Some(InvalidTimestamp)
    else if AbsDiff(h.gasLimit, p.gasLimit) > MaxChange(p.gasLimit) then Some(GasLimitChange)
    else if h.gasUsed > h.gasLimit then Some(GasUsedTooHigh)
    else None
  }

  /** Two gas limits differ by at most one, or by at most a 1024th of the second. */
  predicate Near(limit: int, parent: int) {
    var d := limit - parent;
    -1 <= d <= 1 || (1024 * d <= parent && -1024 * d <= parent)
  }

  /** What a child in the chain is to its parent. */
  ghost predicate Follows(child: Block, parent: Block, hashOf: HeaderHash) {
    var h, p := child.header, parent.header;
    && h.height == (p.height + 1) % 0x1_0000_0000_0000_0000 && h.parentHash == hashOf(p) && h.timestamp > p.timestamp
    && Near(h.gasLimit, p.gasLimit) && h.gasUsed <= h.gasLimit
  }

  /** The checks of a block against its parent, in order, and the error of each. */
  ghost predicate Rejects(block: Block, parent: Block, hashOf: HeaderHash, e: Error) {
    var h, p := block.header, parent.header;
    var next := h.height == (p.height + 1) % 0x1_0000_0000_0000_0000;
    var child := h.parentHash == hashOf(p);
    var later := h.timestamp > p.timestamp;
    var near := Near(h.gasLimit, p.gasLimit);
    || (e == InvalidHeight && !next)
    || (e == InvalidParentHash && next && !child)
    || (e == InvalidTimestamp && next && child && !later)
    || (e == GasLimitChange && next && child && later && !near)
    || (e == GasUsedTooHigh && next && child && later && near && h.gasUsed > h.gasLimit)
  }

  lemma NearMeans(limit: nat, parent: nat)
    ensures AbsDiff(limit, parent) <= MaxChange(parent) <==> Near(limit, parent)
  {
  }

  /** Validation reports the first check that fails, and none exactly when the block may follow. */
  lemma ValidateMeans(block: Block, parent: Block, hashOf: HeaderHash)
    ensures forall e :: ValidateBlock(block, parent, hashOf) == Some(e) <==> Rejects(block, parent, hashOf, e)
    ensures ValidateBlock(block, parent, hashOf) == None <==> Follows(block, parent, hashOf)
  {
    NearMeans(block.header.gasLimit, parent.header.gasLimit);
  }

  ghost predicate Linked(chain: seq<Block>, hashOf: HeaderHash) {
    forall i, j :: 0 <= i && j == i + 1 < |chain| ==> Follows(chain[j], chain[i], hashOf)
  }

  // ---- Linked chains ----

  /** Heights are contiguous from the first block and timestamps rise by at least one a block. */
  lemma {:induction false} Contiguous(chain: seq<Block>, hashOf: HeaderHash, i: nat, j: nat)
    requires Linked(chain, hashOf) && i <= j < |chain|
    ensures chain[j].header.height == (chain[i].header.height + (j - i)) % UINT64
    ensures chain[j].header.timestamp >= chain[i].header.timestamp + (j - i)
    decreases j
  {
    if i < j {
      Contiguous(chain, hashOf, i, j - 1);
      assert Follows(chain[j], chain[j - 1], hashOf);
      Wraps(chain[i].header.height, j - 1 - i);
    }
  }

  lemma Wraps(a: nat, k: nat)
    ensures ((a + k) % UINT64 + 1) % UINT64 == (a + k + 1) % UINT64
  {
  }

  /** Heights wrap at 2^64, but timestamps do not, so no height ever comes back. */
  lemma HeightsDiffer(chain: seq<Block>, hashOf: HeaderHash, i: nat, j: nat)
    requires Linked(chain, hashOf) && i < j < |chain|
    ensures chain[i].header.height != chain[j].header.height
    ensures chain[i].header.timestamp < chain[j].header.timestamp
  {
    Contiguous(chain, hashOf, i, j);
    NoReturn(chain[i].header.height, j - i);
  }

  lemma NoReturn(a: nat, k: nat)
    requires a < UINT64 && 0 < k < UINT64
    ensures (a + k) % UINT64 != a
  {
    if a + k < UINT64 {
    } else {
      assert (a + k) % UINT64 == a + k - UINT64;
    }
  }

  // ---- Money ----

  /** Same accounts up to storage roots, same reserves. */
  ghost predicate SameMoney(a: Book, b: Book) {
    && a.pool == b.pool && a.view.Keys == b.view.Keys
    && forall x :: x in a.view ==> SameHoldings(a.view[x], b.view[x])
  }

  predicate SameHoldings(a: Account, b: Account) {
    a.nonce == b.nonce && a.apt == b.apt && a.npt == b.npt
  }

  lemma {:induction false} SameSum(a: Accounts, b: Accounts, t: Token)
    requires a.Keys == b.Keys && forall x :: x in a ==> SameHoldings(a[x], b[x])
    ensures Ledger.Sum(a, t) == Ledger.Sum(b, t)
    decreases |a|
  {
    if a == map[] {
      assert b == map[];
    } else {
      var x :| x in a;
      SumWithout(a, t, x);
      SumWithout(b, t, x);
      SameSum(a - {x}, b - {x}, t);
    }
  }

  /** What a block creates: nothing if a transaction was refused, no NPT if the APT reward was. */
  function Created(b: Book, block: Executor.Block, p: Executor.Params, t: Token): nat {
    if Executor.ApplyTxs(b, block.txs, p, block.gasLimit).error.Some? then 0
    else if t.NPT? && Executor.RewardOf(p, block.height, APT) == 0 then 0
    else Executor.RewardOf(p, block.height, t)
  }

  /** What it destroys. */
  function Destroyed(b: Book, block: Executor.Block, p: Executor.Params, t: Token): nat {
    Executor.Outflow(block.txs, Executor.ApplyTxs(b, block.txs, p, block.gasLimit).receipts, t)
  }

  /** Supply over one block, whether it is accepted or fails half way. */
  lemma ProcessTotal(b: Book, block: Executor.Block, p: Executor.Params, t: Token)
    ensures Total(Executor.Process(b, block, p).book, t) + Destroyed(b, block, p, t)
            == Total(b, t) + Created(b, block, p, t)
  {
    Executor.TxsTotal(b, block.txs, p, block.gasLimit, t);
    var s := Executor.ApplyTxs(b, block.txs, p, block.gasLimit);
    var apt, npt := Executor.RewardOf(p, block.height, APT), Executor.RewardOf(p, block.height, NPT);
    if s.error.None? && apt != 0 {
      CreditTotal(s.book, APT, block.proposer, apt);
      if npt != 0 {
        CreditTotal(Credit(s.book, APT, block.proposer, apt), NPT, block.proposer, npt);
      }
    }
  }

  // ---- Histories ----

  /** The chain so far, the book, and every transaction executed, also by blocks that failed. */
  datatype World = World(chain: seq<Block>, book: Book, executed: seq<Executor.Tx>)

  /** The part of a block that the executor sees. */
  function Payload(block: Block): Executor.Block {
    Executor.Block(block.txs, block.header.proposer, block.header.height, block.header.gasLimit)
  }

  /** The block as it is stored: root and gas are set by execution. */
  function Sealed(block: Block, root: Hash, gas: nat): Block {
    block.(header := block.header.(stateRoot := root, gasUsed := gas))
  }

  /** How an InsertBlock ends: its error, and the root that the commit returned. */
  datatype Outcome = Outcome(error: Option<Error>, root: Hash)

  /** What a block that passes validation does. */
  ghost predicate Executes(w: World, block: Block, v: World, out: Outcome, p: Executor.Params) {
    var s := Executor.Process(w.book, Payload(block), p);
    && v.executed == w.executed + Executor.Executed(w.book, Payload(block), p)
    && if s.error.Some? then out.error == Some(ExecutionFailed(s.error.value)) && v.chain == w.chain && v.book == s.book
       else
         && out.error == None && SameMoney(v.book, s.book)
         && v.chain == w.chain + [Sealed(block, out.root, Executor.TotalGas(s.receipts))]
  }

  /** What ValidateBlock says at the head of the chain. */
  function Refusal(chain: seq<Block>, block: Block, hashOf: HeaderHash): Option<Error> {
    if chain == [] then Some(NoParent) else ValidateBlock(block, chain[|chain| - 1], hashOf)
  }

  /** One InsertBlock, from w to v. */
  ghost predicate Inserted(w: World, block: Block, v: World, out: Outcome, p: Executor.Params, hashOf: HeaderHash) {
    var refused := Refusal(w.chain, block, hashOf);
    if refused.Some? then out.error == refused && v == w
    else Executes(w, block, v, out, p)
  }

  /** Nothing has run twice, and nothing that has run can run again. */
  ghost predicate NoReplay(w: World) {
    Executor.Below(w.book, w.executed) && Executor.AtMostOnce(w.executed)
  }

  lemma InsertedLinked(w: World, block: Block, v: World, out: Outcome, p: Executor.Params, hashOf: HeaderHash)
    requires Inserted(w, block, v, out, p, hashOf) && Linked(w.chain, hashOf)
    ensures Linked(v.chain, hashOf)
  {
    if v.chain != w.chain {
      var x := Payload(block);
      Executor.GasAccounts(w.book, x.txs, p, x.gasLimit);
      var n := |w.chain|;
      ValidateMeans(block, w.chain[n - 1], hashOf);
      assert v.chain[n - 1] == w.chain[n - 1];
      assert Follows(v.chain[n], w.chain[n - 1], hashOf);
    }
  }

  /** One InsertBlock without the functions of this module: refused, failed in execution, or appended. */
  ghost predicate Inserts(w: World, block: Block, v: World, out: Outcome, p: Executor.Params, hashOf: HeaderHash) {
    if w.chain == [] then out.error == Some(NoParent) && v == w
    else
      var head := w.chain[|w.chain| - 1];
      if Follows(block, head, hashOf) then exists failed :: Runs(w, block, v, out, p, failed)
      else v == w && out.error.Some? && Rejects(block, head, hashOf, out.error.value)
  }

  /** The part of an insertion after the checks, with the error of the executor. */
  ghost predicate Runs(w: World, block: Block, v: World, out: Outcome, p: Executor.Params, failed: Option<Ledger.Error>)
  {
    var h := block.header;
    exists books, receipts, c ::
      && TxOutcome.Produced(w.book, Executor.Block(block.txs, h.proposer, h.height, h.gasLimit), p, books, receipts, c,
                            failed)
      && v.executed == w.executed + block.txs[..|receipts|]
      && (failed.Some? ==> out.error == Some(ExecutionFailed(failed.value)) && v.chain == w.chain && v.book == c)
      && (failed.None? ==> out.error == None && SameMoney(v.book, c) && |v.chain| == |w.chain| + 1)
      && (failed.None? ==> v.chain[..|w.chain|] == w.chain && v.chain[|w.chain|].txs == block.txs)
      && (failed.None? ==>
            v.chain[|w.chain|].header == h.(stateRoot := out.root, gasUsed := Executor.TotalGas(receipts)))
  }

  lemma InsertMeans(w: World, block: Block, v: World, out: Outcome, p: Executor.Params, hashOf: HeaderHash)
    requires Inserted(w, block, v, out, p, hashOf)
    ensures Inserts(w, block, v, out, p, hashOf)
  {
    if w.chain != [] {
      ValidateMeans(block, w.chain[|w.chain| - 1], hashOf);
      if Refusal(w.chain, block, hashOf).None? {
        ExecutesMeans(w, block, v, out, p);
      }
    }
  }

  lemma ExecutesMeans(w: World, block: Block, v: World, out: Outcome, p: Executor.Params)
    requires Executes(w, block, v, out, p)
    ensures exists failed :: Runs(w, block, v, out, p, failed)
  {
    var books := TxOutcome.BlockMeans(w.book, Payload(block), p);
    var s := Executor.Process(w.book, Payload(block), p);
    assert TxOutcome.Produced(w.book, Payload(block), p, books, s.receipts, s.book, s.error);
    assert Runs(w, block, v, out, p, s.error);
  }

  /** An insertion keeps replay protection exactly when nothing that ran carries the last nonce. */
  lemma InsertedOnce(w: World, block: Block, v: World, out: Outcome, p: Executor.Params, hashOf: HeaderHash)
    requires Inserted(w, block, v, out, p, hashOf) && NoReplay(w)
    ensures NoReplay(v) <==> Executor.NoLastNonce(v.executed)
  {
    Executor.BelowMeans(w.book, w.executed);
    Executor.BlockOnce(w.book, Payload(block), p, w.executed);
  }

  lemma InsertedTotal(w: World, block: Block, v: World, out: Outcome, p: Executor.Params, hashOf: HeaderHash, t: Token)
    requires Inserted(w, block, v, out, p, hashOf)
    ensures Total(v.book, t) + Lost(w, block, p, hashOf, t) == Total(w.book, t) + Gained(w, block, p, hashOf, t)
  {
    if Refusal(w.chain, block, hashOf).None? {
      ProcessTotal(w.book, Payload(block), p, t);
      var s := Executor.Process(w.book, Payload(block), p);
      if s.error.None? {
        SameSum(v.book.view, s.book.view, t);
      }
    }
  }

  function Gained(w: World, block: Block, p: Executor.Params, hashOf: HeaderHash, t: Token): nat {
    if Refusal(w.chain, block, hashOf).None? then Created(w.book, Payload(block), p, t) else 0
  }

  function Lost(w: World, block: Block, p: Executor.Params, hashOf: HeaderHash, t: Token): nat {
    if Refusal(w.chain, block, hashOf).None? then Destroyed(w.book, Payload(block), p, t) else 0
  }

  ghost predicate Step(w: World, block: Block, v: World, p: Executor.Params, hashOf: HeaderHash) {
    exists out :: Inserted(w, block, v, out, p, hashOf)
  }

  /** Worlds before, between and after a run of insertions, each of which may succeed or fail. */
  ghost predicate History(ws: seq<World>, blocks: seq<Block>, p: Executor.Params, hashOf: HeaderHash) {
    && |ws| == |blocks| + 1
    && forall i, j :: 0 <= i < |blocks| && j == i + 1 ==> Step(ws[i], blocks[i], ws[j], p, hashOf)
  }

  lemma HistoryPrefix(ws: seq<World>, blocks: seq<Block>, p: Executor.Params, hashOf: HeaderHash)
    requires History(ws, blocks, p, hashOf) && blocks != []
    ensures History(ws[..|blocks|], blocks[..|blocks| - 1], p, hashOf)
    ensures Step(ws[|blocks| - 1], blocks[|blocks| - 1], ws[|blocks|], p, hashOf)
  {
    var n := |blocks| - 1;
    var before, prior := ws[..|blocks|], blocks[..n];
    forall i, j | 0 <= i < |prior| && j == i + 1 ensures Step(before[i], prior[i], before[j], p, hashOf) {
      assert Step(ws[i], blocks[i], ws[j], p, hashOf);
    }
    var last := n + 1;
    assert Step(ws[n], blocks[n], ws[last], p, hashOf);
  }

  /** The chain stays linked over any history. */
  lemma {:induction false} AlwaysLinked(ws: seq<World>, blocks: seq<Block>, p: Executor.Params, hashOf: HeaderHash)
    requires History(ws, blocks, p, hashOf) && Linked(ws[0].chain, hashOf)
    ensures Linked(ws[|blocks|].chain, hashOf)
    decreases |blocks|
  {
    if blocks != [] {
      HistoryPrefix(ws, blocks, p, hashOf);
      var out :| Inserted(ws[|blocks| - 1], blocks[|blocks| - 1], ws[|blocks|], out, p, hashOf);
      AlwaysLinked(ws[..|blocks|], blocks[..|blocks| - 1], p, hashOf);
      InsertedLinked(ws[|blocks| - 1], blocks[|blocks| - 1], ws[|blocks|], out, p, hashOf);
    }
  }

  /** What has run stays on the list of what has run. */
  lemma ExecutedGrows(w: World, block: Block, v: World, out: Outcome, p: Executor.Params, hashOf: HeaderHash)
    requires Inserted(w, block, v, out, p, hashOf) && Executor.NoLastNonce(v.executed)
    ensures Executor.NoLastNonce(w.executed)
  {
    forall i | 0 <= i < |w.executed| ensures w.executed[i].nonce != Executor.MAX_NONCE {
      assert v.executed[i] == w.executed[i];
    }
  }

  /** No sender and nonce ever runs twice, failed blocks included, exactly as long as no last nonce has run. */
  lemma {:induction false} AlwaysOnce(ws: seq<World>, blocks: seq<Block>, p: Executor.Params, hashOf: HeaderHash)
    requires History(ws, blocks, p, hashOf) && NoReplay(ws[0])
    ensures NoReplay(ws[|blocks|]) <==> Executor.NoLastNonce(ws[|blocks|].executed)
    decreases |blocks|
  {
    if NoReplay(ws[|blocks|]) {
      Executor.BelowMeans(ws[|blocks|].book, ws[|blocks|].executed);
    } else if blocks != [] {
      HistoryPrefix(ws, blocks, p, hashOf);
      var w, v := ws[|blocks| - 1], ws[|blocks|];
      var out :| Inserted(w, blocks[|blocks| - 1], v, out, p, hashOf);
      AlwaysOnce(ws[..|blocks|], blocks[..|blocks| - 1], p, hashOf);
      if Executor.NoLastNonce(v.executed) {
        ExecutedGrows(w, blocks[|blocks| - 1], v, out, p, hashOf);
        InsertedOnce(w, blocks[|blocks| - 1], v, out, p, hashOf);
      }
    }
  }

  ghost function AllGained(ws: seq<World>, blocks: seq<Block>, p: Executor.Params, hashOf: HeaderHash, t: Token): nat
    requires |ws| > |blocks|
    decreases |blocks|
  {
    if blocks == [] then 0
    else
      var n := |blocks| - 1;
      AllGained(ws[..|blocks|], blocks[..n], p, hashOf, t) + Gained(ws[n], blocks[n], p, hashOf, t)
  }

  ghost function AllLost(ws: seq<World>, blocks: seq<Block>, p: Executor.Params, hashOf: HeaderHash, t: Token): nat
    requires |ws| > |blocks|
    decreases |blocks|
  {
    if blocks == [] then 0
    else
      var n := |blocks| - 1;
      AllLost(ws[..|blocks|], blocks[..n], p, hashOf, t) + Lost(ws[n], blocks[n], p, hashOf, t)
  }

  /** Supply over any history: what is there plus what was destroyed is what was there plus what was minted. */
  lemma {:induction false} AlwaysConserved(ws: seq<World>, blocks: seq<Block>, p: Executor.Params, hashOf: HeaderHash,
                                           t: Token)
    requires History(ws, blocks, p, hashOf)
    ensures Total(ws[|blocks|].book, t) + AllLost(ws, blocks, p, hashOf, t)
         == Total(ws[0].book, t) + AllGained(ws, blocks, p, hashOf, t)
    decreases |blocks|
  {
    if blocks != [] {
      HistoryPrefix(ws, blocks, p, hashOf);
      var out :| Inserted(ws[|blocks| - 1], blocks[|blocks| - 1], ws[|blocks|], out, p, hashOf);
      AlwaysConserved(ws[..|blocks|], blocks[..|blocks| - 1], p, hashOf, t);
      InsertedTotal(ws[|blocks| - 1], blocks[|blocks| - 1], ws[|blocks|], out, p, hashOf, t);
    }
  }

  // ---- Genesis ----

  datatype Alloc = Alloc(addr: Address, apt: nat, npt: nat)

  datatype Genesis = Genesis(height: uint64, timestamp: uint64, gasLimit: uint64, alloc: seq<Alloc>, pool: Pool)

  /** The allocations in order; a zero amount stops them with an error. */
  function Allocate(b: Book, alloc: seq<Alloc>): Executor.Effect {
    if alloc == [] then Executor.Effect(b, None)
    else
      var before, a := Allocate(b, alloc[..|alloc| - 1]), alloc[|alloc| - 1];
      if before.error.Some? then before
      else if a.apt == 0 then Executor.Effect(before.book, Some(ErrZeroAmount))
      else
        var paid := Credit(before.book, APT, a.addr, a.apt);
        if a.npt == 0 then Executor.Effect(paid, Some(ErrZeroAmount))
        else Executor.Effect(Credit(paid, NPT, a.addr, a.npt), None)
  }

  function AllocTotal(alloc: seq<Alloc>, t: Token): nat {
    if alloc == [] then 0
    else AllocTotal(alloc[..|alloc| - 1], t) + if t.APT? then alloc[|alloc| - 1].apt else alloc[|alloc| - 1].npt
  }

  /** Genesis succeeds exactly when no allocation is zero in either token. */
  lemma {:induction false} AllocateTotal(b: Book, alloc: seq<Alloc>, t: Token)
    ensures var e := Allocate(b, alloc);
            && e.book.pool == b.pool
            && (e.error.None? <==> forall i :: 0 <= i < |alloc| ==> alloc[i].apt > 0 && alloc[i].npt > 0)
            && (e.error.None? ==> Total(e.book, t) == Total(b, t) + AllocTotal(alloc, t))
  {
    if alloc != [] {
      var before, a := alloc[..|alloc| - 1], alloc[|alloc| - 1];
      AllocateTotal(b, before, t);
      var e := Allocate(b, before);
      if e.error.None? {
        assert forall i :: 0 <= i < |before| ==> alloc[i] == before[i];
        if a.apt > 0 && a.npt > 0 {
          CreditTotal(e.book, APT, a.addr, a.apt);
          CreditTotal(Credit(e.book, APT, a.addr, a.apt), NPT, a.addr, a.npt);
        }
      } else {
        var i :| 0 <= i < |before| && !(before[i].apt > 0 && before[i].npt > 0);
        assert alloc[i] == before[i];
      }
    }
  }

  /** All that is allocated to an address. */
  function AllocatedTo(alloc: seq<Alloc>, addr: Address, t: Token): nat {
    if alloc == [] then 0
    else
      var a := alloc[|alloc| - 1];
      AllocatedTo(alloc[..|alloc| - 1], addr, t)
      + if a.addr != addr then 0 else if t == APT then a.apt else a.npt
  }

  /** Every address gets what is allocated to it, and nothing else changes. */
  lemma {:induction false} AllocateMeans(b: Book, alloc: seq<Alloc>)
    requires Allocate(b, alloc).error.None?
    ensures var c := Allocate(b, alloc).book;
            && c.pool == b.pool
            && forall x :: Moved(AccountAt(b.view, x), AccountAt(c.view, x),
                                 AllocatedTo(alloc, x, APT), AllocatedTo(alloc, x, NPT))
  {
    if alloc != [] {
      AllocateMeans(b, alloc[..|alloc| - 1]);
    }
  }

  /** The book of a genesis that succeeds. */
  function GenesisBook(b: Book, g: Genesis): Book {
    var e := Allocate(b, g.alloc);
    if g.pool == Pool(0, 0) then e.book else Book(Touch(e.book, AMM_POOL_ADDRESS).view, g.pool)
  }

  /** On an empty state the supply of a genesis is its allocations and its pool. */
  lemma GenesisSupply(g: Genesis, t: Token)
    requires forall i :: 0 <= i < |g.alloc| ==> g.alloc[i].apt > 0 && g.alloc[i].npt > 0
    ensures Total(GenesisBook(Book(map[], Pool(0, 0)), g), t) == AllocTotal(g.alloc, t) + Reserve(g.pool, t)
  {
    var b := Book(map[], Pool(0, 0));
    AllocateTotal(b, g.alloc, t);
    TouchTotal(Allocate(b, g.alloc).book, AMM_POOL_ADDRESS, t);
  }

  // ---- Committing the state ----

  ghost function RootedAccounts(objects: Objects, pending: set<Address>, rootOf: map<Slot, Bytes> -> Hash): Accounts {
    map a | a in objects && IsDirty(objects[a]) && a !in pending :: WithStorageRoot(objects[a], rootOf)
  }

  lemma RootedHoldings(s: State, rootOf: map<Slot, Bytes> -> Hash, x: Address)
    ensures x in View(StateAfterCommit(s, rootOf)) <==> x in View(s)
    ensures x in View(s) ==> SameHoldings(View(StateAfterCommit(s, rootOf))[x], View(s)[x])
  {
    var objects, trie := Rooted(s.objects, {}, rootOf), Committed(s, rootOf);
    assert View(StateAfterCommit(s, rootOf)) == trie + AccountsOf(objects);
    if x in s.objects {
      assert objects[x] == RootedObject(s.objects[x], rootOf);
      assert AccountsOf(objects)[x] == WithStorageRoot(s.objects[x], rootOf);
    }
  }

  /** A commit keeps the journal in order and moves no money. */
  lemma CommitKeepsMoney(s: State, rootOf: map<Slot, Bytes> -> Hash)
    requires Valid(s)
    ensures Valid(StateAfterCommit(s, rootOf)) && SameMoney(BookOf(StateAfterCommit(s, rootOf)), BookOf(s))
  {
    var t := StateAfterCommit(s, rootOf);
    var before, after := View(s), View(t);
    forall x ensures x in after <==> x in before {
      RootedHoldings(s, rootOf, x);
    }
    forall x | x in after ensures SameHoldings(after[x], before[x]) {
      RootedHoldings(s, rootOf, x);
    }
    assert SameMoney(Book(after, PoolOf(t)), Book(before, PoolOf(s)));
  }

  /** How far the loop of a commit is: all but the pending objects have their root and are in the trie. */
  ghost predicate Rooting(objects: Objects, start: Accounts, pending: set<Address>, rootOf: map<Slot, Bytes> -> Hash,
                          now: Objects, trie: Accounts)
  {
    now == Rooted(objects, pending, rootOf) && trie == start + RootedAccounts(objects, pending, rootOf)
  }

  lemma RootOne(objects: Objects, start: Accounts, pending: set<Address>, rootOf: map<Slot, Bytes> -> Hash,
                now: Objects, trie: Accounts, addr: Address)
    requires Rooting(objects, start, pending, rootOf, now, trie) && addr in pending && addr in objects
    ensures addr in now && now[addr] == objects[addr]
    ensures var after := now[addr := RootedObject(now[addr], rootOf)];
            var written := trie[addr := WithStorageRoot(now[addr], rootOf)];
            Rooting(objects, start, pending - {addr}, rootOf, after, if IsDirty(now[addr]) then written else trie)
  {
    RootedMore(objects, pending, rootOf, addr, now);
    RootedOne(objects, pending, rootOf, addr, RootedAccounts(objects, pending, rootOf));
    AddLater(start, RootedAccounts(objects, pending, rootOf), addr, WithStorageRoot(objects[addr], rootOf));
  }

  lemma AddLater(start: Accounts, more: Accounts, addr: Address, account: Account)
    ensures start + more[addr := account] == (start + more)[addr := account]
  {
  }

  lemma RootedMore(objects: Objects, pending: set<Address>, rootOf: map<Slot, Bytes> -> Hash, addr: Address,
                   now: Objects)
    requires addr in pending && addr in objects && now == Rooted(objects, pending, rootOf)
    ensures addr in now && now[addr] == objects[addr]
    ensures now[addr := RootedObject(objects[addr], rootOf)] == Rooted(objects, pending - {addr}, rootOf)
  {
  }

  lemma RootedOne(objects: Objects, pending: set<Address>, rootOf: map<Slot, Bytes> -> Hash, addr: Address,
                  before: Accounts)
    requires addr in pending && addr in objects && before == RootedAccounts(objects, pending, rootOf)
    ensures RootedAccounts(objects, pending - {addr}, rootOf)
            == if IsDirty(objects[addr]) then before[addr := WithStorageRoot(objects[addr], rootOf)] else before
  {
  }

  method CommitState(store: Store, rootOf: map<Slot, Bytes> -> Hash)
    modifies store`objects, store`trie
    ensures store.Value() == StateAfterCommit(old(store.Value()), rootOf)
  {
    ghost var objects, start := store.objects, store.trie;
    var pending := store.objects.Keys;
    assert start + RootedAccounts(objects, pending, rootOf) == start;
    while pending != {}
      invariant pending <= objects.Keys
      invariant Rooting(objects, start, pending, rootOf, store.objects, store.trie)
      decreases pending
    {
      var addr :| addr in pending;
      RootOne(objects, start, pending, rootOf, store.objects, store.trie, addr);
      var o := store.objects[addr];
      store.objects := store.objects[addr := RootedObject(o, rootOf)];
      if IsDirty(o) {
        store.trie := store.trie[addr := WithStorageRoot(o, rootOf)];
      }
      pending := pending - {addr};
    }
    assert RootedAccounts(objects, {}, rootOf)
      == map a | a in objects && IsDirty(objects[a]) :: WithStorageRoot(objects[a], rootOf);
  }

  // ---- The object ----

  /** A block of the chain can be found by its hash and by its height. */
  ghost predicate IsIndexed(b: Block, blocks: map<Hash, Block>, heights: map<uint64, Block>, hashOf: HeaderHash) {
    hashOf(b.header) in blocks && b.header.height in heights && heights[b.header.height] == b
  }

  ghost predicate Indexes(chain: seq<Block>, blocks: map<Hash, Block>, heights: map<uint64, Block>,
                          hashOf: HeaderHash)
  {
    && (forall i :: 0 <= i < |chain| ==> IsIndexed(chain[i], blocks, heights, hashOf))
    && forall h :: h in blocks ==> hashOf(blocks[h].header) == h
  }

  lemma IndexMore(chain: seq<Block>, b: Block, blocks: map<Hash, Block>, heights: map<uint64, Block>,
                  hashOf: HeaderHash)
    requires Indexes(chain, blocks, heights, hashOf) && Linked(chain + [b], hashOf)
    ensures Indexes(chain + [b], blocks[hashOf(b.header) := b], heights[b.header.height := b], hashOf)
  {
    var more := chain + [b];
    forall i | 0 <= i < |more|
      ensures IsIndexed(more[i], blocks[hashOf(b.header) := b], heights[b.header.height := b], hashOf)
    {
      if i < |chain| {
        HeightsDiffer(more, hashOf, i, |chain|);
        assert IsIndexed(chain[i], blocks, heights, hashOf);
      }
    }
  }

  /** Process and Commit on the state. */
  method RunBlock(store: Store, block: Executor.Block, p: Executor.Params, rootOf: map<Slot, Bytes> -> Hash)
    returns (r: Result<nat, Ledger.Error>)
    requires Valid(store.Value())
    modifies store
    ensures Valid(store.Value())
    ensures var s := Executor.Process(old(BookOf(store.Value())), block, p);
            match r
            case Ok(gas) =>
              && s.error == None && gas == Executor.TotalGas(s.receipts)
              && SameMoney(BookOf(store.Value()), s.book)
            case Err(e) => s.error == Some(e) && BookOf(store.Value()) == s.book
  {
    var done := ProcessBlock(store, block, p);
    if done.Err? {
      return Err(done.error);
    }
    CommitKeepsMoney(store.Value(), rootOf);
    CommitState(store, rootOf);
    return Ok(done.value.0);
  }

  /** InsertBlock on the state, below a given head: the error, or the block to store. */
  method ApplyBlock(store: Store, block: Block, parent: Block, p: Executor.Params, hashOf: HeaderHash,
                    rootOf: map<Slot, Bytes> -> Hash, stateRoot: Accounts -> Hash, ghost w: World)
    returns (error: Option<Error>, stored: Block, ghost v: World)
    requires Valid(store.Value()) && w.book == BookOf(store.Value())
    requires w.chain != [] && parent == w.chain[|w.chain| - 1] && Linked(w.chain, hashOf)
    modifies store
    ensures Valid(store.Value()) && v.book == BookOf(store.Value())
    ensures v.chain == (if error == None then w.chain + [stored] else w.chain) && Linked(v.chain, hashOf)
    ensures Inserted(w, block, v, Outcome(error, stored.header.stateRoot), p, hashOf)
  {
    error := ValidateBlock(block, parent, hashOf);
    stored, v := block, w;
    if error.None? {
      var r := RunBlock(store, Payload(block), p, rootOf);
      ghost var executed := w.executed + Executor.Executed(w.book, Payload(block), p);
      if r.Err? {
        error := Some(ExecutionFailed(r.error));
        v := World(w.chain, BookOf(store.Value()), executed);
      } else {
        stored := Sealed(block, stateRoot(store.trie), r.value);
        v := World(w.chain + [stored], BookOf(store.Value()), executed);
        AcceptedStep(w, block, v.book, stored.header.stateRoot, r.value, p, hashOf);
      }
    }
  }

  lemma AcceptedStep(w: World, block: Block, book: Book, root: Hash, gas: nat, p: Executor.Params, hashOf: HeaderHash)
    requires Refusal(w.chain, block, hashOf) == None && Linked(w.chain, hashOf)
    requires var s := Executor.Process(w.book, Payload(block), p);
             s.error == None && gas == Executor.TotalGas(s.receipts) && SameMoney(book, s.book)
    ensures var v := World(w.chain + [Sealed(block, root, gas)], book,
                     w.executed + Executor.Executed(w.book, Payload(block), p));
            Inserted(w, block, v, Outcome(None, root), p, hashOf) && Linked(v.chain, hashOf)
  {
    var v := World(w.chain + [Sealed(block, root, gas)], book,
                   w.executed + Executor.Executed(w.book, Payload(block), p));
    InsertedLinked(w, block, v, Outcome(None, root), p, hashOf);
  }

  class Blockchain {
    const params: Executor.Params
    const hashOf: HeaderHash
    const storageRoot: map<Slot, Bytes> -> Hash
    /** The root of the account trie.  That it is a function of the accounts is StateSessions.RootIsOfAccounts. */
    const stateRoot: Accounts -> Hash
    const store: Store
    var currentBlock: Option<Block>
    var blocks: map<Hash, Block>
    var heights: map<uint64, Block>
    ghost var chain: seq<Block>
    ghost var executed: seq<Executor.Tx>

    ghost function Now(): World
      reads this, store
    {
      World(chain, BookOf(store.Value()), executed)
    }

    ghost predicate Valid()
      reads this, store
    {
      StateDB.Valid(store.Value()) && Consistent()
    }

    /** Head, links and indexes agree. */
    ghost predicate Consistent()
      reads this
    {
      && currentBlock == (if chain == [] then None else Some(chain[|chain| - 1]))
      && Linked(chain, hashOf) && Indexes(chain, blocks, heights, hashOf)
    }

    constructor (p: Executor.Params, hash: HeaderHash, storageTrieRoot: map<Slot, Bytes> -> Hash,
                 accountTrieRoot: Accounts -> Hash)
      ensures Valid() && fresh(store) && Now() == World([], Book(map[], Pool(0, 0)), [])
      ensures params == p && hashOf == hash && storageRoot == storageTrieRoot && stateRoot == accountTrieRoot
    {
      params, hashOf, storageRoot, stateRoot := p, hash, storageTrieRoot, accountTrieRoot;
      store := new Store(map[]);
      currentBlock, blocks, heights, chain, executed := None, map[], map[], [], [];
    }

    /** InitGenesis; also what a failed one leaves behind. */
    method InitGenesis(g: Genesis) returns (error: Option<Ledger.Error>)
      requires Valid()
      modifies this, store
      ensures Valid() && executed == old(executed)
      ensures var e := Allocate(old(Now()).book, g.alloc);
              && error == e.error
              && if e.error.Some? then Now().book == e.book && chain == old(chain)
                 else
                   && SameMoney(Now().book, GenesisBook(old(Now()).book, g))
                   && chain == [GenesisBlock(g, stateRoot(store.trie))]
      ensures error == None ==> Founded(old(Now()).book, Now().book, g, chain, stateRoot(store.trie))
    {
      ghost var b := Now().book;
      error := GenesisState(store, g, storageRoot);
      if error.Some? {
        return;
      }
      var first := GenesisBlock(g, stateRoot(store.trie));
      blocks := blocks[hashOf(first.header) := first];
      heights := heights[g.height := first];
      currentBlock := Some(first);
      chain := [first];
      GenesisMeans(b, Now().book, g, chain, stateRoot(store.trie));
    }

    /** InsertBlock. */
    method InsertBlock(block: Block) returns (error: Option<Error>, ghost root: Hash)
      requires Valid()
      modifies this, store
      ensures Valid()
      ensures Inserted(old(Now()), block, Now(), Outcome(error, root), params, hashOf)
      ensures Inserts(old(Now()), block, Now(), Outcome(error, root), params, hashOf)
    {
      if currentBlock.None? {
        InsertMeans(Now(), block, Now(), Outcome(Some(NoParent), EMPTY_HASH), params, hashOf);
        return Some(NoParent), EMPTY_HASH;
      }
      var stored;
      ghost var after;
      error, stored, after :=
        ApplyBlock(store, block, currentBlock.value, params, hashOf, storageRoot, stateRoot, Now());
      root := stored.header.stateRoot;
      Record(error.None?, stored, after.executed);
      assert Now() == after;
      InsertMeans(old(Now()), block, Now(), Outcome(error, root), params, hashOf);
    }

    /** What InsertBlock records: an accepted block, and what has run. */
    method Record(accepted: bool, b: Block, ghost ran: seq<Executor.Tx>)
      requires Consistent() && (accepted ==> Linked(chain + [b], hashOf))
      modifies this
      ensures Consistent() && executed == ran
      ensures chain == if accepted then old(chain) + [b] else old(chain)
    {
      executed := ran;
      if accepted {
        Append(b);
      }
    }

    /** The end of InsertBlock: index the block and make it the head. */
    method Append(b: Block)
      requires Consistent() && Linked(chain + [b], hashOf)
      modifies this
      ensures Consistent() && chain == old(chain) + [b] && executed == old(executed)
    {
      IndexMore(chain, b, blocks, heights, hashOf);
      blocks := blocks[hashOf(b.header) := b];
      heights := heights[b.header.height := b];
      currentBlock := Some(b);
      chain := chain + [b];
    }

    /** GetBlockByHeight finds every block of the chain. */
    method GetBlockByHeight(height: uint64) returns (b: Option<Block>)
      requires Valid()
      ensures forall i :: 0 <= i < |chain| && chain[i].header.height == height ==> b == Some(chain[i])
    {
      b := if height in heights then Some(heights[height]) else None;
      forall i | 0 <= i < |chain| && chain[i].header.height == height ensures b == Some(chain[i]) {
        assert IsIndexed(chain[i], blocks, heights, hashOf);
      }
    }

    /** GetBlock: a block of that hash, if the chain has one. */
    method GetBlock(hash: Hash) returns (b: Option<Block>)
      requires Valid()
      ensures b.Some? ==> hashOf(b.value.header) == hash
      ensures forall i :: 0 <= i < |chain| && hashOf(chain[i].header) == hash ==> b.Some?
    {
      b := if hash in blocks then Some(blocks[hash]) else None;
      forall i | 0 <= i < |chain| && hashOf(chain[i].header) == hash ensures b.Some? {
        assert IsIndexed(chain[i], blocks, heights, hashOf);
      }
    }
  }

  /** What a genesis that succeeds leaves: balances, reserves, and a chain of one block. */
  ghost predicate Founded(b: Book, c: Book, g: Genesis, chain: seq<Block>, root: Hash) {
    && (forall x ::
          && AccountAt(c.view, x).apt == AccountAt(b.view, x).apt + AllocatedTo(g.alloc, x, APT)
          && AccountAt(c.view, x).npt == AccountAt(b.view, x).npt + AllocatedTo(g.alloc, x, NPT)
          && AccountAt(c.view, x).nonce == AccountAt(b.view, x).nonce)
    && c.pool == (if g.pool.apt == 0 && g.pool.npt == 0 then b.pool else g.pool)
    && |chain| == 1 && chain[0].txs == []
    && var h := chain[0].header;
       && h.height == g.height && h.timestamp == g.timestamp && h.gasLimit == g.gasLimit && h.gasUsed == 0
       && h.parentHash == EMPTY_HASH && h.proposer == ZERO_ADDRESS && h.stateRoot == root
  }

  lemma GenesisMeans(b: Book, c: Book, g: Genesis, chain: seq<Block>, root: Hash)
    requires Allocate(b, g.alloc).error.None? && SameMoney(c, GenesisBook(b, g)) && chain == [GenesisBlock(g, root)]
    ensures Founded(b, c, g, chain, root)
  {
    var d := Allocate(b, g.alloc).book;
    AllocateMeans(b, g.alloc);
    forall x
      ensures AccountAt(c.view, x).apt == AccountAt(b.view, x).apt + AllocatedTo(g.alloc, x, APT)
      ensures AccountAt(c.view, x).npt == AccountAt(b.view, x).npt + AllocatedTo(g.alloc, x, NPT)
      ensures AccountAt(c.view, x).nonce == AccountAt(b.view, x).nonce
    {
      assert AccountAt(GenesisBook(b, g).view, x) == AccountAt(d.view, x);
      assert Moved(AccountAt(b.view, x), AccountAt(d.view, x), AllocatedTo(g.alloc, x, APT),
                   AllocatedTo(g.alloc, x, NPT));
    }
  }

  function GenesisBlock(g: Genesis, root: Hash): Block {
    Block(Header(EMPTY_HASH, g.height, g.timestamp, root, ZERO_ADDRESS, g.gasLimit, 0, []), [])
  }

  lemma {:induction false} AllocateStops(b: Book, alloc: seq<Alloc>, i: nat)
    requires i <= |alloc| && Allocate(b, alloc[..i]).error.Some?
    ensures Allocate(b, alloc) == Allocate(b, alloc[..i])
    decreases |alloc|
  {
    if i == |alloc| {
      assert alloc[..i] == alloc;
    } else {
      var front := alloc[..|alloc| - 1];
      assert front[..i] == alloc[..i];
      AllocateStops(b, front, i);
    }
  }

  /** The allocation loop of InitGenesis. */
  method AllocateAll(store: Store, alloc: seq<Alloc>) returns (error: Option<Ledger.Error>)
    requires Valid(store.Value())
    modifies store
    ensures Valid(store.Value())
    ensures Executor.Effect(BookOf(store.Value()), error) == Allocate(old(BookOf(store.Value())), alloc)
  {
    ghost var start := BookOf(store.Value());
    for i := 0 to |alloc|
      invariant Valid(store.Value())
      invariant Executor.Effect(BookOf(store.Value()), None) == Allocate(start, alloc[..i])
    {
      var a := alloc[i];
      assert alloc[..i + 1][..i] == alloc[..i];
      error := MintToken(store, APT, a.addr, a.apt);
      if error.None? {
        error := MintToken(store, NPT, a.addr, a.npt);
      }
      assert Executor.Effect(BookOf(store.Value()), error) == Allocate(start, alloc[..i + 1]);
      if error.Some? {
        AllocateStops(start, alloc, i + 1);
        return;
      }
    }
    assert alloc[..|alloc|] == alloc;
    error := None;
  }

  /** The state part of InitGenesis: allocations, pool, commit. */
  method GenesisState(store: Store, g: Genesis, rootOf: map<Slot, Bytes> -> Hash) returns (error: Option<Ledger.Error>)
    requires Valid(store.Value())
    modifies store
    ensures Valid(store.Value())
    ensures var b := old(BookOf(store.Value()));
            && error == Allocate(b, g.alloc).error
            && if error.Some? then BookOf(store.Value()) == Allocate(b, g.alloc).book
               else SameMoney(BookOf(store.Value()), GenesisBook(b, g))
  {
    error := AllocateAll(store, g.alloc);
    if error.None? {
      FundPool(store, g.pool);
      CommitKeepsMoney(store.Value(), rootOf);
      CommitState(store, rootOf);
    }
  }

  /** The initial reserves, unless both are zero. */
  method FundPool(store: Store, pool: Pool)
    requires Valid(store.Value())
    modifies store
    ensures Valid(store.Value())
    ensures var b := old(BookOf(store.Value()));
            BookOf(store.Value()) == if pool == Pool(0, 0) then b else Book(Touch(b, AMM_POOL_ADDRESS).view, pool)
  {
    if pool.apt != 0 || pool.npt != 0 {
      TouchBook(store.Value(), AMM_POOL_ADDRESS);
      GetOrNewKeepsPast(store.Value(), AMM_POOL_ADDRESS);
      store.GetOrNewStateObject(AMM_POOL_ADDRESS);
      SavePool(store, pool);
    }
  }
}
