/** Nested rollback: reverting to a snapshot restores what every account was (statedb.go:256-281). */
module StateRollback {
  import opened Wrappers
  import opened TrieNode
  import opened AccountCodec
  import opened StateDB

  // ---- Undoing, seen from the accounts ----

  function UndoAccount(m: Accounts, e: Entry): Accounts {
    if e.addr !in m then m
    else match e
      case Created(addr) => m - {addr}
      case Balance(addr, apt, npt) => m[addr := WithBalances(m[addr], apt, npt)]
      case Nonce(addr, nonce) => m[addr := WithNonce(m[addr], nonce)]
  }

  function UndoAccounts(m: Accounts, journal: seq<Entry>, idx: nat): (r: Accounts)
    ensures r.Keys <= m.Keys
    decreases |journal|
  {
    if |journal| <= idx then m
    else UndoAccounts(UndoAccount(m, journal[|journal| - 1]), journal[..|journal| - 1], idx)
  }

  lemma UndoEntryAccounts(objects: Objects, e: Entry)
    ensures AccountsOf(UndoEntry(objects, e)) == UndoAccount(AccountsOf(objects), e)
  {
  }

  lemma {:induction false} UndoToAccounts(objects: Objects, journal: seq<Entry>, idx: nat)
    ensures AccountsOf(UndoTo(objects, journal, idx)) == UndoAccounts(AccountsOf(objects), journal, idx)
    decreases |journal|
  {
    if |journal| > idx {
      var last := journal[|journal| - 1];
      UndoEntryAccounts(objects, last);
      UndoToAccounts(UndoEntry(objects, last), journal[..|journal| - 1], idx);
    }
  }

  /** Undoing in two stages is undoing in one. */
  lemma {:induction false} UndoInStages(m: Accounts, journal: seq<Entry>, mid: nat, idx: nat)
    requires idx <= mid <= |journal|
    ensures UndoAccounts(UndoAccounts(m, journal, mid), journal[..mid], idx) == UndoAccounts(m, journal, idx)
    decreases |journal|
  {
    if |journal| == mid {
      assert journal[..mid] == journal;
    } else {
      var front := journal[..|journal| - 1];
      UndoInStages(UndoAccount(m, journal[|journal| - 1]), front, mid, idx);
      assert front[..mid] == journal[..mid];
    }
  }

  /** An account that no entry mentions passes through unchanged. */
  lemma {:induction false} UndoUnmentioned(m: Accounts, journal: seq<Entry>, idx: nat, addr: Address, a: Account)
    requires forall i :: 0 <= i < |journal| ==> journal[i].addr != addr
    ensures UndoAccounts(m[addr := a], journal, idx) == UndoAccounts(m, journal, idx)[addr := a]
    decreases |journal|
  {
    if |journal| > idx {
      var last := journal[|journal| - 1];
      assert UndoAccount(m[addr := a], last) == UndoAccount(m, last)[addr := a];
      UndoUnmentioned(UndoAccount(m, last), journal[..|journal| - 1], idx, addr, a);
    }
  }

  // ---- The past as the journal records it ----

  /** The view the journal would restore at a given journal length. */
  ghost function Past(s: State, idx: nat): Accounts {
    s.trie + UndoAccounts(AccountsOf(s.objects), s.journal, idx)
  }

  /** A step that leaves the recorded past alone. */
  ghost predicate KeepsPast(s: State, t: State) {
    && t.trie == s.trie && t.revisions == s.revisions && t.nextRevision == s.nextRevision
    && |s.journal| <= |t.journal| && t.journal[..|s.journal|] == s.journal
    && forall idx :: 0 <= idx <= |s.journal| ==> Past(t, idx) == Past(s, idx)
  }

  lemma KeepsPastTrans(s: State, t: State, u: State)
    requires KeepsPast(s, t) && KeepsPast(t, u)
    ensures KeepsPast(s, u)
  {
    assert u.journal[..|s.journal|] == u.journal[..|t.journal|][..|s.journal|];
  }

  /** Entries that undo exactly what a step did leave the past alone. */
  lemma PushKeepsPast(s: State, t: State, e: Entry)
    requires t.trie == s.trie && t.revisions == s.revisions && t.nextRevision == s.nextRevision
    requires t.journal == s.journal + [e]
    requires UndoAccount(AccountsOf(t.objects), e) == AccountsOf(s.objects)
    ensures KeepsPast(s, t)
  {
    assert t.journal[..|s.journal|] == s.journal;
    forall idx | 0 <= idx <= |s.journal| ensures Past(t, idx) == Past(s, idx) {
      assert t.journal[|t.journal| - 1] == e && t.journal[..|t.journal| - 1] == s.journal;
    }
  }

  lemma FetchPast(trie: Accounts, m: Accounts, journal: seq<Entry>, idx: nat, addr: Address)
    requires addr !in m && addr in trie && forall i :: 0 <= i < |journal| ==> journal[i].addr != addr
    ensures trie + UndoAccounts(m[addr := trie[addr]], journal, idx) == trie + UndoAccounts(m, journal, idx)
  {
    UndoUnmentioned(m, journal, idx, addr, trie[addr]);
    assert addr !in UndoAccounts(m, journal, idx);
  }

  lemma FetchKeepsPast(s: State, addr: Address)
    requires Valid(s)
    ensures KeepsPast(s, Fetch(s, addr)) && Valid(Fetch(s, addr))
  {
    var t := Fetch(s, addr);
    if addr !in s.objects && addr in s.trie {
      assert AccountsOf(t.objects) == AccountsOf(s.objects)[addr := s.trie[addr]];
      forall idx | 0 <= idx <= |s.journal| ensures Past(t, idx) == Past(s, idx) {
        FetchPast(s.trie, AccountsOf(s.objects), s.journal, idx, addr);
      }
    }
    assert s.journal[..|s.journal|] == s.journal;
  }

  lemma GetOrNewKeepsPast(s: State, addr: Address)
    requires Valid(s)
    ensures KeepsPast(s, GetOrNew(s, addr)) && Valid(GetOrNew(s, addr))
  {
    var l, t := Fetch(s, addr), GetOrNew(s, addr);
    FetchKeepsPast(s, addr);
    if addr !in l.objects {
      assert AccountsOf(t.objects) - {addr} == AccountsOf(l.objects);
      PushKeepsPast(l, t, Created(addr));
      KeepsPastTrans(s, l, t);
    }
  }

  lemma ChangeKeepsPast(s: State, addr: Address, account: Account, e: Entry)
    requires Valid(s) && addr in s.objects && e.addr == addr && !e.Created?
    requires UndoAccount(AccountsOf(s.objects)[addr := account], e) == AccountsOf(s.objects)
    ensures KeepsPast(s, Change(s, addr, account, e)) && Valid(Change(s, addr, account, e))
  {
    var t := Change(s, addr, account, e);
    assert AccountsOf(t.objects) == AccountsOf(s.objects)[addr := account];
    PushKeepsPast(s, t, e);
  }

  lemma SetBalancesKeepsPast(s: State, addr: Address, apt: nat, npt: nat)
    requires Valid(s)
    ensures var t := SetBalances(GetOrNew(s, addr), addr, apt, npt); KeepsPast(s, t) && Valid(t)
  {
    var t := GetOrNew(s, addr);
    GetOrNewKeepsPast(s, addr);
    var a := t.objects[addr].account;
    var m: Accounts := AccountsOf(t.objects);
    assert m[addr := WithBalances(a, apt, npt)][addr := a] == m;
    ChangeKeepsPast(t, addr, WithBalances(a, apt, npt), Balance(addr, a.apt, a.npt));
    KeepsPastTrans(s, t, SetBalances(t, addr, apt, npt));
  }

  lemma SetNonceKeepsPast(s: State, addr: Address, nonce: uint64)
    requires Valid(s)
    ensures KeepsPast(s, SetNonce(s, addr, nonce)) && Valid(SetNonce(s, addr, nonce))
  {
    var t := GetOrNew(s, addr);
    GetOrNewKeepsPast(s, addr);
    var a := t.objects[addr].account;
    var m: Accounts := AccountsOf(t.objects);
    assert m[addr := WithNonce(a, nonce)][addr := a] == m;
    ChangeKeepsPast(t, addr, WithNonce(a, nonce), Nonce(addr, a.nonce));
    KeepsPastTrans(s, t, SetNonce(s, addr, nonce));
  }

  // ---- Reverting ----

  lemma {:induction false} UndoToJournaled(objects: Objects, journal: seq<Entry>, idx: nat)
    requires Journaled(objects, journal) && idx <= |journal|
    ensures Journaled(UndoTo(objects, journal, idx), journal[..idx])
    decreases |journal|
  {
    if |journal| > idx {
      var front := journal[..|journal| - 1];
      UndoToJournaled(UndoEntry(objects, journal[|journal| - 1]), front, idx);
      assert front[..idx] == journal[..idx];
    } else {
      assert journal[..idx] == journal;
    }
  }

  /** A revert restores the recorded view, journal and revision stack, and the deeper past stays. */
  lemma RevertRestores(s: State, id: nat)
    requires Valid(s) && id < |s.revisions|
    ensures Revert(s, id).Some?
    ensures var t := Revert(s, id).value;
            && Valid(t) && t.trie == s.trie
            && View(t) == Past(s, s.revisions[id])
            && t.journal == s.journal[..s.revisions[id]]
            && t.revisions == s.revisions[..id] && t.nextRevision == id
            && forall idx :: 0 <= idx <= s.revisions[id] ==> Past(t, idx) == Past(s, idx)
  {
    var mid := s.revisions[id];
    UndoToAccounts(s.objects, s.journal, mid);
    UndoToJournaled(s.objects, s.journal, mid);
    forall idx | 0 <= idx <= mid ensures Past(Revert(s, id).value, idx) == Past(s, idx) {
      UndoInStages(AccountsOf(s.objects), s.journal, mid, idx);
    }
  }

  // ---- Runs ----

  datatype Op =
    | Read(addr: Address)
    | Create(addr: Address)
    | OpAddAPT(addr: Address, amount: nat)
    | OpSubAPT(addr: Address, amount: nat)
    | OpAddNPT(addr: Address, amount: nat)
    | OpSubNPT(addr: Address, amount: nat)
    | OpSetNonce(addr: Address, nonce: uint64)
    | OpSnapshot
    | OpRevert(id: nat)

  /** One call; None is a panic. */
  function Step(s: State, op: Op): Option<State>
    requires Ordered(s)
  {
    match op
    case Read(addr) => Some(Fetch(s, addr))
    case Create(addr) => Some(GetOrNew(s, addr))
    case OpAddAPT(addr, amount) => Some(AddAPT(s, addr, amount))
    case OpSubAPT(addr, amount) => SubAPT(s, addr, amount)
    case OpAddNPT(addr, amount) => Some(AddNPT(s, addr, amount))
    case OpSubNPT(addr, amount) => SubNPT(s, addr, amount)
    case OpSetNonce(addr, nonce) => Some(SetNonce(s, addr, nonce))
    case OpSnapshot => Some(Snapshot(s))
    case OpRevert(id) => Revert(s, id)
  }

  /** One account, made if need be, holds so much more of either amount, and nothing else of any account changes. */
  ghost predicate Paid(before: Accounts, after: Accounts, addr: Address, apt: int, npt: int) {
    var was := AccountAt(before, addr);
    && after.Keys == before.Keys + {addr} && (forall a :: a in before && a != addr ==> after[a] == before[a])
    && after[addr].apt == was.apt + apt && after[addr].npt == was.npt + npt && after[addr].nonce == was.nonce
    && after[addr].codeHash == was.codeHash && after[addr].storageRoot == was.storageRoot
  }

  /** What a call does to the accounts a reader sees; a debit panics exactly when it is too large. */
  ghost predicate Does(s: State, op: Op, t: Option<State>) {
    var before, after := View(s), if t.Some? then View(t.value) else View(s);
    match op
    case Read(_) => t.Some? && after == before
    case Create(addr) => t.Some? && Paid(before, after, addr, 0, 0)
    case OpAddAPT(addr, amount) => t.Some? && Paid(before, after, addr, amount, 0)
    case OpAddNPT(addr, amount) => t.Some? && Paid(before, after, addr, 0, amount)
    case OpSubAPT(addr, amount) =>
      (t.Some? <==> AccountAt(before, addr).apt >= amount) && (t.Some? ==> Paid(before, after, addr, 0 - amount, 0))
    case OpSubNPT(addr, amount) =>
      (t.Some? <==> AccountAt(before, addr).npt >= amount) && (t.Some? ==> Paid(before, after, addr, 0, 0 - amount))
    case OpSetNonce(addr, nonce) =>
      t.Some? && addr in after && after[addr].nonce == nonce
      && Paid(before, after[addr := WithNonce(after[addr], AccountAt(before, addr).nonce)], addr, 0, 0)
    case OpSnapshot => t.Some? && after == before
    case OpRevert(id) => t.Some? <==> id < |s.revisions|
  }

  lemma BalancesPaid(before: Accounts, after: Accounts, addr: Address, apt: nat, npt: nat)
    requires after == before[addr := WithBalances(AccountAt(before, addr), apt, npt)]
    ensures Paid(before, after, addr, apt - AccountAt(before, addr).apt, npt - AccountAt(before, addr).npt)
  {
  }

  lemma AddMeans(s: State, op: Op)
    requires Ordered(s) && (op.OpAddAPT? || op.OpAddNPT?)
    ensures Does(s, op, Step(s, op))
  {
    var a := AccountAt(View(s), op.addr);
    if op.OpAddAPT? {
      AddAPTView(s, op.addr, op.amount);
      BalancesPaid(View(s), View(AddAPT(s, op.addr, op.amount)), op.addr, a.apt + op.amount, a.npt);
    } else {
      AddNPTView(s, op.addr, op.amount);
      BalancesPaid(View(s), View(AddNPT(s, op.addr, op.amount)), op.addr, a.apt, a.npt + op.amount);
    }
  }

  lemma SubMeans(s: State, op: Op)
    requires Ordered(s) && (op.OpSubAPT? || op.OpSubNPT?)
    ensures Does(s, op, Step(s, op))
  {
    var a := AccountAt(View(s), op.addr);
    if op.OpSubAPT? {
      SubAPTView(s, op.addr, op.amount);
      if a.apt >= op.amount {
        BalancesPaid(View(s), View(SubAPT(s, op.addr, op.amount).value), op.addr, a.apt - op.amount, a.npt);
      }
    } else {
      SubNPTView(s, op.addr, op.amount);
      if a.npt >= op.amount {
        BalancesPaid(View(s), View(SubNPT(s, op.addr, op.amount).value), op.addr, a.apt, a.npt - op.amount);
      }
    }
  }

  lemma NonceMeans(s: State, op: Op)
    requires Ordered(s) && op.OpSetNonce?
    ensures Does(s, op, Step(s, op))
  {
    SetNonceView(s, op.addr, op.nonce);
  }

  lemma StepMeans(s: State, op: Op)
    requires Ordered(s)
    ensures Does(s, op, Step(s, op))
  {
    if op.OpAddAPT? || op.OpAddNPT? {
      AddMeans(s, op);
    } else if op.OpSubAPT? || op.OpSubNPT? {
      SubMeans(s, op);
    } else if op.OpSetNonce? {
      NonceMeans(s, op);
    } else if op.Create? {
      GetOrNewView(s, op.addr);
    } else if op.Read? {
      FetchView(s, op.addr);
    }
  }

  /** What a call marks: loading and creating leave an object clean, changing it makes it dirty; storage stays. */
  lemma StepMarks(s: State, op: Op, a: Address)
    requires Ordered(s) && !op.OpSnapshot? && !op.OpRevert? && Step(s, op).Some?
    ensures var t := Step(s, op).value;
            && (a != op.addr ==>
                  (a in t.objects <==> a in s.objects) && (a in s.objects ==> t.objects[a] == s.objects[a]))
            && (op.addr in t.objects <==> !op.Read? || op.addr in s.objects || op.addr in s.trie)
            && (op.addr in t.objects ==>
                  var o := t.objects[op.addr];
                  && (op.Read? || op.Create? ==> (o.dirty <==> op.addr in s.objects && s.objects[op.addr].dirty))
                  && (!op.Read? && !op.Create? ==> o.dirty)
                  && o.storage == (if op.addr in s.objects then s.objects[op.addr].storage else map[]))
  {
  }

  /** An operation that comes down to setting both balances. */
  lemma BalancesSetKeepsPast(s: State, r: State, addr: Address, apt: nat, npt: nat)
    requires Valid(s) && r == SetBalances(GetOrNew(s, addr), addr, apt, npt)
    ensures KeepsPast(s, r) && Valid(r)
  {
    SetBalancesKeepsPast(s, addr, apt, npt);
  }

  lemma AddAPTKeepsPast(s: State, addr: Address, amount: nat)
    requires Valid(s)
    ensures KeepsPast(s, AddAPT(s, addr, amount)) && Valid(AddAPT(s, addr, amount))
  {
    var a := GetOrNew(s, addr).objects[addr].account;
    BalancesSetKeepsPast(s, AddAPT(s, addr, amount), addr, a.apt + amount, a.npt);
  }

  lemma AddNPTKeepsPast(s: State, addr: Address, amount: nat)
    requires Valid(s)
    ensures KeepsPast(s, AddNPT(s, addr, amount)) && Valid(AddNPT(s, addr, amount))
  {
    var a := GetOrNew(s, addr).objects[addr].account;
    BalancesSetKeepsPast(s, AddNPT(s, addr, amount), addr, a.apt, a.npt + amount);
  }

  lemma SubAPTKeepsPast(s: State, addr: Address, amount: nat)
    requires Valid(s) && SubAPT(s, addr, amount).Some?
    ensures KeepsPast(s, SubAPT(s, addr, amount).value) && Valid(SubAPT(s, addr, amount).value)
  {
    var a := GetOrNew(s, addr).objects[addr].account;
    BalancesSetKeepsPast(s, SubAPT(s, addr, amount).value, addr, a.apt - amount, a.npt);
  }

  lemma SubNPTKeepsPast(s: State, addr: Address, amount: nat)
    requires Valid(s) && SubNPT(s, addr, amount).Some?
    ensures KeepsPast(s, SubNPT(s, addr, amount).value) && Valid(SubNPT(s, addr, amount).value)
  {
    var a := GetOrNew(s, addr).objects[addr].account;
    BalancesSetKeepsPast(s, SubNPT(s, addr, amount).value, addr, a.apt, a.npt - amount);
  }

  /** A snapshot adds one entry to the revision stack and changes nothing else. */
  lemma SnapshotAdvances(s: State)
    requires Valid(s)
    ensures Advances(s, Snapshot(s))
  {
    assert s.journal[..|s.journal|] == s.journal;
    assert Snapshot(s).revisions[..|s.revisions|] == s.revisions;
  }

  /** A step that keeps the recorded past and the front of the revision stack. */
  ghost predicate Advances(s: State, t: State) {
    && Valid(t) && t.trie == s.trie
    && |s.journal| <= |t.journal| && t.journal[..|s.journal|] == s.journal
    && |s.revisions| <= |t.revisions| && t.revisions[..|s.revisions|] == s.revisions
    && forall idx :: 0 <= idx <= |s.journal| ==> Past(t, idx) == Past(s, idx)
  }

  lemma KeepsPastAdvances(s: State, t: State)
    requires KeepsPast(s, t) && Valid(t)
    ensures Advances(s, t)
  {
    assert s.revisions[..|s.revisions|] == s.revisions;
  }

  /** Every call but a revert keeps the recorded past and the revision stack's front. */
  lemma ForwardStep(s: State, op: Op)
    requires Valid(s) && !op.OpRevert? && Step(s, op).Some?
    ensures Advances(s, Step(s, op).value)
  {
    if op.OpSnapshot? {
      SnapshotAdvances(s);
    } else {
      match op
      case Read(addr) => FetchKeepsPast(s, addr);
      case Create(addr) => GetOrNewKeepsPast(s, addr);
      case OpAddAPT(addr, amount) => AddAPTKeepsPast(s, addr, amount);
      case OpSubAPT(addr, amount) => SubAPTKeepsPast(s, addr, amount);
      case OpAddNPT(addr, amount) => AddNPTKeepsPast(s, addr, amount);
      case OpSubNPT(addr, amount) => SubNPTKeepsPast(s, addr, amount);
      case OpSetNonce(addr, nonce) => SetNonceKeepsPast(s, addr, nonce);
      KeepsPastAdvances(s, Step(s, op).value);
    }
  }

  /** Every call keeps the store valid: the revision stack stays sorted and in step. */
  lemma StepValid(s: State, op: Op)
    requires Valid(s) && Step(s, op).Some?
    ensures Valid(Step(s, op).value)
  {
    if op.OpRevert? {
      RevertRestores(s, op.id);
    } else {
      ForwardStep(s, op);
    }
  }

  /** A run of calls; None once one has panicked. */
  ghost function Run(s: State, ops: seq<Op>): (r: Option<State>)
    requires Valid(s)
    ensures r.Some? ==> Valid(r.value)
    decreases |ops|
  {
    if ops == [] then Some(s)
    else
      var t := Step(s, ops[0]);
      if t.None? then None
      else
        StepValid(s, ops[0]);
        Run(t.value, ops[1..])
  }

  /** One more call at the end of a run. */
  lemma {:induction false} RunLast(s: State, ops: seq<Op>, op: Op)
    requires Valid(s)
    ensures var t := Run(s, ops);
            Run(s, ops + [op]) == if t.None? then None else Step(t.value, op)
    decreases |ops|
  {
    var all := ops + [op];
    if ops == [] {
      assert all == [op] && all[1..] == [];
      if Step(s, op).Some? {
        StepValid(s, op);
      }
    } else {
      assert all[0] == ops[0] && all[1..] == ops[1..] + [op];
      if Step(s, ops[0]).Some? {
        StepValid(s, ops[0]);
        RunLast(Step(s, ops[0]).value, ops[1..], op);
      }
    }
  }

  /** The snapshot with this id is still there and still records this view, journal and stack. */
  ghost predicate Holds(s: State, id: nat, origin: State) {
    && id < |s.revisions|
    && s.trie == origin.trie
    && s.revisions[id] == |origin.journal| <= |s.journal|
    && s.revisions[..id] == origin.revisions
    && s.journal[..|origin.journal|] == origin.journal
    && forall idx :: 0 <= idx <= |origin.journal| ==> Past(s, idx) == Past(origin, idx)
  }

  lemma HoldsStart(s: State)
    requires Valid(s)
    ensures Valid(Snapshot(s)) && Holds(Snapshot(s), s.nextRevision, s)
  {
    var snap := Snapshot(s);
    SnapshotAdvances(s);
    assert snap.revisions[..|s.revisions|] == s.revisions && snap.journal[..|s.journal|] == s.journal;
  }

  lemma HoldsStep(s: State, op: Op, id: nat, origin: State)
    requires Valid(s) && Holds(s, id, origin) && Step(s, op).Some?
    requires op.OpRevert? ==> op.id > id
    ensures Holds(Step(s, op).value, id, origin)
  {
    var t := Step(s, op).value;
    if op.OpRevert? {
      RevertRestores(s, op.id);
      assert s.revisions[id] <= s.revisions[op.id];
      assert t.revisions[..id] == s.revisions[..id];
      assert t.journal[..|origin.journal|] == s.journal[..|origin.journal|];
    } else {
      ForwardStep(s, op);
      assert t.revisions[..id] == t.revisions[..|s.revisions|][..id];
      assert t.revisions[id] == t.revisions[..|s.revisions|][id];
      assert t.journal[..|origin.journal|] == t.journal[..|s.journal|][..|origin.journal|];
    }
  }

  lemma {:induction false} HoldsRun(s: State, ops: seq<Op>, id: nat, origin: State)
    requires Valid(s) && Holds(s, id, origin) && Run(s, ops).Some?
    requires forall i :: 0 <= i < |ops| && ops[i].OpRevert? ==> ops[i].id > id
    ensures Holds(Run(s, ops).value, id, origin)
    decreases |ops|
  {
    if ops != [] {
      HoldsStep(s, ops[0], id, origin);
      StepValid(s, ops[0]);
      HoldsRun(Step(s, ops[0]).value, ops[1..], id, origin);
    }
  }

  /**
   * Snapshot, then any calls, including nested snapshots and reverts to them,
   * then revert to the first snapshot: every account exists as before with its
   * nonce and both balances, and journal and revision stack are back too.
   */
  lemma RollbackRestores(s: State, ops: seq<Op>)
    requires Valid(s)
    requires var snap := Snapshot(s); Valid(snap) ==> Run(snap, ops).Some?
    requires forall i :: 0 <= i < |ops| && ops[i].OpRevert? ==> ops[i].id > s.nextRevision
    ensures Valid(Snapshot(s))
    ensures var r := Revert(Run(Snapshot(s), ops).value, s.nextRevision);
            && r.Some?
            && View(r.value) == View(s)
            && r.value.journal == s.journal
            && r.value.revisions == s.revisions
            && r.value.nextRevision == s.nextRevision
  {
    var snap := Snapshot(s);
    HoldsStart(s);
    HoldsRun(snap, ops, s.nextRevision, s);
    var t := Run(snap, ops).value;
    RevertRestores(t, s.nextRevision);
    assert Past(s, |s.journal|) == View(s);
  }
}
