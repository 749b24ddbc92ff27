/**
 * The journal as the source writes it: an amount is a pointer to a big.Int, the
 * balance operations change that integer in place, and the journal keeps the
 * same pointer (statedb.go:167-177, token.go:132-140, state_object.go:62-66).
 * So a journal entry does not remember the balance before its change.
 */
module SharedAmounts {
  import opened Wrappers
  import StateDB

  type Address = StateDB.Address

  /** Index of a big.Int cell. */
  type Cell = nat

  datatype Object = Object(apt: Cell, npt: Cell, nonce: nat)

  datatype Entry =
    | Created(addr: Address)
    | Balance(addr: Address, apt: Cell, npt: Cell)
    | Nonce(addr: Address, was: nat)

  datatype State = State(cells: seq<nat>, objects: map<Address, Object>, journal: seq<Entry>, revisions: seq<nat>)

  datatype Op =
    | Add(addr: Address, isAPT: bool, amount: nat)
    | Sub(addr: Address, isAPT: bool, amount: nat)
    | SetNonce(addr: Address, nonce: nat)
    | Snapshot
    | Revert(id: nat)

  // ---- The pointers ----

  /** A cell that an account holds. */
  ghost predicate Held(s: State, c: Cell) {
    exists a :: a in s.objects && (s.objects[a].apt == c || s.objects[a].npt == c)
  }

  ghost predicate Own(s: State, a: Address, b: Address)
    requires a in s.objects && b in s.objects
  {
    && s.objects[a].apt < |s.cells| && s.objects[a].npt < |s.cells|
    && s.objects[a].apt != s.objects[b].npt
    && (a != b ==> s.objects[a].apt != s.objects[b].apt && s.objects[a].npt != s.objects[b].npt)
  }

  /** Every account has two cells of its own, and the journal points to cells. */
  ghost predicate Valid(s: State) {
    && (forall a, b :: a in s.objects && b in s.objects ==> Own(s, a, b))
    && forall i ::
         0 <= i < |s.journal| && s.journal[i].Balance?
         ==> s.journal[i].apt < |s.cells| && s.journal[i].npt < |s.cells|
  }

  function GetOrNew(s: State, addr: Address): (t: State)
    ensures addr in t.objects
  {
    if addr in s.objects then s
    else State(s.cells + [0, 0], s.objects[addr := Object(|s.cells|, |s.cells| + 1, 0)],
               s.journal + [Created(addr)], s.revisions)
  }

  function Balances(s: State, addr: Address): (nat, nat)
    requires addr in s.objects && s.objects[addr].apt < |s.cells| && s.objects[addr].npt < |s.cells|
  {
    (s.cells[s.objects[addr].apt], s.cells[s.objects[addr].npt])
  }

  /** AddTo or SubTo on the cell itself, then a journal entry with the same two pointers. */
  function Pay(s: State, addr: Address, isAPT: bool, adds: bool, amount: nat): Option<State>
    requires addr in s.objects && s.objects[addr].apt < |s.cells| && s.objects[addr].npt < |s.cells|
  {
    var o := s.objects[addr];
    var cell := if isAPT then o.apt else o.npt;
    if !adds && s.cells[cell] < amount then None
    else
      var value := if adds then s.cells[cell] + amount else s.cells[cell] - amount;
      Some(State(s.cells[cell := value], s.objects, s.journal + [Balance(addr, o.apt, o.npt)], s.revisions))
  }

  /** revert of one entry: a balance entry installs fresh clones of the cells it points to. */
  function UndoEntry(s: State, e: Entry): State {
    if e.addr !in s.objects then s
    else
      var o := s.objects[e.addr];
      match e
      case Created(addr) => State(s.cells, s.objects - {addr}, s.journal, s.revisions)
      case Nonce(addr, was) => State(s.cells, s.objects[addr := Object(o.apt, o.npt, was)], s.journal, s.revisions)
      case Balance(addr, apt, npt) =>
        if apt < |s.cells| && npt < |s.cells| then
          State(s.cells + [s.cells[apt], s.cells[npt]],
                s.objects[addr := Object(|s.cells|, |s.cells| + 1, o.nonce)], s.journal, s.revisions)
        else s
  }

  /** The last entry undone and dropped. */
  function UndoLast(s: State): State
    requires s.journal != []
  {
    var n := |s.journal| - 1;
    var u := UndoEntry(s, s.journal[n]);
    State(u.cells, u.objects, s.journal[..n], u.revisions)
  }

  function UndoTo(s: State, idx: nat): State
    decreases |s.journal|
  {
    if |s.journal| <= idx then s else UndoTo(UndoLast(s), idx)
  }

  function Step(s: State, op: Op): Option<State>
    requires Valid(s)
  {
    match op
    case Snapshot => Some(s.(revisions := s.revisions + [|s.journal|]))
    case Revert(id) =>
      if id >= |s.revisions| then None
      else Some(UndoTo(s, s.revisions[id]).(revisions := s.revisions[..id]))
    case SetNonce(addr, nonce) =>
      var t := GetOrNew(s, addr);
      var o := t.objects[addr];
      Some(t.(objects := t.objects[addr := Object(o.apt, o.npt, nonce)], journal := t.journal + [Nonce(addr, o.nonce)]))
    case Add(addr, isAPT, amount) => NewIsOwn(s, addr); Pay(GetOrNew(s, addr), addr, isAPT, true, amount)
    case Sub(addr, isAPT, amount) => NewIsOwn(s, addr); Pay(GetOrNew(s, addr), addr, isAPT, false, amount)
  }

  lemma NewIsOwn(s: State, addr: Address)
    requires Valid(s)
    ensures Valid(GetOrNew(s, addr)) && Own(GetOrNew(s, addr), addr, addr)
  {
    var t := GetOrNew(s, addr);
    forall a, b | a in t.objects && b in t.objects ensures Own(t, a, b) {
      assert a in s.objects && b in s.objects ==> Own(s, a, b) && Own(s, b, a);
      assert a in s.objects ==> Own(s, a, a);
      assert b in s.objects ==> Own(s, b, b);
    }
  }

  lemma StepValid(s: State, op: Op)
    requires Valid(s)
    ensures Step(s, op).Some? ==> Valid(Step(s, op).value)
  {
    match op
    case Snapshot => KeepsOwn(s, s.(revisions := s.revisions + [|s.journal|]));
    case Revert(id) =>
      if id < |s.revisions| {
        UndoValid(s, s.revisions[id]);
        KeepsOwn(UndoTo(s, s.revisions[id]), Step(s, op).value);
      }
    case _ =>
      NewIsOwn(s, op.addr);
      if Step(s, op).Some? {
        KeepsOwn(GetOrNew(s, op.addr), Step(s, op).value);
      }
  }

  /** The same cells in the same hands. */
  lemma KeepsOwn(s: State, t: State)
    requires Valid(s) && |t.cells| == |s.cells| && t.objects.Keys == s.objects.Keys
    requires forall a :: a in s.objects ==> s.objects[a].apt == t.objects[a].apt && s.objects[a].npt == t.objects[a].npt
    requires forall i ::
               0 <= i < |t.journal| && t.journal[i].Balance?
               ==> t.journal[i].apt < |t.cells| && t.journal[i].npt < |t.cells|
    ensures Valid(t)
  {
    forall a, b | a in t.objects && b in t.objects ensures Own(t, a, b) {
      assert Own(s, a, b);
    }
  }

  lemma {:induction false} UndoValid(s: State, idx: nat)
    requires Valid(s)
    ensures Valid(UndoTo(s, idx))
    decreases |s.journal|
  {
    if |s.journal| > idx {
      var t := UndoLast(s);
      forall a, b | a in t.objects && b in t.objects ensures Own(t, a, b) {
        assert Own(s, a, b) && Own(s, a, a) && Own(s, b, b);
      }
      UndoValid(t, idx);
    }
  }

  // ---- What the journal remembers, as values ----

  /** A balance entry remembers nothing of its own time: only what its cells held when the account let go of them. */
  datatype Memo =
    Made(addr: Address) | Paid(addr: Address, kept: Option<(nat, nat)>) | Numbered(addr: Address, was: nat)

  datatype Holding = Holding(amounts: (nat, nat), nonce: nat)

  datatype Book = Book(accounts: map<Address, Holding>, memos: seq<Memo>, revisions: seq<nat>)

  /** An account lets go of its cells: entries that still share them keep these amounts. */
  function Freeze(memos: seq<Memo>, addr: Address, amounts: (nat, nat)): (r: seq<Memo>)
    ensures |r| == |memos|
    ensures forall i :: 0 <= i < |r| ==>
              r[i] == if memos[i] == Paid(addr, None) then Paid(addr, Some(amounts)) else memos[i]
  {
    if memos == [] then []
    else
      var n := |memos| - 1;
      Freeze(memos[..n], addr, amounts) + [if memos[n] == Paid(addr, None) then Paid(addr, Some(amounts)) else memos[n]]
  }

  function Forget(b: Book): Book
    requires b.memos != []
  {
    var n := |b.memos| - 1;
    var m, front := b.memos[n], b.memos[..n];
    if m.addr !in b.accounts then Book(b.accounts, front, b.revisions)
    else
      var h := b.accounts[m.addr];
      match m
      case Made(addr) => Book(b.accounts - {addr}, Freeze(front, addr, h.amounts), b.revisions)
      case Numbered(addr, was) => Book(b.accounts[addr := Holding(h.amounts, was)], front, b.revisions)
      case Paid(addr, kept) =>
        var amounts := if kept.Some? then kept.value else h.amounts;
        Book(b.accounts[addr := Holding(amounts, h.nonce)], Freeze(front, addr, h.amounts), b.revisions)
  }

  function ForgetTo(b: Book, idx: nat): Book
    decreases |b.memos|
  {
    if |b.memos| <= idx then b else ForgetTo(Forget(b), idx)
  }

  function Open(b: Book, addr: Address): (r: Book)
    ensures addr in r.accounts
  {
    if addr in b.accounts then b
    else Book(b.accounts[addr := Holding((0, 0), 0)], b.memos + [Made(addr)], b.revisions)
  }

  function PayIn(b: Book, addr: Address, isAPT: bool, adds: bool, amount: nat): Option<Book>
    requires addr in b.accounts
  {
    var (apt, npt) := b.accounts[addr].amounts;
    var have := if isAPT then apt else npt;
    if !adds && have < amount then None
    else
      var value := if adds then have + amount else have - amount;
      var amounts := if isAPT then (value, npt) else (apt, value);
      Some(Book(b.accounts[addr := Holding(amounts, b.accounts[addr].nonce)],
                b.memos + [Paid(addr, None)], b.revisions))
  }

  function Act(b: Book, op: Op): Option<Book> {
    match op
    case Snapshot => Some(b.(revisions := b.revisions + [|b.memos|]))
    case Revert(id) =>
      if id >= |b.revisions| then None
      else Some(ForgetTo(b, b.revisions[id]).(revisions := b.revisions[..id]))
    case SetNonce(addr, nonce) =>
      var c := Open(b, addr);
      Some(c.(accounts := c.accounts[addr := Holding(c.accounts[addr].amounts, nonce)],
              memos := c.memos + [Numbered(addr, c.accounts[addr].nonce)]))
    case Add(addr, isAPT, amount) => PayIn(Open(b, addr), addr, isAPT, true, amount)
    case Sub(addr, isAPT, amount) => PayIn(Open(b, addr), addr, isAPT, false, amount)
  }

  /** What an account holds; one that is not there holds nothing. */
  function HoldingOf(b: Book, addr: Address): Holding {
    if addr in b.accounts then b.accounts[addr] else Holding((0, 0), 0)
  }

  /** A credit or debit changes one amount of one account; a debit is refused exactly when that is too small. */
  lemma ActPays(b: Book, addr: Address, isAPT: bool, amount: nat)
    ensures var (apt, npt) := HoldingOf(b, addr).amounts;
            var more := Act(b, Add(addr, isAPT, amount));
            && more.Some? && more.value.revisions == b.revisions
            && more.value.accounts
               == b.accounts[addr := Holding(if isAPT then (apt + amount, npt) else (apt, npt + amount),
                                             HoldingOf(b, addr).nonce)]
    ensures var (apt, npt) := HoldingOf(b, addr).amounts;
            var less := Act(b, Sub(addr, isAPT, amount));
            && (less.Some? <==> (if isAPT then apt else npt) >= amount)
            && (less.Some? ==>
                  less.value.accounts
                  == b.accounts[addr := Holding(if isAPT then (apt - amount, npt) else (apt, npt - amount),
                                                HoldingOf(b, addr).nonce)])
  {
    var c := Open(b, addr);
    assert c.accounts == b.accounts[addr := HoldingOf(b, addr)];
  }

  /** Setting a nonce changes no amount; a snapshot changes no account. */
  lemma ActNumbers(b: Book, addr: Address, nonce: nat)
    ensures var c := Act(b, SetNonce(addr, nonce));
            c.Some? && c.value.accounts == b.accounts[addr := Holding(HoldingOf(b, addr).amounts, nonce)]
    ensures var c := Act(b, Snapshot); c.Some? && c.value.accounts == b.accounts && c.value.memos == b.memos
  {
    var c := Open(b, addr);
    assert c.accounts == b.accounts[addr := HoldingOf(b, addr)];
  }

  // ---- The pointers do what the values say ----

  /** An entry sharing an account's cells has not been frozen; one that does not, holds what it was frozen with. */
  ghost predicate Recalls(s: State, e: Entry, m: Memo) {
    match e
    case Created(addr) => m == Made(addr)
    case Nonce(addr, was) => m == Numbered(addr, was)
    case Balance(addr, apt, npt) =>
      && m.Paid? && m.addr == addr && apt < |s.cells| && npt < |s.cells|
      && if m.kept.None? then addr in s.objects && s.objects[addr].apt == apt && s.objects[addr].npt == npt
         else (s.cells[apt], s.cells[npt]) == m.kept.value && !Held(s, apt) && !Held(s, npt)
  }

  ghost predicate Agrees(s: State, b: Book, a: Address) {
    && (a in s.objects <==> a in b.accounts)
    && (a in s.objects ==>
          && s.objects[a].apt < |s.cells| && s.objects[a].npt < |s.cells|
          && b.accounts[a] == Holding(Balances(s, a), s.objects[a].nonce))
  }

  /** The state of the pointers and the book of values tell the same story. */
  ghost predicate Matches(s: State, b: Book) {
    && Valid(s) && s.revisions == b.revisions && |s.journal| == |b.memos|
    && (forall a :: Agrees(s, b, a))
    && forall i :: 0 <= i < |s.journal| ==> Recalls(s, s.journal[i], b.memos[i])
  }

  lemma OpenMatches(s: State, b: Book, addr: Address)
    requires Matches(s, b)
    ensures Matches(GetOrNew(s, addr), Open(b, addr))
  {
    NewIsOwn(s, addr);
    var t, c := GetOrNew(s, addr), Open(b, addr);
    assert Agrees(s, b, addr);
    forall a ensures Agrees(t, c, a) {
      assert Agrees(s, b, a);
    }
    forall i | 0 <= i < |t.journal| ensures Recalls(t, t.journal[i], c.memos[i]) {
      if i < |s.journal| {
        assert Recalls(s, s.journal[i], b.memos[i]);
        RecallsOpen(s, addr, s.journal[i], b.memos[i]);
      }
    }
  }

  lemma RecallsOpen(s: State, addr: Address, e: Entry, m: Memo)
    requires Valid(s) && Recalls(s, e, m)
    ensures Recalls(GetOrNew(s, addr), e, m)
  {
    NewIsOwn(s, addr);
    var t := GetOrNew(s, addr);
    forall c: Cell | c < |s.cells| && Held(t, c) ensures Held(s, c) {
      var a :| a in t.objects && (t.objects[a].apt == c || t.objects[a].npt == c);
      assert a in s.objects;
    }
  }

  lemma PayMatches(s: State, b: Book, addr: Address, isAPT: bool, adds: bool, amount: nat)
    requires Matches(s, b) && addr in s.objects && addr in b.accounts
    ensures Own(s, addr, addr)
    ensures var t, c := Pay(s, addr, isAPT, adds, amount), PayIn(b, addr, isAPT, adds, amount);
            if t.None? then c.None? else c.Some? && Matches(t.value, c.value)
  {
    assert Own(s, addr, addr) && Agrees(s, b, addr);
    var t, c := Pay(s, addr, isAPT, adds, amount), PayIn(b, addr, isAPT, adds, amount);
    if t.Some? {
      var cell := if isAPT then s.objects[addr].apt else s.objects[addr].npt;
      forall x, y | x in t.value.objects && y in t.value.objects ensures Own(t.value, x, y) {
        assert Own(s, x, y);
      }
      forall a ensures Agrees(t.value, c.value, a) {
        assert Agrees(s, b, a);
        if a in s.objects && a != addr {
          assert Own(s, a, addr) && Own(s, addr, a);
        }
      }
      assert Held(s, cell);
      forall i | 0 <= i < |t.value.journal| ensures Recalls(t.value, t.value.journal[i], c.value.memos[i]) {
        if i < |s.journal| {
          assert Recalls(s, s.journal[i], b.memos[i]);
          RecallsPaid(s, t.value, cell, s.journal[i], b.memos[i]);
        }
      }
    }
  }

  lemma RecallsPaid(s: State, t: State, cell: Cell, e: Entry, m: Memo)
    requires Recalls(s, e, m) && Held(s, cell) && cell < |s.cells|
    requires t.objects == s.objects && |t.cells| == |s.cells|
    requires forall c :: 0 <= c < |s.cells| && c != cell ==> t.cells[c] == s.cells[c]
    ensures Recalls(t, e, m)
  {
    forall c: Cell | Held(t, c) ensures Held(s, c) {
    }
  }

  lemma NonceMatches(s: State, b: Book, addr: Address, nonce: nat, e: seq<Entry>, m: seq<Memo>)
    requires Matches(s, b) && addr in s.objects && addr in b.accounts
    requires |e| == |m| <= 1 && forall i :: 0 <= i < |e| ==> Recalls(s, e[i], m[i]) && !e[i].Balance?
    ensures var o, h := s.objects[addr], b.accounts[addr];
            Matches(State(s.cells, s.objects[addr := Object(o.apt, o.npt, nonce)], s.journal + e, s.revisions),
                    Book(b.accounts[addr := Holding(h.amounts, nonce)], b.memos + m, b.revisions))
  {
    var o, h := s.objects[addr], b.accounts[addr];
    var t := State(s.cells, s.objects[addr := Object(o.apt, o.npt, nonce)], s.journal + e, s.revisions);
    var c := Book(b.accounts[addr := Holding(h.amounts, nonce)], b.memos + m, b.revisions);
    forall x, y | x in t.objects && y in t.objects ensures Own(t, x, y) {
      assert Own(s, x, y);
    }
    forall a ensures Agrees(t, c, a) {
      assert Agrees(s, b, a) && Agrees(s, b, addr);
    }
    forall x: Cell ensures Held(t, x) <==> Held(s, x) {
      SameHolders(s, t, x);
      SameHolders(t, s, x);
    }
    forall i | 0 <= i < |t.journal| ensures Recalls(t, t.journal[i], c.memos[i]) {
      if i < |s.journal| {
        assert Recalls(s, s.journal[i], b.memos[i]);
      } else {
        assert t.journal[i] == e[i - |s.journal|] && c.memos[i] == m[i - |s.journal|];
      }
    }
  }

  lemma SameHolders(s: State, t: State, x: Cell)
    requires s.objects.Keys == t.objects.Keys
    requires forall a :: a in s.objects ==> s.objects[a].apt == t.objects[a].apt && s.objects[a].npt == t.objects[a].npt
    ensures Held(s, x) ==> Held(t, x)
  {
  }

  // ---- Undoing ----

  /** An account lets go of its cells for two new ones, or altogether. */
  ghost predicate LetsGo(s: State, t: State, addr: Address) {
    && addr in s.objects && s.cells <= t.cells && t.revisions == s.revisions
    && s.objects.Keys - {addr} <= t.objects.Keys <= s.objects.Keys
    && (forall a :: a in t.objects && a != addr ==> t.objects[a] == s.objects[a])
    && (addr in t.objects ==> |s.cells| <= t.objects[addr].apt < t.objects[addr].npt < |t.cells|)
  }

  /** What stays in the journal then holds the amounts the account has let go of. */
  lemma RecallsFrozen(s: State, t: State, addr: Address, e: Entry, m: Memo)
    requires Valid(s) && LetsGo(s, t, addr) && Recalls(s, e, m) && Own(s, addr, addr)
    ensures Recalls(t, e, if m == Paid(addr, None) then Paid(addr, Some(Balances(s, addr))) else m)
  {
    if e.Balance? {
      forall c: Cell | c < |s.cells| && Held(t, c)
        ensures Held(s, c) && c != s.objects[addr].apt && c != s.objects[addr].npt
      {
        var a :| a in t.objects && (t.objects[a].apt == c || t.objects[a].npt == c);
        assert a in s.objects && Own(s, a, addr) && Own(s, addr, a);
      }
    }
  }

  lemma LetGoMatches(s: State, t: State, b: Book, c: Book, addr: Address)
    requires Matches(s, b) && s.journal != [] && LetsGo(s, t, addr)
    requires t.journal == s.journal[..|s.journal| - 1] && c.revisions == b.revisions && addr in b.accounts
    requires c.memos == Freeze(b.memos[..|b.memos| - 1], addr, b.accounts[addr].amounts)
    requires Agrees(t, c, addr)
    requires forall a ::
               a != addr
               ==> (a in c.accounts <==> a in b.accounts) && (a in c.accounts ==> c.accounts[a] == b.accounts[a])
    ensures Matches(t, c)
  {
    assert Agrees(s, b, addr) && Own(s, addr, addr);
    forall x, y | x in t.objects && y in t.objects ensures Own(t, x, y) {
      assert Own(s, x, y) && Own(s, y, x);
    }
    forall a ensures Agrees(t, c, a) {
      assert Agrees(s, b, a);
    }
    forall i | 0 <= i < |t.journal| ensures Recalls(t, t.journal[i], c.memos[i]) {
      assert t.journal[i] == s.journal[i] && b.memos[..|b.memos| - 1][i] == b.memos[i];
      RecallsFrozen(s, t, addr, s.journal[i], b.memos[i]);
    }
  }

  lemma DroppedMatches(s: State, b: Book)
    requires Matches(s, b) && s.journal != []
    ensures Matches(s.(journal := s.journal[..|s.journal| - 1]), b.(memos := b.memos[..|b.memos| - 1]))
  {
    var n := |s.journal| - 1;
    var t, c := s.(journal := s.journal[..n]), b.(memos := b.memos[..n]);
    forall x, y | x in t.objects && y in t.objects ensures Own(t, x, y) {
      assert Own(s, x, y);
    }
    forall a ensures Agrees(t, c, a) {
      assert Agrees(s, b, a);
    }
    forall x: Cell ensures Held(t, x) <==> Held(s, x) {
      SameHolders(s, t, x);
      SameHolders(t, s, x);
    }
    forall i | 0 <= i < |t.journal| ensures Recalls(t, t.journal[i], c.memos[i]) {
      assert Recalls(s, s.journal[i], b.memos[i]);
    }
  }

  lemma UndoMatches(s: State, b: Book)
    requires Matches(s, b) && s.journal != []
    ensures Matches(UndoLast(s), Forget(b))
  {
    var n := |s.journal| - 1;
    var e, m := s.journal[n], b.memos[n];
    assert Recalls(s, e, m) && Agrees(s, b, e.addr);
    DroppedMatches(s, b);
    if e.addr in s.objects {
      match e
      case Nonce(addr, was) =>
        NonceMatches(s.(journal := s.journal[..n]), b.(memos := b.memos[..n]), addr, was, [], []);
        assert s.journal[..n] + [] == s.journal[..n] && b.memos[..n] + [] == b.memos[..n];
      case _ => LetGoMatches(s, UndoLast(s), b, Forget(b), e.addr);
    }
  }

  lemma {:induction false} UndoToMatches(s: State, b: Book, idx: nat)
    requires Matches(s, b)
    ensures Matches(UndoTo(s, idx), ForgetTo(b, idx))
    decreases |s.journal|
  {
    if |s.journal| > idx {
      UndoMatches(s, b);
      UndoToMatches(UndoLast(s), Forget(b), idx);
    }
  }

  lemma RevisionsMatch(s: State, b: Book, revisions: seq<nat>)
    requires Matches(s, b)
    ensures Matches(s.(revisions := revisions), b.(revisions := revisions))
  {
    var t, c := s.(revisions := revisions), b.(revisions := revisions);
    forall x, y | x in t.objects && y in t.objects ensures Own(t, x, y) {
      assert Own(s, x, y);
    }
    forall a ensures Agrees(t, c, a) {
      assert Agrees(s, b, a);
    }
    forall x: Cell ensures Held(t, x) <==> Held(s, x) {
      SameHolders(s, t, x);
      SameHolders(t, s, x);
    }
    forall i | 0 <= i < |t.journal| ensures Recalls(t, t.journal[i], c.memos[i]) {
      assert Recalls(s, s.journal[i], b.memos[i]);
    }
  }

  /** One call, on pointers and on values. */
  lemma StepMatches(s: State, b: Book, op: Op)
    requires Matches(s, b)
    ensures if Step(s, op).None? then Act(b, op).None?
            else Act(b, op).Some? && Matches(Step(s, op).value, Act(b, op).value)
  {
    match op
    case Snapshot => RevisionsMatch(s, b, s.revisions + [|s.journal|]);
    case Revert(id) =>
      if id < |s.revisions| {
        UndoToMatches(s, b, s.revisions[id]);
        RevisionsMatch(UndoTo(s, s.revisions[id]), ForgetTo(b, s.revisions[id]), s.revisions[..id]);
      }
    case SetNonce(addr, nonce) =>
      OpenMatches(s, b, addr);
      var t, c := GetOrNew(s, addr), Open(b, addr);
      assert Agrees(t, c, addr);
      NonceMatches(t, c, addr, nonce, [Nonce(addr, t.objects[addr].nonce)], [Numbered(addr, c.accounts[addr].nonce)]);
    case Add(addr, isAPT, amount) =>
      OpenMatches(s, b, addr);
      PayMatches(GetOrNew(s, addr), Open(b, addr), addr, isAPT, true, amount);
    case Sub(addr, isAPT, amount) =>
      OpenMatches(s, b, addr);
      PayMatches(GetOrNew(s, addr), Open(b, addr), addr, isAPT, false, amount);
  }

  // ---- Runs ----

  ghost function Run(s: State, ops: seq<Op>): (r: Option<State>)
    requires Valid(s)
    ensures r.Some? ==> Valid(r.value)
    decreases |ops|
  {
    if ops == [] then Some(s)
    else
      var before := Run(s, ops[..|ops| - 1]);
      if before.None? then None
      else
        StepValid(before.value, ops[|ops| - 1]);
        Step(before.value, ops[|ops| - 1])
  }

  /** One more call at the start of a run. */
  lemma {:induction false} RunFirst(s: State, op: Op, ops: seq<Op>)
    requires Valid(s)
    ensures Step(s, op).Some? ==> Valid(Step(s, op).value)
    ensures Run(s, [op] + ops) == if Step(s, op).None? then None else Run(Step(s, op).value, ops)
    decreases |ops|
  {
    StepValid(s, op);
    var all := [op] + ops;
    if ops == [] {
      assert all == [op] && all[..0] == [];
      assert Run(s, []) == Some(s);
    } else {
      assert all[..|all| - 1] == [op] + ops[..|ops| - 1] && all[|all| - 1] == ops[|ops| - 1];
      RunFirst(s, op, ops[..|ops| - 1]);
    }
  }

  function Acts(b: Book, ops: seq<Op>): Option<Book> {
    if ops == [] then Some(b)
    else
      var before := Acts(b, ops[..|ops| - 1]);
      if before.None? then None else Act(before.value, ops[|ops| - 1])
  }

  /** Accounts with cells of their own and nothing in the journal. */
  ghost predicate Fresh(s: State) {
    Valid(s) && s.journal == [] && s.revisions == []
  }

  ghost function BookOf(s: State): Book
    requires Fresh(s)
  {
    assert forall a :: a in s.objects ==> Own(s, a, a);
    Book(map a | a in s.objects :: Holding(Balances(s, a), s.objects[a].nonce), [], [])
  }

  /** Over any run of credits, debits, nonces, snapshots and reverts the pointers do what the values say. */
  lemma {:induction false} RunMatches(s: State, ops: seq<Op>)
    requires Fresh(s)
    ensures if Run(s, ops).None? then Acts(BookOf(s), ops).None?
            else Acts(BookOf(s), ops).Some? && Matches(Run(s, ops).value, Acts(BookOf(s), ops).value)
  {
    if ops == [] {
      forall a ensures Agrees(s, BookOf(s), a) {
        assert a in s.objects ==> Own(s, a, a);
      }
    } else {
      var front := ops[..|ops| - 1];
      RunMatches(s, front);
      if Run(s, front).Some? {
        StepMatches(Run(s, front).value, Acts(BookOf(s), front).value, ops[|ops| - 1]);
      }
    }
  }

  // ---- What a revert gives ----

  /** What the first balance entry of an account holds: what it was frozen with, or what the account has now. */
  function Remembered(memos: seq<Memo>, addr: Address, now: (nat, nat)): (nat, nat) {
    if memos == [] then now
    else
      match memos[0]
      case Paid(a, kept) =>
        if a != addr then Remembered(memos[1..], addr, now) else if kept.Some? then kept.value else now
      case _ => Remembered(memos[1..], addr, now)
  }

  function Since(memos: seq<Memo>, idx: nat): seq<Memo> {
    if idx <= |memos| then memos[idx..] else []
  }

  ghost predicate NotMade(memos: seq<Memo>, addr: Address) {
    forall i :: 0 <= i < |memos| ==> memos[i] != Made(addr)
  }

  lemma RememberedHead(m: Memo, rest: seq<Memo>, memos: seq<Memo>, addr: Address, now: (nat, nat))
    requires memos != [] && memos[0] == m && memos[1..] == rest
    ensures Remembered(memos, addr, now)
         == if m.Paid? && m.addr == addr then (if m.kept.Some? then m.kept.value else now)
             else Remembered(rest, addr, now)
  {
  }

  /** Forgetting the last entry does not change what the first one holds. */
  lemma {:induction false} ForgetKeeps(front: seq<Memo>, m: Memo, addr: Address, now: (nat, nat), after: (nat, nat))
    requires m.Paid? && m.addr == addr && after == if m.kept.Some? then m.kept.value else now
    ensures Remembered(Freeze(front, addr, now), addr, after) == Remembered(front + [m], addr, now)
    decreases |front|
  {
    if front == [] {
      RememberedHead(m, [], front + [m], addr, now);
    } else {
      FreezeTail(front, addr, now);
      RememberedHead(front[0], front[1..] + [m], front + [m], addr, now);
      RememberedHead(Freeze(front, addr, now)[0], Freeze(front[1..], addr, now), Freeze(front, addr, now), addr, after);
      ForgetKeeps(front[1..], m, addr, now, after);
    }
  }

  lemma FreezeTail(memos: seq<Memo>, addr: Address, now: (nat, nat))
    requires memos != []
    ensures Freeze(memos, addr, now)[1..] == Freeze(memos[1..], addr, now)
  {
  }

  /** Other entries neither hold nor change anything of this account. */
  lemma {:induction false} OthersKeep(front: seq<Memo>, m: Memo, other: Address, addr: Address, amounts: (nat, nat),
                                      now: (nat, nat))
    requires !(m.Paid? && m.addr == addr) && other != addr
    ensures Remembered(front + [m], addr, now) == Remembered(front, addr, now)
    ensures Remembered(Freeze(front, other, amounts), addr, now) == Remembered(front, addr, now)
    decreases |front|
  {
    SkipLast(front, m, addr, now);
    if front != [] {
      FreezeTail(front, other, amounts);
      OthersKeep(front[1..], m, other, addr, amounts, now);
    }
  }

  /** Forgetting down to an index gives an account that was there what the first balance entry from there on holds. */
  lemma {:induction false} ForgetGives(b: Book, idx: nat, addr: Address)
    requires addr in b.accounts && NotMade(Since(b.memos, idx), addr)
    ensures addr in ForgetTo(b, idx).accounts
    ensures ForgetTo(b, idx).accounts[addr].amounts == Remembered(Since(b.memos, idx), addr, b.accounts[addr].amounts)
    decreases |b.memos|
  {
    if |b.memos| > idx {
      var n := |b.memos| - 1;
      var m, front := b.memos[n], b.memos[..n];
      assert Since(b.memos, idx) == front[idx..] + [m];
      assert Since(b.memos, idx)[n - idx] == m;
      ForgetOne(b, idx, addr, front, m);
      ForgetGives(Forget(b), idx, addr);
    }
  }

  lemma ForgetOne(b: Book, idx: nat, addr: Address, front: seq<Memo>, m: Memo)
    requires addr in b.accounts && NotMade(Since(b.memos, idx), addr) && b.memos == front + [m] && idx <= |front|
             && m != Made(addr)
    ensures addr in Forget(b).accounts && NotMade(Since(Forget(b).memos, idx), addr)
    ensures Remembered(Since(Forget(b).memos, idx), addr, Forget(b).accounts[addr].amounts)
         == Remembered(front[idx..] + [m], addr, b.accounts[addr].amounts)
  {
    assert b.memos[..|b.memos| - 1] == front;
    assert forall i :: idx <= i < |front| ==> front[i] == Since(b.memos, idx)[i - idx];
    if m.addr in b.accounts {
      FreezeSince(front, m.addr, b.accounts[m.addr].amounts, idx);
    }
    ForgetHolds(b, front[idx..], addr, m);
  }

  /** The three cases: an entry of this account, of another one, or none that matters. */
  lemma ForgetHolds(b: Book, since: seq<Memo>, addr: Address, m: Memo)
    requires addr in b.accounts && b.memos != [] && b.memos[|b.memos| - 1] == m && m != Made(addr)
    ensures var frozen :=
              if m.addr in b.accounts && !m.Numbered? then Freeze(since, m.addr, b.accounts[m.addr].amounts) else since;
            Remembered(frozen, addr, Forget(b).accounts[addr].amounts)
                == Remembered(since + [m], addr, b.accounts[addr].amounts)
  {
    var now := b.accounts[addr].amounts;
    if m.Paid? && m.addr == addr {
      ForgetKeeps(since, m, addr, now, if m.kept.Some? then m.kept.value else now);
    } else {
      SkipLast(since, m, addr, now);
      if m.addr != addr && m.addr in b.accounts {
        OthersKeep(since, m, m.addr, addr, b.accounts[m.addr].amounts, now);
      }
    }
  }

  lemma FreezeSince(memos: seq<Memo>, addr: Address, amounts: (nat, nat), idx: nat)
    requires idx <= |memos|
    ensures Freeze(memos, addr, amounts)[idx..] == Freeze(memos[idx..], addr, amounts)
  {
  }

  lemma {:induction false} SkipLast(front: seq<Memo>, m: Memo, addr: Address, now: (nat, nat))
    requires !(m.Paid? && m.addr == addr)
    ensures Remembered(front + [m], addr, now) == Remembered(front, addr, now)
    decreases |front|
  {
    if front == [] {
      RememberedHead(m, [], front + [m], addr, now);
    } else {
      RememberedHead(front[0], front[1..] + [m], front + [m], addr, now);
      SkipLast(front[1..], m, addr, now);
    }
  }

  /** A revert gives an account that was there at the snapshot what the first balance entry since then holds. */
  lemma RevertHolds(t: State, b: Book, id: nat, addr: Address, r: State)
    requires Matches(t, b) && Step(t, Revert(id)) == Some(r)
    requires addr in t.objects && NotMade(Since(b.memos, t.revisions[id]), addr)
    ensures addr in r.objects && Own(t, addr, addr) && Own(r, addr, addr)
    ensures Balances(r, addr) == Remembered(Since(b.memos, t.revisions[id]), addr, Balances(t, addr))
  {
    StepMatches(t, b, Revert(id));
    assert Agrees(t, b, addr);
    ForgetGives(b, b.revisions[id], addr);
    var c := Act(b, Revert(id)).value;
    assert Agrees(r, c, addr);
    assert Own(t, addr, addr) && Own(r, addr, addr);
  }

  /**
   * So after any run of credits, debits, nonces, snapshots and reverts: the
   * balances the account had when a revert first undid a balance change of it
   * past that entry, or else those it has now.  Never those from before the
   * change, unless they are the same.
   */
  lemma RevertGives(s: State, ops: seq<Op>, t: State, b: Book, id: nat, addr: Address, r: State)
    requires Fresh(s) && Run(s, ops) == Some(t) && Acts(BookOf(s), ops) == Some(b)
    requires Step(t, Revert(id)) == Some(r) && addr in t.objects && NotMade(Since(b.memos, t.revisions[id]), addr)
    ensures addr in r.objects && Own(t, addr, addr) && Own(r, addr, addr)
    ensures Balances(r, addr) == Remembered(Since(b.memos, t.revisions[id]), addr, Balances(t, addr))
  {
    RunMatches(s, ops);
    RevertHolds(t, b, id, addr, r);
  }

  // ---- Without and with inner reverts ----

  lemma {:induction false} ActsOn(b: Book, ops: seq<Op>, more: seq<Op>)
    ensures var c := Acts(b, ops);
            Acts(b, ops + more) == if c.None? then None else Acts(c.value, more)
    decreases |more|
  {
    if more == [] {
      assert ops + more == ops;
    } else {
      var n := |more| - 1;
      assert (ops + more)[..|ops + more| - 1] == ops + more[..n];
      ActsOn(b, ops, more[..n]);
    }
  }

  /** Balance entries that nothing has frozen. */
  ghost predicate Unfrozen(memos: seq<Memo>, addr: Address) {
    NotMade(memos, addr) && forall i :: 0 <= i < |memos| && memos[i].Paid? ==> memos[i].kept.None?
  }

  lemma {:induction false} UnfrozenHoldNow(memos: seq<Memo>, addr: Address, now: (nat, nat))
    requires Unfrozen(memos, addr)
    ensures Remembered(memos, addr, now) == now
  {
    if memos != [] {
      UnfrozenHoldNow(memos[1..], addr, now);
    }
  }

  /** Calls that are not reverts freeze nothing and create no account that is there. */
  ghost predicate Extends(b: Book, c: Book, addr: Address) {
    && addr in c.accounts && |b.memos| <= |c.memos| && Unfrozen(c.memos[|b.memos|..], addr)
       && b.revisions <= c.revisions
  }

  lemma ActExtends(b: Book, c: Book, op: Op, addr: Address)
    requires Extends(b, c, addr) && !op.Revert? && Act(c, op).Some?
    ensures Extends(b, Act(c, op).value, addr)
  {
    var d := Act(c, op).value;
    if !op.Snapshot? {
      MemosExtend(c.memos[|b.memos|..], d.memos[|c.memos|..], d.memos[|b.memos|..], addr);
    }
  }

  lemma MemosExtend(x: seq<Memo>, y: seq<Memo>, all: seq<Memo>, addr: Address)
    requires all == x + y && Unfrozen(x, addr) && Unfrozen(y, addr)
    ensures Unfrozen(all, addr)
  {
  }

  lemma {:induction false} ActsExtend(b: Book, ops: seq<Op>, addr: Address)
    requires (forall i :: 0 <= i < |ops| ==> !ops[i].Revert?) && addr in b.accounts && Acts(b, ops).Some?
    ensures Extends(b, Acts(b, ops).value, addr)
    decreases |ops|
  {
    if ops != [] {
      ActsExtend(b, ops[..|ops| - 1], addr);
      ActExtends(b, Acts(b, ops[..|ops| - 1]).value, ops[|ops| - 1], addr);
    }
  }

  lemma ActsMore(b: Book, ops: seq<Op>, c: Book, op: Op, d: Book, more: seq<Op>)
    requires Acts(b, ops) == Some(c) && Act(c, op) == Some(d) && more == ops + [op]
    ensures Acts(b, more) == Some(d)
  {
    assert more[..|more| - 1] == ops;
  }

  /**
   * Snapshot, any calls but reverts, revert: an account that was there keeps the
   * balances it had just before the revert, so rollback restores it exactly
   * when its balances had no net change.
   */
  lemma RevertKeepsBalances(s: State, before: seq<Op>, ops: seq<Op>, u: State, t: State, r: State, addr: Address)
    requires Fresh(s) && forall i :: 0 <= i < |ops| ==> !ops[i].Revert?
    requires Run(s, before) == Some(u) && addr in u.objects && Run(s, before + [Snapshot] + ops) == Some(t)
    requires Step(t, Revert(|u.revisions|)) == Some(r)
    ensures addr in t.objects && addr in r.objects && Own(u, addr, addr) && Own(t, addr, addr) && Own(r, addr, addr)
    ensures Balances(r, addr) == Balances(t, addr)
    ensures Balances(r, addr) == Balances(u, addr) <==> Balances(t, addr) == Balances(u, addr)
  {
    var c := SinceSnapshot(s, before, ops, u, addr);
    RunMatches(s, before + [Snapshot] + ops);
    KeepsNow(t, Acts(BookOf(s), before + [Snapshot] + ops).value, c, |u.revisions|, addr, r);
  }

  lemma SinceSnapshot(s: State, before: seq<Op>, ops: seq<Op>, u: State, addr: Address) returns (c: Book)
    requires Fresh(s) && forall i :: 0 <= i < |ops| ==> !ops[i].Revert?
    requires Run(s, before) == Some(u) && addr in u.objects && Run(s, before + [Snapshot] + ops).Some?
    ensures Own(u, addr, addr) && Acts(BookOf(s), before + [Snapshot] + ops).Some?
    ensures Extends(c, Acts(BookOf(s), before + [Snapshot] + ops).value, addr)
    ensures |c.revisions| == |u.revisions| + 1 && c.revisions[|u.revisions|] == |c.memos|
  {
    RunMatches(s, before);
    RunMatches(s, before + [Snapshot] + ops);
    var b := Acts(BookOf(s), before).value;
    c := b.(revisions := b.revisions + [|b.memos|]);
    ActsMore(BookOf(s), before, b, Snapshot, c, before + [Snapshot]);
    ActsOn(BookOf(s), before + [Snapshot], ops);
    assert Agrees(u, b, addr) && Own(u, addr, addr);
    ActsExtend(c, ops, addr);
  }

  lemma KeepsNow(t: State, d: Book, c: Book, id: nat, addr: Address, r: State)
    requires Matches(t, d) && Extends(c, d, addr) && Step(t, Revert(id)) == Some(r)
    requires id < |c.revisions| && c.revisions[id] == |c.memos|
    ensures addr in t.objects && addr in r.objects && Own(t, addr, addr) && Own(r, addr, addr)
    ensures Balances(r, addr) == Balances(t, addr)
  {
    assert Agrees(t, d, addr) && Own(t, addr, addr);
    assert d.revisions[id] == |c.memos|;
    UnfrozenHoldNow(Since(d.memos, |c.memos|), addr, Balances(t, addr));
    RevertHolds(t, d, id, addr, r);
  }

  // ---- Two instances ----

  /** An account with two cells. */
  function One(addr: Address, apt: nat): State {
    State([apt, 0], map[addr := Object(0, 1, 0)], [], [])
  }

  lemma OneIsFresh(addr: Address, apt: nat)
    ensures Fresh(One(addr, apt)) && BookOf(One(addr, apt)) == Book(map[addr := Holding((apt, 0), 0)], [], [])
  {
    assert Own(One(addr, apt), addr, addr);
  }

  /** What a run leaves an account with, read off the values. */
  lemma RunLeaves(s: State, ops: seq<Op>, b: Book, addr: Address)
    requires Fresh(s) && Acts(BookOf(s), ops) == Some(b) && addr in b.accounts
    ensures Run(s, ops).Some? && addr in Run(s, ops).value.objects && Own(Run(s, ops).value, addr, addr)
    ensures Balances(Run(s, ops).value, addr) == b.accounts[addr].amounts
  {
    RunMatches(s, ops);
    assert Agrees(Run(s, ops).value, b, addr) && Own(Run(s, ops).value, addr, addr);
  }

  lemma ForgetFirst(b: Book, m: Memo)
    requires b.memos == [m]
    ensures ForgetTo(b, 0) == Forget(b)
  {
    assert |Forget(b).memos| == 0;
  }

  /** One credit after a snapshot survives the revert. */
  lemma CreditSurvivesRevert(addr: Address, amount: nat)
    requires amount > 0
    ensures var s, ops := One(addr, 0), [Snapshot, Add(addr, true, amount), Revert(0)];
            && Fresh(s) && Run(s, ops).Some? && addr in Run(s, ops).value.objects && Own(Run(s, ops).value, addr, addr)
            && Balances(s, addr) == (0, 0) && Balances(Run(s, ops).value, addr) == (amount, 0)
  {
    var s := One(addr, 0);
    OneIsFresh(addr, 0);
    var b0 := BookOf(s);
    var b1 := Book(b0.accounts, [], [0]);
    var b2 := Book(map[addr := Holding((amount, 0), 0)], [Paid(addr, None)], [0]);
    var b3 := Book(b2.accounts, [], []);
    NextSnapshot(b0, b1);
    NextCredit(b1, b2, addr, 0, amount);
    assert Forget(b2).accounts == b2.accounts;
    ForgetFirst(b2, Paid(addr, None));
    ActsChain([b0, b1, b2, b3], [Snapshot, Add(addr, true, amount), Revert(0)]);
    RunLeaves(s, [Snapshot, Add(addr, true, amount), Revert(0)], b3, addr);
  }

  function Nested(addr: Address): seq<Op> {
    [Snapshot, Add(addr, true, 5), Snapshot, Add(addr, true, 3), Revert(1), Add(addr, true, 2), Revert(0)]
  }

  function Has(addr: Address, apt: nat): map<Address, Holding> {
    map[addr := Holding((apt, 0), 0)]
  }

  /** The books before, between and after some calls. */
  ghost predicate Leads(b: Book, op: Op, c: Book) {
    Act(b, op) == Some(c)
  }

  lemma {:induction false} ActsChain(bs: seq<Book>, ops: seq<Op>)
    requires |bs| == |ops| + 1 && forall i, j :: 0 <= i < |ops| && j == i + 1 ==> Leads(bs[i], ops[i], bs[j])
    ensures Acts(bs[0], ops) == Some(bs[|ops|])
    decreases |ops|
  {
    if ops != [] {
      var n := |ops| - 1;
      ActsChain(bs[..n + 1], ops[..n]);
      assert Leads(bs[n], ops[n], bs[n + 1]);
    }
  }

  /**
   * Snapshot, credit 5, inner snapshot, credit 3, revert the inner one, credit 2,
   * revert the outer one: 8 are left, which is neither what the account had at
   * the snapshot nor what it had last.
   */
  lemma OuterRevertGivesEight(addr: Address)
    ensures var s, ops := One(addr, 0), Nested(addr);
            && Fresh(s) && Run(s, ops).Some? && addr in Run(s, ops).value.objects && Own(Run(s, ops).value, addr, addr)
            && Balances(Run(s, ops).value, addr) == (8, 0)
  {
    OneIsFresh(addr, 0);
    var paid, kept := Paid(addr, None), Paid(addr, Some((8, 0)));
    var b0, b1, b2 := Book(Has(addr, 0), [], []), Book(Has(addr, 0), [], [0]), Book(Has(addr, 5), [paid], [0]);
    var b3, b4 := Book(Has(addr, 5), [paid], [0, 1]), Book(Has(addr, 8), [paid, paid], [0, 1]);
    var b5, b6 := Book(Has(addr, 8), [kept], [0]), Book(Has(addr, 10), [kept, paid], [0]);
    var b7 := Book(Has(addr, 8), [], []);
    NextSnapshot(b0, b1);
    NextCredit(b1, b2, addr, 0, 5);
    NextSnapshot(b2, b3);
    NextCredit(b3, b4, addr, 5, 3);
    InnerRevert(b4, b5, addr);
    NextCredit(b5, b6, addr, 8, 2);
    OuterRevert(b6, b7, addr);
    ActsChain([b0, b1, b2, b3, b4, b5, b6, b7], Nested(addr));
    RunLeaves(One(addr, 0), Nested(addr), b7, addr);
  }

  lemma NextSnapshot(b: Book, c: Book)
    requires c.accounts == b.accounts && c.memos == b.memos && c.revisions == b.revisions + [|b.memos|]
    ensures Leads(b, Snapshot, c)
  {
  }

  lemma NextCredit(b: Book, c: Book, addr: Address, have: nat, amount: nat)
    requires b.accounts == map[addr := Holding((have, 0), 0)]
             && c.accounts == map[addr := Holding((have + amount, 0), 0)]
    requires c.memos == b.memos + [Paid(addr, None)] && c.revisions == b.revisions
    ensures Leads(b, Add(addr, true, amount), c)
  {
    assert b.accounts[addr := Holding((have + amount, 0), 0)] == c.accounts;
  }

  lemma InnerRevert(b: Book, c: Book, addr: Address)
    requires b == Book(map[addr := Holding((8, 0), 0)], [Paid(addr, None), Paid(addr, None)], [0, 1])
    requires c == Book(b.accounts, [Paid(addr, Some((8, 0)))], [0])
    ensures Leads(b, Revert(1), c)
  {
    var d := Forget(b);
    assert d.accounts == b.accounts && d.memos == c.memos && b.revisions[..1] == [0];
    assert ForgetTo(b, 1) == ForgetTo(d, 1) == d;
  }

  lemma OuterRevert(b: Book, c: Book, addr: Address)
    requires b == Book(map[addr := Holding((10, 0), 0)], [Paid(addr, Some((8, 0))), Paid(addr, None)], [0])
    requires c == Book(map[addr := Holding((8, 0), 0)], [], [])
    ensures Leads(b, Revert(0), c)
  {
    var d := Forget(b);
    assert d.accounts == b.accounts && d.memos == [Paid(addr, Some((8, 0)))];
    var e := Forget(d);
    assert e.accounts == c.accounts && e.memos == [];
    assert ForgetTo(b, 0) == ForgetTo(d, 0) && ForgetTo(d, 0) == ForgetTo(e, 0) && ForgetTo(e, 0) == e;
  }
}
