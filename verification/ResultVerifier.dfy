/**
 * Optimistic verification of task results (pkg/task/verifier.go): a result is
 * submitted, may be challenged until its window ends, and is finalised by
 * height.
 */
module ResultVerifier {
  import opened Wrappers
  import opened Nibbles
  import StateDB
  import TaskDag

  const UINT64: nat := 0x1_0000_0000_0000_0000

  type TaskId = TaskDag.Id
  type Address = StateDB.Address

  datatype Status = Pending | Challenged | Accepted | Rejected

  datatype Entry =
    Entry(resultHash: Bytes, miner: Address, submittedAt: nat, ends: nat, status: Status, challengers: seq<Address>)

  datatype Error = AlreadySubmitted | NoResult | WindowClosed | UnderChallenge | NotUnderChallenge

  type States = map<TaskId, Entry>
  type Index = map<nat, seq<TaskId>>

  /** What the verifier holds: the states, and the tasks by the end of their window. */
  datatype Book = Book(states: States, byHeight: Index)

  function WindowEnd(height: nat, period: nat): nat {
    (height + period) % UINT64
  }

  // ---- The operations as functions ----

  function Listed(index: Index, height: nat): seq<TaskId> {
    if height in index then index[height] else []
  }

  function Submit(b: Book, id: TaskId, hash: Bytes, miner: Address, height: nat, period: nat): Book {
    if id in b.states then b
    else
      var ends := WindowEnd(height, period);
      Book(b.states[id := Entry(hash, miner, height, ends, Pending, [])],
          b.byHeight[ends := Listed(b.byHeight, ends) + [id]])
  }

  function Open(b: Book, id: TaskId, challenger: Address, height: nat): Book {
    if id !in b.states || height > b.states[id].ends || b.states[id].status.Challenged? then b
    else
      var e := b.states[id];
      b.(states := b.states[id := e.(status := Challenged, challengers := e.challengers + [challenger])])
  }

  function Resolve(b: Book, id: TaskId, valid: bool): Book {
    if id !in b.states || !b.states[id].status.Challenged? then b
    else b.(states := b.states[id := b.states[id].(status := if valid then Accepted else Rejected)])
  }

  /** The tasks indexed at or below a height. */
  ghost function Due(index: Index, height: nat): set<TaskId> {
    ListedAt(index, set h | h in index && h <= height)
  }

  ghost function ListedAt(index: Index, heights: set<nat>): set<TaskId> {
    set h, id | h in heights && id in Listed(index, h) :: id
  }

  /** Accepts those of the given tasks that are still pending. */
  ghost function Accept(s: States, ids: set<TaskId>): States {
    map id | id in s :: if id in ids && s[id].status.Pending? then s[id].(status := Accepted) else s[id]
  }

  /** The tasks a finalisation returns. */
  ghost function Finalised(b: Book, height: nat): set<TaskId> {
    set id | id in b.states && b.states[id].status.Pending? && id in Due(b.byHeight, height)
  }

  ghost function Finalise(b: Book, height: nat): Book {
    Book(Accept(b.states, Due(b.byHeight, height)), map h | h in b.byHeight && h > height :: b.byHeight[h])
  }

  // ---- What each operation does ----

  /** Everything but this result is as it was. */
  ghost predicate Same(b: Book, c: Book, id: TaskId) {
    c.byHeight == b.byHeight && c.states.Keys == b.states.Keys
    && forall x :: x in b.states && x != id ==> c.states[x] == b.states[x]
  }

  /** A result is pending until height plus period modulo 2^64 and listed there last; a second one is not recorded. */
  ghost predicate Submitted(b: Book, c: Book, id: TaskId, hash: Bytes, miner: Address, height: nat, period: nat) {
    if id in b.states then c == b
    else
      var ends := (height + period) % 0x1_0000_0000_0000_0000;
      && c.states == b.states[id := Entry(hash, miner, height, ends, Pending, [])]
      && ends in c.byHeight && c.byHeight - {ends} == b.byHeight - {ends}
      && c.byHeight[ends] == (if ends in b.byHeight then b.byHeight[ends] else []) + [id]
  }

  /** Up to the end of its window, a result that is not challenged becomes so, and the challenger is listed last. */
  ghost predicate Opened(b: Book, c: Book, id: TaskId, challenger: Address, height: nat) {
    if id in b.states && height <= b.states[id].ends && b.states[id].status != Challenged then
      var e := b.states[id];
      && Same(b, c, id)
      && c.states[id] == Entry(e.resultHash, e.miner, e.submittedAt, e.ends, Challenged, e.challengers + [challenger])
    else c == b
  }

  /** A challenged result resolved as valid is accepted, as invalid rejected; nothing else changes. */
  ghost predicate Resolved(b: Book, c: Book, id: TaskId, valid: bool) {
    if id in b.states && b.states[id].status == Challenged then
      var e := b.states[id];
      && Same(b, c, id) && c.states[id].status == (if valid then Accepted else Rejected)
      && c.states[id] == Entry(e.resultHash, e.miner, e.submittedAt, e.ends, c.states[id].status, e.challengers)
    else c == b
  }

  lemma SubmitMeans(b: Book, id: TaskId, hash: Bytes, miner: Address, height: nat, period: nat)
    ensures Submitted(b, Submit(b, id, hash, miner, height, period), id, hash, miner, height, period)
  {
    var c := Submit(b, id, hash, miner, height, period);
    if id !in b.states {
      var ends := WindowEnd(height, period);
      assert c.byHeight - {ends} == b.byHeight - {ends};
    }
  }

  lemma OpenMeans(b: Book, id: TaskId, challenger: Address, height: nat)
    ensures Opened(b, Open(b, id, challenger, height), id, challenger, height)
  {
  }

  lemma ResolveMeans(b: Book, id: TaskId, valid: bool)
    ensures Resolved(b, Resolve(b, id, valid), id, valid)
  {
  }

  // ---- Runs ----

  datatype Step =
    | DoSubmit(id: TaskId, hash: Bytes, miner: Address, height: nat)
    | DoChallenge(id: TaskId, challenger: Address, height: nat)
    | DoResolve(id: TaskId, valid: bool)
    | DoFinalise(height: nat)

  ghost function Apply(b: Book, step: Step, period: nat): Book {
    match step
    case DoSubmit(id, hash, miner, height) => Submit(b, id, hash, miner, height, period)
    case DoChallenge(id, challenger, height) => Open(b, id, challenger, height)
    case DoResolve(id, valid) => Resolve(b, id, valid)
    case DoFinalise(height) => Finalise(b, height)
  }

  ghost function Run(b: Book, steps: seq<Step>, period: nat): Book
    decreases |steps|
  {
    if steps == [] then b else Run(Apply(b, steps[0], period), steps[1..], period)
  }

  /** Everything returned by the finalisations of a run, with repetitions. */
  ghost function Returned(b: Book, steps: seq<Step>, period: nat): multiset<TaskId>
    decreases |steps|
  {
    if steps == [] then multiset{}
    else
      var rest := Returned(Apply(b, steps[0], period), steps[1..], period);
      if steps[0].DoFinalise? then multiset(Finalised(b, steps[0].height)) + rest else rest
  }

  ghost predicate IndexedAt(b: Book, id: TaskId, h: nat) {
    id in Listed(b.byHeight, h)
  }

  /** Every pending result is indexed at the end of its window, and the index tells the truth. */
  ghost predicate Consistent(b: Book) {
    && (forall id :: id in b.states && b.states[id].status.Pending? ==> IndexedAt(b, id, b.states[id].ends))
    && forall h, id :: IndexedAt(b, id, h) ==> id in b.states && b.states[id].ends == h
  }

  lemma InDue(b: Book, height: nat, id: TaskId)
    ensures id in Due(b.byHeight, height) <==> exists h: nat :: h <= height && IndexedAt(b, id, h)
  {
    if h: nat :| h <= height && IndexedAt(b, id, h) {
      assert h in b.byHeight;
      assert id in Listed(b.byHeight, h);
    }
    if id in Due(b.byHeight, height) {
      var h :| h in b.byHeight && h <= height && id in Listed(b.byHeight, h);
      assert IndexedAt(b, id, h);
    }
  }

  lemma StepConsistent(b: Book, step: Step, period: nat)
    requires Consistent(b)
    ensures Consistent(Apply(b, step, period))
  {
    var c := Apply(b, step, period);
    match step
    case DoSubmit(id, hash, miner, height) =>
      forall h, x
        ensures IndexedAt(c, x, h)
                <==> IndexedAt(b, x, h) || (x == id && id !in b.states && h == WindowEnd(height, period))
      {
      }
    case DoChallenge(id, challenger, height) =>
      forall h, x ensures IndexedAt(c, x, h) <==> IndexedAt(b, x, h) {
      }
    case DoResolve(id, valid) =>
      forall h, x ensures IndexedAt(c, x, h) <==> IndexedAt(b, x, h) {
      }
    case DoFinalise(height) =>
      FinaliseConsistent(b, height);
  }

  lemma FinaliseConsistent(b: Book, height: nat)
    requires Consistent(b)
    ensures Consistent(Finalise(b, height))
  {
    var c := Finalise(b, height);
    forall h: nat, x ensures IndexedAt(c, x, h) <==> h > height && IndexedAt(b, x, h) {
    }
    forall id | id in c.states && c.states[id].status.Pending?
      ensures IndexedAt(c, id, c.states[id].ends)
    {
      assert IndexedAt(b, id, b.states[id].ends);
      InDue(b, height, id);
    }
  }

  /** Over any run from an empty verifier. */
  lemma {:induction false} RunConsistent(b: Book, steps: seq<Step>, period: nat)
    requires Consistent(b)
    ensures Consistent(Run(b, steps, period))
    decreases |steps|
  {
    if steps != [] {
      StepConsistent(b, steps[0], period);
      RunConsistent(Apply(b, steps[0], period), steps[1..], period);
    }
  }

  /** After a finalisation at a height no result whose window ended by then is pending. */
  lemma NothingDuePending(steps: seq<Step>, period: nat, height: nat, id: TaskId)
    ensures var b := Finalise(Run(Book(map[], map[]), steps, period), height);
            id in b.states && b.states[id].status.Pending? ==> b.states[id].ends > height
  {
    var b := Run(Book(map[], map[]), steps, period);
    RunConsistent(Book(map[], map[]), steps, period);
    InDue(b, height, id);
  }

  /** A finalisation returns exactly the results pending with a window ended by its height. */
  lemma FinalisedMeans(b: Book, height: nat, id: TaskId)
    requires Consistent(b)
    ensures id in Finalised(b, height)
            <==> id in b.states && b.states[id].status.Pending? && b.states[id].ends <= height
  {
    InDue(b, height, id);
  }

  /** It accepts those, leaves every other result as it was, and drops the heights up to its own from the index. */
  lemma FinaliseMeans(b: Book, height: nat)
    requires Consistent(b)
    ensures var c := Finalise(b, height);
            && c.states.Keys == b.states.Keys
            && (forall id :: id in b.states ==>
                  var e := b.states[id];
                  c.states[id] ==
                  if e.status == Pending && e.ends <= height
                  then Entry(e.resultHash, e.miner, e.submittedAt, e.ends, Accepted, e.challengers) else e)
            && forall h: nat :: (h in c.byHeight <==> h in b.byHeight && h > height)
                                && (h in c.byHeight ==> c.byHeight[h] == b.byHeight[h])
  {
    var c := Finalise(b, height);
    forall id | id in b.states
      ensures var e := b.states[id];
              c.states[id] == if e.status == Pending && e.ends <= height then e.(status := Accepted) else e
    {
      FinalisedMeans(b, height, id);
    }
  }

  /** Nothing is returned twice, and nothing that was already settled or challenged is returned. */
  lemma {:induction false} ReturnedOnce(b: Book, steps: seq<Step>, period: nat, id: TaskId)
    ensures Returned(b, steps, period)[id] <= if id in b.states && !b.states[id].status.Pending? then 0 else 1
    decreases |steps|
  {
    if steps != [] {
      var c := Apply(b, steps[0], period);
      ReturnedOnce(c, steps[1..], period, id);
      if id in b.states && !b.states[id].status.Pending? {
        assert id in c.states && !c.states[id].status.Pending?;
      }
      if steps[0].DoFinalise? && id in Finalised(b, steps[0].height) {
        assert c.states[id].status == Accepted;
      }
    }
  }

  // ---- Verdicts ----

  lemma {:induction false} RunLast(b: Book, steps: seq<Step>, period: nat, last: Step)
    ensures Run(b, steps + [last], period) == Apply(Run(b, steps, period), last, period)
    decreases |steps|
  {
    var all := steps + [last];
    if steps == [] {
      assert all == [last] && all[1..] == [];
    } else {
      assert all[0] == steps[0] && all[1..] == steps[1..] + [last];
      RunLast(Apply(b, steps[0], period), steps[1..], period, last);
    }
  }

  lemma {:induction false} ReturnedLast(b: Book, steps: seq<Step>, period: nat, last: Step)
    ensures var c := Run(b, steps, period);
            Returned(b, steps + [last], period) == Returned(b, steps, period)
            + if last.DoFinalise? then multiset(Finalised(c, last.height)) else multiset{}
    decreases |steps|
  {
    var all := steps + [last];
    if steps == [] {
      assert all == [last] && all[1..] == [];
    } else {
      assert all[0] == steps[0] && all[1..] == steps[1..] + [last];
      ReturnedLast(Apply(b, steps[0], period), steps[1..], period, last);
    }
  }

  /** What the last resolution said that met this result challenged. */
  ghost function LastVerdict(b: Book, steps: seq<Step>, period: nat, id: TaskId): Option<bool>
    decreases |steps|
  {
    if steps == [] then None
    else
      var front, last := steps[..|steps| - 1], steps[|steps| - 1];
      var c := Run(b, front, period);
      if last.DoResolve? && last.id == id && id in c.states && c.states[id].status == Challenged then Some(last.valid)
      else LastVerdict(b, front, period, id)
  }

  /**
   * After any run from an empty verifier a settled result is rejected exactly when
   * the last resolution that met it challenged said invalid; one that no resolution
   * met was accepted by a finalisation, which returned it.
   */
  lemma {:induction false} VerdictDecides(steps: seq<Step>, period: nat, id: TaskId)
    ensures var c, v := Run(Book(map[], map[]), steps, period), LastVerdict(Book(map[], map[]), steps, period, id);
            && (Settled(c, id) ==> (c.states[id].status == Rejected <==> v == Some(false)))
            && (Settled(c, id) && v == None ==> id in Returned(Book(map[], map[]), steps, period))
            && (id !in c.states || c.states[id].status == Pending ==> v == None)
    decreases |steps|
  {
    var b := Book(map[], map[]);
    if steps != [] {
      var front, last := steps[..|steps| - 1], steps[|steps| - 1];
      assert steps == front + [last];
      VerdictDecides(front, period, id);
      RunLast(b, front, period, last);
      ReturnedLast(b, front, period, last);
      VerdictStep(Run(b, front, period), last, period, id);
    }
  }

  /** Only a resolution rejects, and it takes a challenge. */
  lemma VerdictStep(b: Book, step: Step, period: nat, id: TaskId)
    ensures var c := Apply(b, step, period);
            var said := step.DoResolve? && step.id == id && id in b.states && b.states[id].status == Challenged;
            && (id in b.states ==> id in c.states)
            && (said ==> c.states[id].status == if step.valid then Accepted else Rejected)
            && (id in c.states && !said ==>
                  || c.states[id].status == Challenged
                  || (id !in b.states && c.states[id].status == Pending)
                  || (id in b.states && c.states[id].status == b.states[id].status)
                  || (step.DoFinalise? && id in Finalised(b, step.height) && c.states[id].status == Accepted))
  {
  }

  // ---- Finality ----

  /** The heights a run mentions never go back, starting from a clock. */
  ghost predicate Forward(steps: seq<Step>, clock: nat) {
    steps == [] ||
    if steps[0].DoResolve? then Forward(steps[1..], clock)
    else steps[0].height >= clock && Forward(steps[1..], steps[0].height)
  }

  ghost predicate Settled(b: Book, id: TaskId) {
    id in b.states && (b.states[id].status.Accepted? || b.states[id].status.Rejected?)
  }

  /** Once the window has closed a settled result never changes. */
  lemma {:induction false} ClosedIsFinal(b: Book, steps: seq<Step>, period: nat, clock: nat, id: TaskId)
    requires Settled(b, id) && b.states[id].ends < clock && Forward(steps, clock)
    ensures id in Run(b, steps, period).states && Run(b, steps, period).states[id] == b.states[id]
    decreases |steps|
  {
    if steps != [] {
      var c := Apply(b, steps[0], period);
      assert id in c.states && c.states[id] == b.states[id];
      ClosedIsFinal(c, steps[1..], period, if steps[0].DoResolve? then clock else steps[0].height, id);
    }
  }

  /** Until then, even at its very last height, it can be turned over. */
  lemma OpenIsNot(b: Book, period: nat, clock: nat, id: TaskId, challenger: Address) returns (steps: seq<Step>)
    requires Settled(b, id) && clock <= b.states[id].ends
    ensures Forward(steps, clock)
    ensures var c := Run(b, steps, period);
            Settled(c, id) && c.states[id].status != b.states[id].status
  {
    var valid := b.states[id].status.Rejected?;
    steps := [DoChallenge(id, challenger, clock), DoResolve(id, valid)];
    var c := Open(b, id, challenger, clock);
    assert steps[1..] == [DoResolve(id, valid)] && steps[1..][1..] == [];
    assert Run(b, steps, period) == Run(c, steps[1..], period) == Resolve(c, id, valid);
  }

  /** A result that a finalisation has returned at the last height of its window, and what then turns it over. */
  lemma ReturnedThenRejected(period: nat, id: TaskId, hash: Bytes, miner: Address) returns (steps: seq<Step>)
    requires period < UINT64
    ensures var b := Finalise(Submit(Book(map[], map[]), id, hash, miner, 0, period), period);
            && Finalised(Submit(Book(map[], map[]), id, hash, miner, 0, period), period) == {id}
            && Forward(steps, period) && id in Run(b, steps, period).states
            && b.states[id].status == Accepted && Run(b, steps, period).states[id].status == Rejected
  {
    var a := Submit(Book(map[], map[]), id, hash, miner, 0, period);
    assert IndexedAt(a, id, period);
    InDue(a, period, id);
    steps := OpenIsNot(Finalise(a, period), period, period, id, miner);
  }

  /** A settled result is safe from every later step exactly when its window has closed. */
  lemma FinalIffClosed(b: Book, period: nat, clock: nat, id: TaskId, challenger: Address)
    requires Settled(b, id)
    ensures b.states[id].ends < clock <==>
            forall steps :: Forward(steps, clock) ==> KeepsVerdict(b, steps, period, id)
  {
    if b.states[id].ends < clock {
      forall steps | Forward(steps, clock) ensures KeepsVerdict(b, steps, period, id) {
        ClosedIsFinal(b, steps, period, clock, id);
      }
    } else {
      var steps := OpenIsNot(b, period, clock, id, challenger);
      assert !KeepsVerdict(b, steps, period, id);
    }
  }

  ghost predicate KeepsVerdict(b: Book, steps: seq<Step>, period: nat, id: TaskId)
    requires Settled(b, id)
  {
    var c := Run(b, steps, period);
    id in c.states && c.states[id].status == b.states[id].status
  }

  // ---- The loops of FinalizeResults ----

  /** Where FinalizeResults stands after seeing some of the listed tasks. */
  ghost predicate Accepting(was: States, now: States, finalized: seq<TaskId>, seen: set<TaskId>) {
    && now == Accept(was, seen)
    && forall id :: multiset(finalized)[id] == if id in seen && id in was && was[id].status.Pending? then 1 else 0
  }

  lemma AcceptOne(was: States, now: States, finalized: seq<TaskId>, seen: set<TaskId>, id: TaskId)
    requires Accepting(was, now, finalized, seen)
    ensures if id in now && now[id].status.Pending?
            then Accepting(was, now[id := now[id].(status := Accepted)], finalized + [id], seen + {id})
            else Accepting(was, now, finalized, seen + {id})
  {
    if id in now && now[id].status.Pending? {
      assert id !in seen;
      assert multiset(finalized + [id]) == multiset(finalized) + multiset{id};
      assert now[id := now[id].(status := Accepted)] == Accept(was, seen + {id});
    } else {
      assert id in was && was[id].status.Pending? ==> id in now && id in seen;
      assert now == Accept(was, seen + {id});
    }
  }

  ghost function UpTo(heights: set<nat>, height: nat): set<nat> {
    set h | h in heights && h <= height
  }

  lemma ListedMore(index: Index, done: set<nat>, limit: nat, height: nat)
    requires height in index && height <= limit
    ensures ListedAt(index, UpTo(done + {height}, limit))
            == ListedAt(index, UpTo(done, limit)) + TaskDag.Ids(index[height])
  {
    var before, after := UpTo(done, limit), UpTo(done + {height}, limit);
    assert after == before + {height};
    assert Listed(index, height) == index[height];
    forall id ensures id in ListedAt(index, after) <==> id in ListedAt(index, before) || id in index[height] {
      if id in ListedAt(index, before) {
        var h :| h in before && id in Listed(index, h);
        assert h in after;
      } else if id in index[height] {
        assert height in after;
      }
    }
  }

  lemma FinalisedAll(b: Book, now: States, finalized: seq<TaskId>, done: set<nat>, height: nat)
    requires done == b.byHeight.Keys && Accepting(b.states, now, finalized, ListedAt(b.byHeight, UpTo(done, height)))
    ensures now == Finalise(b, height).states && multiset(finalized) == multiset(Finalised(b, height))
  {
    assert UpTo(done, height) == set h | h in b.byHeight && h <= height;
    assert ListedAt(b.byHeight, UpTo(done, height)) == Due(b.byHeight, height);
  }

  // ---- The object ----

  class Verifier {
    const period: nat
    var states: States
    var byHeight: Index

    ghost function Contents(): Book
      reads this
    {
      Book(states, byHeight)
    }

    constructor (challengePeriod: nat)
      ensures period == challengePeriod && Contents() == Book(map[], map[])
    {
      period, states, byHeight := challengePeriod, map[], map[];
    }

    method SubmitResult(id: TaskId, hash: Bytes, miner: Address, currentHeight: nat) returns (error: Option<Error>)
      modifies this
      ensures Contents() == Submit(old(Contents()), id, hash, miner, currentHeight, period)
      ensures error == if id in old(states) then Some(AlreadySubmitted) else None
      ensures Submitted(old(Contents()), Contents(), id, hash, miner, currentHeight, period)
    {
      SubmitMeans(Contents(), id, hash, miner, currentHeight, period);
      if id in states {
        return Some(AlreadySubmitted);
      }
      var ends := (currentHeight + period) % UINT64;
      states := states[id := Entry(hash, miner, currentHeight, ends, Pending, [])];
      byHeight := byHeight[ends := (if ends in byHeight then byHeight[ends] else []) + [id]];
      return None;
    }

    method Challenge(id: TaskId, challenger: Address, currentHeight: nat) returns (error: Option<Error>)
      modifies this
      ensures Contents() == Open(old(Contents()), id, challenger, currentHeight)
      ensures error ==
              if id !in old(states) then Some(NoResult)
              else if currentHeight > old(states)[id].ends then Some(WindowClosed)
              else if old(states)[id].status.Challenged? then Some(UnderChallenge)
              else None
      ensures Opened(old(Contents()), Contents(), id, challenger, currentHeight)
    {
      OpenMeans(Contents(), id, challenger, currentHeight);
      if id !in states {
        return Some(NoResult);
      }
      var e := states[id];
      if currentHeight > e.ends {
        return Some(WindowClosed);
      }
      if e.status.Challenged? {
        return Some(UnderChallenge);
      }
      states := states[id := e.(status := Challenged, challengers := e.challengers + [challenger])];
      return None;
    }

    method ResolveChallenge(id: TaskId, resultValid: bool) returns (error: Option<Error>)
      modifies this
      ensures Contents() == Resolve(old(Contents()), id, resultValid)
      ensures error ==
              if id !in old(states) then Some(NoResult)
              else if !old(states)[id].status.Challenged? then Some(NotUnderChallenge)
              else None
      ensures Resolved(old(Contents()), Contents(), id, resultValid)
    {
      ResolveMeans(Contents(), id, resultValid);
      if id !in states {
        return Some(NoResult);
      }
      if !states[id].status.Challenged? {
        return Some(NotUnderChallenge);
      }
      states := states[id := states[id].(status := if resultValid then Accepted else Rejected)];
      return None;
    }

    /** FinalizeResults: the heights come in any order, the outcome does not depend on it. */
    method FinalizeResults(currentHeight: nat) returns (finalized: seq<TaskId>)
      modifies this
      ensures Contents() == Finalise(old(Contents()), currentHeight)
      ensures multiset(finalized) == multiset(Finalised(old(Contents()), currentHeight))
    {
      finalized := [];
      var pending := byHeight.Keys;
      ghost var done: set<nat> := {};
      while pending != {}
        invariant done + pending == old(byHeight).Keys && done !! pending
        invariant byHeight == map h | h in old(byHeight) && (h in pending || h > currentHeight) :: old(byHeight)[h]
        invariant Accepting(old(states), states, finalized, ListedAt(old(byHeight), UpTo(done, currentHeight)))
        decreases pending
      {
        var height :| height in pending;
        if height <= currentHeight {
          var ids := byHeight[height];
          finalized := FinalizeListed(ids, finalized, old(states), ListedAt(old(byHeight), UpTo(done, currentHeight)));
          ListedMore(old(byHeight), done, currentHeight, height);
          byHeight := byHeight - {height};
        } else {
          assert UpTo(done + {height}, currentHeight) == UpTo(done, currentHeight);
        }
        pending := pending - {height};
        done := done + {height};
      }
      FinalisedAll(old(Contents()), states, finalized, done, currentHeight);
    }

    /** The inner loop of FinalizeResults. */
    method FinalizeListed(ids: seq<TaskId>, finalized: seq<TaskId>, ghost was: States, ghost seen: set<TaskId>)
      returns (more: seq<TaskId>)
      requires Accepting(was, states, finalized, seen)
      modifies this`states
      ensures Accepting(was, states, more, seen + TaskDag.Ids(ids))
    {
      more := finalized;
      for i := 0 to |ids|
        invariant Accepting(was, states, more, seen + TaskDag.Ids(ids[..i]))
      {
        var id := ids[i];
        ghost var before := seen + TaskDag.Ids(ids[..i]);
        AcceptOne(was, states, more, before, id);
        assert ids[..i + 1] == ids[..i] + [id];
        assert seen + TaskDag.Ids(ids[..i + 1]) == before + {id};
        if id in states {
          if states[id].status.Pending? {
            states := states[id := states[id].(status := Accepted)];
            more := more + [id];
          }
        }
      }
      assert ids[..|ids|] == ids;
    }
  }
}
