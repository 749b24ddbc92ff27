/**
 * The task pool (pkg/task/taskpool.go): a map by id, a heap by fee rate and a
 * list by deadline that must agree.  Clocks are left out.
 */
module TaskPool {
  import opened Wrappers
  import opened TaskHeap

  datatype Error = AlreadyPooled | FeeTooLow

  type Tasks = map<TaskId, Entry>

  // ---- The heap holds the map ----

  /** Every entry of the map once, and nothing else. */
  ghost predicate Holds(m: multiset<Entry>, tasks: Tasks) {
    forall e :: m[e] == if e.task.id in tasks && tasks[e.task.id] == e then 1 else 0
  }

  ghost predicate Keyed(tasks: Tasks) {
    forall id :: id in tasks ==> tasks[id].task.id == id && tasks[id].rate == Rate(tasks[id].task)
  }

  lemma HoldsMore(m: multiset<Entry>, tasks: Tasks, e: Entry)
    requires Holds(m, tasks) && e.task.id !in tasks
    ensures Holds(m + multiset{e}, tasks[e.task.id := e])
  {
  }

  lemma HoldsLess(m: multiset<Entry>, rest: multiset<Entry>, tasks: Tasks, e: Entry)
    requires Holds(m, tasks) && m == rest + multiset{e}
    ensures e.task.id in tasks && tasks[e.task.id] == e
    ensures Holds(rest, tasks - {e.task.id})
  {
    assert m[e] == rest[e] + 1;
    var left := tasks - {e.task.id};
    forall x ensures rest[x] == if x.task.id in left && left[x.task.id] == x then 1 else 0 {
      assert m[x] == rest[x] + if x == e then 1 else 0;
    }
  }

  /** The heap is as long as the map. */
  lemma {:induction false} SameSize(h: seq<Entry>, tasks: Tasks)
    requires Holds(multiset(h), tasks) && Keyed(tasks)
    ensures |h| == |tasks|
    decreases |h|
  {
    assert forall id :: id in tasks ==> multiset(h)[tasks[id]] == 1;
    if h == [] {
      assert tasks == map[];
    } else {
      var front, e := h[..|h| - 1], h[|h| - 1];
      assert h == front + [e];
      HoldsLess(multiset(h), multiset(front), tasks, e);
      SameSize(front, tasks - {e.task.id});
      assert (tasks - {e.task.id}).Keys == tasks.Keys - {e.task.id};
    }
  }

  // ---- The deadline list ----

  ghost predicate ByDeadline(list: seq<Entry>) {
    forall i, j :: 0 <= i < j < |list| ==> list[i].task.deadline <= list[j].task.deadline
  }

  /** Every pooled task with a deadline is listed. */
  ghost predicate Covers(list: seq<Entry>, tasks: Tasks) {
    forall id :: id in tasks && tasks[id].task.deadline > 0 ==> tasks[id] in list
  }

  predicate Late(e: Entry, height: nat) {
    e.task.deadline > 0 && height > e.task.deadline
  }

  function LateTasks(list: seq<Entry>, height: nat): seq<Task> {
    if list == [] then []
    else
      var e := list[|list| - 1];
      LateTasks(list[..|list| - 1], height) + if Late(e, height) then [e.task] else []
  }

  function Remaining(list: seq<Entry>, height: nat): seq<Entry> {
    if list == [] then []
    else
      var e := list[|list| - 1];
      Remaining(list[..|list| - 1], height) + if Late(e, height) then [] else [e]
  }

  ghost function LateIds(list: seq<Entry>, height: nat): set<TaskId> {
    set e | e in list && Late(e, height) :: e.task.id
  }

  /** An entry of this id is on the list whose deadline has passed. */
  ghost predicate ListedLate(list: seq<Entry>, height: nat, id: TaskId) {
    exists e :: e in list && e.task.id == id && 0 < e.task.deadline < height
  }

  /** The late tasks are those listed with a deadline that has passed. */
  lemma {:induction false} LateMeans(list: seq<Entry>, height: nat, t: Task)
    ensures t in LateTasks(list, height) <==> exists e :: e in list && e.task == t && 0 < t.deadline < height
  {
    if list != [] {
      var front, last := list[..|list| - 1], list[|list| - 1];
      LateMeans(front, height, t);
      assert forall e :: e in list <==> e in front || e == last;
    }
  }

  lemma {:induction false} RemainingMeans(list: seq<Entry>, height: nat, e: Entry)
    ensures e in Remaining(list, height) <==> e in list && !Late(e, height)
  {
    if list != [] {
      var front, last := list[..|list| - 1], list[|list| - 1];
      RemainingMeans(front, height, e);
      assert e in list <==> e in front || e == last;
    }
  }

  lemma {:induction false} RemainingSorted(list: seq<Entry>, height: nat)
    requires ByDeadline(list)
    ensures ByDeadline(Remaining(list, height))
  {
    if list != [] {
      var front, last := list[..|list| - 1], list[|list| - 1];
      RemainingSorted(front, height);
      forall e | e in Remaining(front, height) ensures e.task.deadline <= last.task.deadline {
        RemainingMeans(front, height, e);
        var k :| 0 <= k < |front| && front[k] == e;
        assert list[k] == e;
      }
    }
  }

  /** Where stale entries agree with the pooled task of their id, exactly the late tasks expire. */
  lemma ExpiryIsExact(list: seq<Entry>, tasks: Tasks, height: nat, id: TaskId)
    requires Covers(list, tasks) && Keyed(tasks) && id in tasks
    requires forall e :: e in list && e.task.id == id ==> e.task.deadline == tasks[id].task.deadline
    ensures id in LateIds(list, height) <==> Late(tasks[id], height)
  {
  }

  // ---- Picking the best ----

  ghost predicate DistinctIds(s: seq<Task>) {
    forall i, j :: 0 <= i < j < |s| ==> s[i].id != s[j].id
  }

  ghost function IdsOf(s: seq<Task>): set<TaskId> {
    set t | t in s :: t.id
  }

  ghost predicate Descending(s: seq<Task>) {
    forall i, j :: 0 <= i < j < |s| ==> Rate(s[i]) >= Rate(s[j])
  }

  /** The n best of the eligible pooled tasks, best first, and none left out beats one of them. */
  ghost predicate IsTop(tasks: Tasks, eligible: set<TaskId>, n: nat, result: seq<Task>) {
    && |result| == (if |eligible| < n then |eligible| else n)
    && DistinctIds(result) && Descending(result)
    && (forall t :: t in result ==> t.id in eligible && t.id in tasks && tasks[t.id].task == t)
    && forall t, id ::
         t in result && id in eligible && id in tasks && id !in IdsOf(result) ==> Rate(tasks[id].task) <= Rate(t)
  }

  /** Part of the pool has been taken out best first; the eligible ones form the result. */
  ghost predicate Picking(tasks: Tasks, eligible: set<TaskId>, left: Tasks, result: seq<Task>) {
    && left.Keys <= tasks.Keys && (forall id :: id in left ==> left[id] == tasks[id])
    && DistinctIds(result) && Descending(result)
    && (forall t :: t in result ==> t.id in eligible && t.id in tasks && t.id !in left && tasks[t.id].task == t)
    && (forall id :: id in tasks && id in eligible && id !in left ==> tasks[id].task in result)
    && forall t, id :: t in result && id in left ==> left[id].rate <= Rate(t)
  }

  lemma PickOne(tasks: Tasks, eligible: set<TaskId>, left: Tasks, result: seq<Task>, e: Entry)
    requires Keyed(tasks) && Picking(tasks, eligible, left, result)
    requires e.task.id in left && left[e.task.id] == e
    requires forall id :: id in left ==> left[id].rate <= e.rate
    ensures Picking(tasks, eligible, left - {e.task.id}, if e.task.id in eligible then result + [e.task] else result)
  {
    if e.task.id in eligible {
      var more := result + [e.task];
      forall i, j | 0 <= i < j < |more| ensures more[i].id != more[j].id && Rate(more[i]) >= Rate(more[j]) {
        if j == |result| {
          assert more[i] in result;
        }
      }
    }
  }

  lemma PickedTop(tasks: Tasks, eligible: set<TaskId>, left: Tasks, result: seq<Task>, n: nat)
    requires Keyed(tasks) && Picking(tasks, eligible, left, result) && eligible <= tasks.Keys
    requires |result| == n || (|result| <= n && left == map[])
    ensures IsTop(tasks, eligible, n, result)
  {
    IdsCount(result);
    assert IdsOf(result) <= eligible;
    if left == map[] {
      assert IdsOf(result) == eligible;
    } else {
      Subset(IdsOf(result), eligible);
    }
  }

  lemma {:induction false} IdsCount(s: seq<Task>)
    requires DistinctIds(s)
    ensures |IdsOf(s)| == |s|
  {
    if s != [] {
      var front, last := s[..|s| - 1], s[|s| - 1];
      IdsCount(front);
      assert s == front + [last];
      assert IdsOf(s) == IdsOf(front) + {last.id};
    }
  }

  lemma {:induction false} Subset(a: set<TaskId>, b: set<TaskId>)
    requires a <= b
    ensures |a| <= |b|
    decreases a
  {
    if a != {} {
      var x :| x in a;
      Subset(a - {x}, b - {x});
    }
  }

  // ---- Steps of the loops ----

  /** sort.Slice after an append; where equal deadlines end up is left open by the source. */
  method SortIn(list: seq<Entry>, e: Entry) returns (r: seq<Entry>)
    requires ByDeadline(list)
    ensures ByDeadline(r) && multiset(r) == multiset(list) + multiset{e}
  {
    var i: nat := |list|;
    while i > 0 && list[i - 1].task.deadline > e.task.deadline
      invariant i <= |list| && (i < |list| ==> list[i].task.deadline > e.task.deadline)
    {
      i := i - 1;
    }
    r := list[..i] + [e] + list[i..];
    assert list == list[..i] + list[i..];
    Inserted(list, i, e);
  }

  lemma Inserted(list: seq<Entry>, i: nat, e: Entry)
    requires ByDeadline(list) && i <= |list|
    requires i > 0 ==> list[i - 1].task.deadline <= e.task.deadline
    requires i < |list| ==> e.task.deadline <= list[i].task.deadline
    ensures ByDeadline(list[..i] + [e] + list[i..])
  {
    var r := list[..i] + [e] + list[i..];
    forall a, b | 0 <= a < b < |r| ensures r[a].task.deadline <= r[b].task.deadline {
      assert a < i ==> r[a] == list[a] && list[a].task.deadline <= list[i - 1].task.deadline;
      assert b > i ==> r[b] == list[b - 1] && list[i].task.deadline <= list[b - 1].task.deadline;
    }
  }

  method PushHeld(h: seq<Entry>, ghost tasks: Tasks, e: Entry) returns (r: seq<Entry>)
    requires IsHeap(h) && Holds(multiset(h), tasks) && e.task.id !in tasks
    ensures IsHeap(r) && Holds(multiset(r), tasks[e.task.id := e])
  {
    HoldsMore(multiset(h), tasks, e);
    r := Push(h, e);
  }

  lemma CoversMore(list: seq<Entry>, more: seq<Entry>, tasks: Tasks, e: Entry)
    requires Covers(list, tasks)
    requires multiset(more) == multiset(list) + multiset{e} || (more == list && e.task.deadline == 0)
    ensures Covers(more, tasks[e.task.id := e])
  {
    var after := tasks[e.task.id := e];
    forall id | id in after && after[id].task.deadline > 0 ensures after[id] in more {
      if multiset(more) == multiset(list) + multiset{e} {
        assert after[id] in multiset(list) + multiset{e};
        assert after[id] in multiset(more);
      }
    }
  }

  lemma NothingGone(tasks: Tasks)
    ensures tasks - {} == tasks && BestGone(tasks, {})
  {
  }

  /** trimToSizeLocked after some evictions. */
  ghost predicate Trimming(all: Tasks, evicted: set<TaskId>, kept: Tasks, h: seq<Entry>) {
    && BestGone(all, evicted) && kept == all - evicted
    && IsHeap(h) && Holds(multiset(h), kept) && |h| == |kept|
  }

  lemma TrimStart(tasks: Tasks, h: seq<Entry>)
    requires Keyed(tasks) && IsHeap(h) && Holds(multiset(h), tasks)
    ensures Trimming(tasks, {}, tasks, h)
  {
    SameSize(h, tasks);
    NothingGone(tasks);
  }

  lemma Trimmed(list: seq<Entry>, all: Tasks, evicted: set<TaskId>)
    requires Keyed(all) && Covers(list, all)
    ensures Keyed(all - evicted) && Covers(list, all - evicted)
  {
  }

  /** One eviction: heap.Pop, whose result the source calls the worst. */
  method PopEvicted(kept: Tasks, h: seq<Entry>, ghost all: Tasks, ghost evicted: set<TaskId>)
    returns (left: Tasks, rest: seq<Entry>, id: TaskId)
    requires Keyed(all) && Trimming(all, evicted, kept, h) && h != []
    ensures Trimming(all, evicted + {id}, left, rest)
    ensures |rest| == |h| - 1 && |left| == |kept| - 1
  {
    var worst;
    worst, rest := Pop(h);
    id := worst.task.id;
    left := kept - {id};
    EvictOne(all, evicted, h, rest, worst);
    SameSize(rest, left);
    assert |multiset(h)| == |h| && |multiset(rest)| == |rest|;
  }

  /** The loop of trimToSizeLocked, on the values of the two fields. */
  method PopUntil(tasks: Tasks, h: seq<Entry>, limit: int)
    returns (kept: Tasks, rest: seq<Entry>, ghost evicted: set<TaskId>)
    requires Keyed(tasks) && IsHeap(h) && Holds(multiset(h), tasks)
    ensures Trimming(tasks, evicted, kept, rest)
    ensures |kept| == Smaller(|tasks|, limit)
  {
    kept, rest, evicted := tasks, h, {};
    TrimStart(tasks, h);
    while |kept| > limit && |rest| > 0
      invariant Trimming(tasks, evicted, kept, rest)
      invariant |kept| <= |tasks| && (|kept| < |tasks| ==> |kept| >= limit)
      decreases |rest|
    {
      ghost var id;
      kept, rest, id := PopEvicted(kept, rest, tasks, evicted);
      evicted := evicted + {id};
    }
  }

  /** ExpireDeadlines after part of the list. */
  ghost predicate Expiring(all: Tasks, seen: seq<Entry>, height: nat, kept: Tasks, remaining: seq<Entry>,
                           expired: seq<Task>)
  {
    && kept == all - LateIds(seen, height)
    && remaining == Remaining(seen, height) && expired == LateTasks(seen, height)
  }

  lemma ExpireOne(all: Tasks, seen: seq<Entry>, e: Entry, height: nat, kept: Tasks, remaining: seq<Entry>,
                  expired: seq<Task>)
    requires Expiring(all, seen, height, kept, remaining, expired)
    ensures if Late(e, height) then Expiring(all, seen + [e], height, kept - {e.task.id}, remaining, expired + [e.task])
            else Expiring(all, seen + [e], height, kept, remaining + [e], expired)
  {
    var more := seen + [e];
    assert more[..|more| - 1] == seen;
    LateMore(seen, e, height);
    if Late(e, height) {
      assert all - LateIds(more, height) == kept - {e.task.id};
    }
  }

  // ---- The pool ----

  class Pool {
    const maxTasks: int
    var tasks: Tasks
    var prioritized: seq<Entry>
    var deadlineOrder: seq<Entry>
    var sequenceCounter: nat
    var minFeeRate: int

    /** Map, heap and list agree. */
    ghost predicate Valid()
      reads this
    {
      && Keyed(tasks)
      && IsHeap(prioritized) && Holds(multiset(prioritized), tasks)
      && ByDeadline(deadlineOrder) && Covers(deadlineOrder, tasks)
    }

    constructor (max: int)
      ensures Valid() && maxTasks == max && tasks == map[] && deadlineOrder == [] && minFeeRate == 0
    {
      maxTasks, tasks, prioritized, deadlineOrder, sequenceCounter, minFeeRate := max, map[], [], [], 0, 0;
    }

    /**
     * AddTask.  When the pool overflows, what is evicted is what the heap pops:
     * tasks that no kept one beats.
     */
    method AddTask(task: Task, currentHeight: nat) returns (error: Option<Error>, ghost evicted: set<TaskId>)
      requires Valid()
      modifies this
      ensures Valid() && minFeeRate == old(minFeeRate)
      ensures error ==
              if task.id in old(tasks) then Some(AlreadyPooled)
              else if Rate(task) < minFeeRate && |old(tasks)| >= maxTasks / 2 then Some(FeeTooLow)
              else None
      ensures error.Some?
              ==> tasks == old(tasks) && prioritized == old(prioritized) && deadlineOrder == old(deadlineOrder)
      ensures error == None ==>
                var all := old(tasks)[task.id := Entry(task, Rate(task), currentHeight, old(sequenceCounter))];
                && tasks == all - evicted && BestGone(all, evicted)
                && |tasks| == Smaller(|all|, maxTasks)
                && multiset(deadlineOrder) == multiset(old(deadlineOrder))
                   + if task.deadline > 0 then multiset{all[task.id]} else multiset{}
    {
      evicted := {};
      if task.id in tasks {
        return Some(AlreadyPooled), {};
      }
      var rate := task.fee / ComputeUnits(task.tier);
      if rate < minFeeRate && |tasks| >= maxTasks / 2 {
        return Some(FeeTooLow), {};
      }
      var entry := Entry(task, rate, currentHeight, sequenceCounter);
      sequenceCounter := sequenceCounter + 1;
      Enter(entry);
      NothingGone(tasks);
      if |tasks| > maxTasks {
        evicted := TrimToSize(maxTasks);
      }
      error := None;
    }

    /** An accepted entry goes into the map, the heap and, if it has a deadline, the list. */
    method Enter(entry: Entry)
      requires Valid() && entry.task.id !in tasks && entry.rate == Rate(entry.task)
      modifies this`tasks, this`prioritized, this`deadlineOrder
      ensures Valid() && tasks == old(tasks)[entry.task.id := entry]
      ensures multiset(deadlineOrder) == multiset(old(deadlineOrder))
              + if entry.task.deadline > 0 then multiset{entry} else multiset{}
    {
      tasks := tasks[entry.task.id := entry];
      prioritized := PushHeld(prioritized, old(tasks), entry);
      if entry.task.deadline > 0 {
        deadlineOrder := SortIn(deadlineOrder, entry);
      }
      CoversMore(old(deadlineOrder), deadlineOrder, old(tasks), entry);
    }

    /** trimToSizeLocked. */
    method TrimToSize(limit: int) returns (ghost evicted: set<TaskId>)
      requires Valid()
      modifies this`tasks, this`prioritized
      ensures Valid()
      ensures tasks == old(tasks) - evicted && BestGone(old(tasks), evicted)
      ensures |tasks| == Smaller(|old(tasks)|, limit)
    {
      ghost var all := tasks;
      tasks, prioritized, evicted := PopUntil(tasks, prioritized, limit);
      Trimmed(deadlineOrder, all, evicted);
    }

    /** GetHighestPriorityTasks. */
    method GetHighestPriorityTasks(n: nat) returns (result: seq<Task>)
      requires Valid()
      ensures IsTop(tasks, tasks.Keys, n, result)
    {
      result := [];
      var tmp := Init(prioritized);
      ghost var left := tasks;
      for i := 0 to n
        invariant IsHeap(tmp) && Holds(multiset(tmp), left)
        invariant Picking(tasks, tasks.Keys, left, result)
        invariant |result| == i
      {
        if |tmp| == 0 {
          SameSize(tmp, left);
          break;
        }
        var best, rest := Pop(tmp);
        PopHeld(tmp, rest, left, best);
        PickOne(tasks, tasks.Keys, left, result, best);
        left := left - {best.task.id};
        tmp, result := rest, result + [best.task];
      }
      PickedTop(tasks, tasks.Keys, left, result, n);
    }

    /** GetTasksForMiner: the same among the tasks of a tier the miner can serve. */
    method GetTasksForMiner(minerTier: nat, maxCount: nat) returns (result: seq<Task>)
      requires Valid()
      ensures IsTop(tasks, Servable(tasks, minerTier), maxCount, result)
      ensures forall id :: id in Servable(tasks, minerTier) <==> id in tasks && tasks[id].task.tier <= minerTier
    {
      result := [];
      var tmp := Init(prioritized);
      ghost var left, eligible := tasks, Servable(tasks, minerTier);
      while |tmp| > 0 && |result| < maxCount
        invariant IsHeap(tmp) && Holds(multiset(tmp), left)
        invariant Picking(tasks, eligible, left, result)
        invariant |result| <= maxCount
        decreases |tmp|
      {
        var best, rest := Pop(tmp);
        PopHeld(tmp, rest, left, best);
        PickOne(tasks, eligible, left, result, best);
        assert |multiset(tmp)| == |tmp| && |multiset(rest)| == |rest|;
        left := left - {best.task.id};
        tmp := rest;
        if best.task.tier <= minerTier {
          result := result + [best.task];
        }
      }
      SameSize(tmp, left);
      PickedTop(tasks, eligible, left, result, maxCount);
    }

    /** ExpireDeadlines: afterwards no pooled task is past its deadline. */
    method ExpireDeadlines(currentHeight: nat) returns (expired: seq<Task>)
      requires Valid()
      modifies this`tasks, this`prioritized, this`deadlineOrder
      ensures Valid()
      ensures tasks == old(tasks) - LateIds(old(deadlineOrder), currentHeight)
      ensures deadlineOrder == Remaining(old(deadlineOrder), currentHeight)
      ensures expired == LateTasks(old(deadlineOrder), currentHeight)
      ensures forall id :: id in tasks ==>
                           tasks[id].task.deadline == 0 || currentHeight <= tasks[id].task.deadline
      ensures forall id :: id in old(tasks) ==>
                           (id in tasks <==> !ListedLate(old(deadlineOrder), currentHeight, id))
      ensures forall e :: e in deadlineOrder <==>
                          e in old(deadlineOrder) && !(0 < e.task.deadline < currentHeight)
    {
      forall e ensures e in Remaining(deadlineOrder, currentHeight)
                       <==> e in deadlineOrder && !Late(e, currentHeight)
      {
        RemainingMeans(deadlineOrder, currentHeight, e);
      }
      expired := [];
      var remaining: seq<Entry> := [];
      for i := 0 to |deadlineOrder|
        invariant deadlineOrder == old(deadlineOrder) && prioritized == old(prioritized)
        invariant Expiring(old(tasks), deadlineOrder[..i], currentHeight, tasks, remaining, expired)
      {
        var e := deadlineOrder[i];
        assert deadlineOrder[..i + 1] == deadlineOrder[..i] + [e];
        ExpireOne(old(tasks), deadlineOrder[..i], e, currentHeight, tasks, remaining, expired);
        if Late(e, currentHeight) {
          tasks := tasks - {e.task.id};
          expired := expired + [e.task];
        } else {
          remaining := remaining + [e];
        }
      }
      assert deadlineOrder[..|deadlineOrder|] == deadlineOrder;
      ExpiryCovers(deadlineOrder, old(tasks), currentHeight);
      RemainingSorted(deadlineOrder, currentHeight);
      deadlineOrder := remaining;
      RebuildHeap();
    }

    /** RemoveTask: the deadline list keeps its entry. */
    method RemoveTask(id: TaskId)
      requires Valid()
      modifies this`tasks, this`prioritized
      ensures Valid() && tasks == old(tasks) - {id}
    {
      tasks := tasks - {id};
      RebuildHeap();
    }

    /** rebuildHeap: the map is read in any order. */
    method RebuildHeap()
      requires Keyed(tasks) && ByDeadline(deadlineOrder) && Covers(deadlineOrder, tasks)
      modifies this`prioritized
      ensures Valid()
    {
      var h: seq<Entry> := [];
      var pending := tasks.Keys;
      while pending != {}
        invariant pending <= tasks.Keys
        invariant Holds(multiset(h), tasks - pending)
        decreases pending
      {
        var id :| id in pending;
        HoldsMore(multiset(h), tasks - pending, tasks[id]);
        assert (tasks - pending)[id := tasks[id]] == tasks - (pending - {id});
        h := h + [tasks[id]];
        pending := pending - {id};
      }
      assert tasks - {} == tasks;
      prioritized := Init(h);
    }
  }

  function Smaller(size: nat, limit: int): int {
    if size <= limit then size else if limit > 0 then limit else 0
  }

  /** No task kept beats one that is gone. */
  ghost predicate BestGone(tasks: Tasks, gone: set<TaskId>) {
    && gone <= tasks.Keys
    && forall a, b :: a in gone && b in tasks && b !in gone ==> tasks[b].rate <= tasks[a].rate
  }

  ghost predicate SameRates(tasks: Tasks) {
    forall a, b :: a in tasks && b in tasks ==> tasks[a].rate == tasks[b].rate
  }

  /** What the comment on trimToSizeLocked promises: no task evicted beats one kept. */
  ghost predicate WorstGone(tasks: Tasks, gone: set<TaskId>) {
    gone <= tasks.Keys && forall a, b :: a in gone && b in tasks && b !in gone ==> tasks[a].rate <= tasks[b].rate
  }

  /** Where something is evicted and something kept, that holds exactly when all pooled rates are equal. */
  lemma TrimIsFair(tasks: Tasks, gone: set<TaskId>)
    requires BestGone(tasks, gone) && gone != {} && gone != tasks.Keys
    ensures WorstGone(tasks, gone) <==> SameRates(tasks)
  {
    if WorstGone(tasks, gone) {
      var out :| out in gone;
      var kept :| kept in tasks && kept !in gone;
      forall a | a in tasks ensures tasks[a].rate == tasks[out].rate {
        assert if a in gone then tasks[a].rate == tasks[kept].rate else tasks[a].rate == tasks[out].rate;
        assert tasks[kept].rate == tasks[out].rate;
      }
    }
  }

  /** Two tasks of different rates and room for one: the better paid goes. */
  lemma BetterPaidGoes(cheap: Task, dear: Task, gone: set<TaskId>)
    requires cheap.id != dear.id && Rate(cheap) < Rate(dear)
    requires var tasks := map[cheap.id := Entry(cheap, Rate(cheap), 0, 0), dear.id := Entry(dear, Rate(dear), 0, 1)];
             BestGone(tasks, gone) && |tasks - gone| == Smaller(|tasks|, 1)
    ensures gone == {dear.id}
  {
    var tasks := map[cheap.id := Entry(cheap, Rate(cheap), 0, 0), dear.id := Entry(dear, Rate(dear), 0, 1)];
    assert (tasks - gone).Keys == {cheap.id, dear.id} - gone;
    assert tasks[dear.id].rate > tasks[cheap.id].rate;
    assert dear.id !in gone ==> {cheap.id, dear.id} - gone == {cheap.id, dear.id};
    assert cheap.id in gone && dear.id in gone ==> {cheap.id, dear.id} - gone == {};
  }

  lemma PopHeld(h: seq<Entry>, rest: seq<Entry>, left: Tasks, best: Entry)
    requires Holds(multiset(h), left) && Keyed(left) && multiset(h) == multiset(rest) + multiset{best}
    requires forall e :: e in rest ==> e.rate <= best.rate
    ensures best.task.id in left && left[best.task.id] == best
    ensures Holds(multiset(rest), left - {best.task.id})
    ensures forall id :: id in left ==> left[id].rate <= best.rate
  {
    HoldsLess(multiset(h), multiset(rest), left, best);
    forall id | id in left ensures left[id].rate <= best.rate {
      assert multiset(h)[left[id]] == 1;
      assert left[id] != best ==> left[id] in multiset(rest);
    }
  }

  lemma EvictOne(all: Tasks, evicted: set<TaskId>, h: seq<Entry>, rest: seq<Entry>, best: Entry)
    requires Keyed(all) && BestGone(all, evicted)
    requires Holds(multiset(h), all - evicted) && multiset(h) == multiset(rest) + multiset{best}
    requires forall e :: e in rest ==> e.rate <= best.rate
    ensures best.task.id in all - evicted
    ensures Holds(multiset(rest), all - evicted - {best.task.id})
    ensures all - evicted - {best.task.id} == all - (evicted + {best.task.id})
    ensures BestGone(all, evicted + {best.task.id})
  {
    var left := all - evicted;
    PopHeld(h, rest, left, best);
    forall a, b | a in evicted + {best.task.id} && b in all && b !in evicted + {best.task.id}
      ensures all[b].rate <= all[a].rate
    {
      assert b in left && left[b] == all[b];
    }
  }

  ghost function Servable(tasks: Tasks, tier: nat): set<TaskId> {
    set id | id in tasks && tasks[id].task.tier <= tier
  }

  lemma LateMore(list: seq<Entry>, e: Entry, height: nat)
    ensures LateIds(list + [e], height) == LateIds(list, height) + if Late(e, height) then {e.task.id} else {}
  {
  }

  lemma ExpiryCovers(list: seq<Entry>, tasks: Tasks, height: nat)
    requires Covers(list, tasks) && Keyed(tasks)
    ensures var kept := tasks - LateIds(list, height);
            Covers(Remaining(list, height), kept) && forall id :: id in kept ==> !Late(kept[id], height)
  {
    var kept := tasks - LateIds(list, height);
    forall id | id in kept && kept[id].task.deadline > 0
      ensures kept[id] in Remaining(list, height) && !Late(kept[id], height)
    {
      assert tasks[id] in list;
      RemainingMeans(list, height, tasks[id]);
    }
  }
}
