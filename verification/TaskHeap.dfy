/**
 * The priority queue of the task pool (taskPriorityQueue in
 * pkg/task/taskpool.go), driven by the up and down loops of Go's
 * container/heap.
 */
module TaskHeap {
  import TaskDag

  type TaskId = TaskDag.Id

  datatype Task = Task(id: TaskId, tier: nat, fee: int, deadline: nat)

  /** estimateComputeUnits. */
  function ComputeUnits(tier: nat): (units: nat)
    ensures units > 0
  {
    match tier
    case 2 => 10
    case 3 => 100
    case 4 => 1000
    case 5 => 10000
    case _ => 1
  }

  /** Fee per unit of computation. */
  function Rate(t: Task): int {
    t.fee / ComputeUnits(t.tier)
  }

  /** The rate is the fee divided by the tier's units of computation, rounded down. */
  lemma RateMeans(t: Task, units: nat)
    requires units == if t.tier == 2 then 10 else if t.tier == 3 then 100 else if t.tier == 4 then 1000
                      else if t.tier == 5 then 10000 else 1
    ensures Rate(t) * units <= t.fee < (Rate(t) + 1) * units
  {
    assert t.fee == Rate(t) * units + t.fee % units;
  }

  datatype Entry = Entry(task: Task, rate: int, height: nat, number: nat)

  function Parent(k: nat): nat
    requires k > 0
  {
    (k - 1) / 2
  }

  /** No entry from a parent at or after lo beats that parent. */
  ghost predicate HeapFrom(h: seq<Entry>, lo: nat) {
    forall k :: 0 < k < |h| && lo <= Parent(k) ==> h[k].rate <= h[Parent(k)].rate
  }

  ghost predicate IsHeap(h: seq<Entry>) {
    HeapFrom(h, 0)
  }

  lemma {:induction false} RootIsBest(h: seq<Entry>, k: nat)
    requires IsHeap(h) && k < |h|
    ensures h[k].rate <= h[0].rate
  {
    if k > 0 {
      RootIsBest(h, Parent(k));
    }
  }

  function Swap(h: seq<Entry>, i: nat, j: nat): (r: seq<Entry>)
    requires i < |h| && j < |h|
    ensures |r| == |h| && r[i] == h[j] && r[j] == h[i]
    ensures forall k :: 0 <= k < |h| && k != i && k != j ==> r[k] == h[k]
    ensures multiset(r) == multiset(h)
  {
    h[i := h[j]][j := h[i]]
  }

  // ---- Up ----

  /** In heap order but for entry j, whose children do not beat its parent. */
  ghost predicate RisingAt(h: seq<Entry>, j: nat) {
    && j < |h|
    && (forall k :: 0 < k < |h| && k != j ==> h[k].rate <= h[Parent(k)].rate)
    && forall k :: 0 < k < |h| && 0 < j && Parent(k) == j ==> h[k].rate <= h[Parent(j)].rate
  }

  lemma RiseOne(h: seq<Entry>, j: nat)
    requires RisingAt(h, j) && j > 0 && h[j].rate > h[Parent(j)].rate
    ensures RisingAt(Swap(h, Parent(j), j), Parent(j))
  {
    var i, r := Parent(j), Swap(h, Parent(j), j);
    forall k | 0 < k < |r| && k != i ensures r[k].rate <= r[Parent(k)].rate {
      if k != j && Parent(k) != j && Parent(k) != i {
        assert r[k] == h[k] && r[Parent(k)] == h[Parent(k)];
      }
    }
  }

  method Up(h: seq<Entry>, start: nat) returns (r: seq<Entry>)
    requires RisingAt(h, start)
    ensures IsHeap(r) && multiset(r) == multiset(h)
  {
    r := h;
    var j := start;
    while j > 0 && r[j].rate > r[Parent(j)].rate
      invariant RisingAt(r, j) && multiset(r) == multiset(h)
    {
      RiseOne(r, j);
      r := Swap(r, Parent(j), j);
      j := Parent(j);
    }
  }

  // ---- Down ----

  /** In heap order from lo but for the children of entry i, none of which beats the parent of i. */
  ghost predicate SinkingAt(h: seq<Entry>, i: nat, lo: nat) {
    && lo <= i < |h|
    && (forall k :: 0 < k < |h| && lo <= Parent(k) && Parent(k) != i ==> h[k].rate <= h[Parent(k)].rate)
    && (i != lo ==> i > 0 && lo <= Parent(i))
    && forall k :: 0 < k < |h| && i != lo && i > 0 && Parent(k) == i ==> h[k].rate <= h[Parent(i)].rate
  }

  /** The child of i that sinks no further: the left one unless the right beats it. */
  function Child(h: seq<Entry>, i: nat): (j: nat)
    requires 2 * i + 1 < |h|
    ensures j < |h| && j > 0 && Parent(j) == i
    ensures forall k :: 0 < k < |h| && Parent(k) == i ==> h[k].rate <= h[j].rate
  {
    if 2 * i + 2 < |h| && h[2 * i + 2].rate > h[2 * i + 1].rate then 2 * i + 2 else 2 * i + 1
  }

  lemma SinkOne(h: seq<Entry>, i: nat, lo: nat)
    requires SinkingAt(h, i, lo) && 2 * i + 1 < |h| && h[Child(h, i)].rate > h[i].rate
    ensures SinkingAt(Swap(h, i, Child(h, i)), Child(h, i), lo)
  {
    var j, r := Child(h, i), Swap(h, i, Child(h, i));
    forall k | 0 < k < |r| && lo <= Parent(k) && Parent(k) != j ensures r[k].rate <= r[Parent(k)].rate {
      if Parent(k) != i && k != i {
        assert r[k] == h[k] && r[Parent(k)] == h[Parent(k)];
      } else if k == i {
        assert r[Parent(i)] == h[Parent(i)] && r[i] == h[j];
      }
    }
    forall k | 0 < k < |r| && Parent(k) == j ensures r[k].rate <= r[Parent(j)].rate {
      assert r[k] == h[k] && h[k].rate <= h[j].rate;
    }
  }

  method Down(h: seq<Entry>, start: nat) returns (r: seq<Entry>)
    requires start < |h| && HeapFrom(h, start + 1)
    ensures HeapFrom(r, start) && multiset(r) == multiset(h)
  {
    r := h;
    var i: nat := start;
    while 2 * i + 1 < |r| && r[Child(r, i)].rate > r[i].rate
      invariant SinkingAt(r, i, start) && multiset(r) == multiset(h) && |r| == |h|
      decreases |r| - i
    {
      SinkOne(r, i, start);
      var j := Child(r, i);
      r := Swap(r, i, j);
      i := j;
    }
    SunkEnough(r, i, start);
  }

  lemma SunkEnough(h: seq<Entry>, i: nat, lo: nat)
    requires SinkingAt(h, i, lo)
    requires 2 * i + 1 < |h| ==> h[Child(h, i)].rate <= h[i].rate
    ensures HeapFrom(h, lo)
  {
    forall k | 0 < k < |h| && lo <= Parent(k) ensures h[k].rate <= h[Parent(k)].rate {
      if Parent(k) == i {
        assert 2 * i + 1 < |h|;
      }
    }
  }

  // ---- The heap operations ----

  /** heap.Init. */
  method Init(h: seq<Entry>) returns (r: seq<Entry>)
    ensures IsHeap(r) && multiset(r) == multiset(h)
  {
    r := h;
    var i: nat := |r| / 2;
    while i > 0
      invariant i <= |r| / 2 && HeapFrom(r, i) && multiset(r) == multiset(h)
    {
      i := i - 1;
      SameLength(h, r);
      r := Down(r, i);
      SameLength(h, r);
    }
  }

  lemma SameLength(a: seq<Entry>, b: seq<Entry>)
    requires multiset(a) == multiset(b)
    ensures |a| == |b|
  {
    assert |multiset(a)| == |a| && |multiset(b)| == |b|;
  }

  /** heap.Push. */
  method Push(h: seq<Entry>, e: Entry) returns (r: seq<Entry>)
    requires IsHeap(h)
    ensures IsHeap(r) && multiset(r) == multiset(h) + multiset{e}
  {
    r := Up(h + [e], |h|);
  }

  /** heap.Pop: takes out an entry that none left beats. */
  method Pop(h: seq<Entry>) returns (best: Entry, r: seq<Entry>)
    requires IsHeap(h) && h != []
    ensures IsHeap(r) && multiset(h) == multiset(r) + multiset{best} && best in h
    ensures forall e :: e in r ==> e.rate <= best.rate
  {
    var n := |h| - 1;
    var swapped := Swap(h, 0, n);
    best, r := swapped[n], swapped[..n];
    assert swapped == r + [best];
    ghost var unsettled := r;
    if n > 0 {
      r := Down(r, 0);
    }
    forall e | e in r ensures e.rate <= best.rate {
      assert e in multiset(unsettled);
      assert e in multiset(h);
      var k :| 0 <= k < |h| && h[k] == e;
      RootIsBest(h, k);
    }
  }
}
