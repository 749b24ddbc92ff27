/**
 * Task graphs (pkg/task/dag.go): Kahn's algorithm as cycle test and scheduler,
 * the ready set, and the builder.
 */
module TaskDag {
  import opened Wrappers
  import opened Nibbles

  const ZERO32: Bytes := [
    0, 0, 0, 0, 0, 0, 0, 0, 0, 0, 0, 0, 0, 0, 0, 0,
    0, 0, 0, 0, 0, 0, 0, 0, 0, 0, 0, 0, 0, 0, 0, 0]

  /** Task and subtask identifiers. */
  type Id = b: Bytes | |b| == 32 witness ZERO32

  /** Subtasks in order of creation, and the children of each parent. */
  datatype Graph = Graph(subtasks: seq<Id>, deps: map<Id, seq<Id>>)

  function Children(g: Graph, p: Id): seq<Id> {
    if p in g.deps then g.deps[p] else []
  }

  predicate Edge(g: Graph, p: Id, c: Id) {
    c in Children(g, p)
  }

  ghost predicate Distinct(s: seq<Id>) {
    forall i, j :: 0 <= i < j < |s| ==> s[i] != s[j]
  }

  /** Distinct ids, and dependencies among them only: what the builder guarantees. */
  ghost predicate Closed(g: Graph) {
    && Distinct(g.subtasks)
    && (forall p :: p in g.deps ==> p in g.subtasks)
    && forall p, c :: Edge(g, p, c) ==> c in g.subtasks
  }

  ghost function Nodes(g: Graph): set<Id> {
    Ids(g.subtasks)
  }

  ghost function Ids(s: seq<Id>): set<Id> {
    set x | x in s
  }

  // ---- Cycles ----

  /** A walk along edges. */
  ghost predicate Walk(g: Graph, w: seq<Id>) {
    |w| <= 1 || (Edge(g, w[0], w[1]) && Walk(g, w[1..]))
  }

  lemma {:induction false} WalkParts(g: Graph, w: seq<Id>, k: nat)
    requires Walk(g, w) && k <= |w|
    ensures Walk(g, w[..k]) && Walk(g, w[k..])
    decreases |w|
  {
    if k == 0 {
      assert w[0..] == w;
    } else if k > 0 {
      WalkParts(g, w[1..], k - 1);
      assert w[1..][k - 1..] == w[k..];
      assert w[..k][1..] == w[1..][..k - 1];
    }
  }

  ghost predicate Cycle(g: Graph, w: seq<Id>) {
    |w| >= 2 && w[0] == w[|w| - 1] && Walk(g, w)
  }

  ghost predicate Acyclic(g: Graph) {
    forall w :: !Cycle(g, w)
  }

  /** Every listed node comes after all its parents. */
  ghost predicate Topological(g: Graph, order: seq<Id>) {
    forall k, p :: 0 <= k < |order| && Edge(g, p, order[k]) ==> p in order[..k]
  }

  function IndexOf(s: seq<Id>, x: Id): (i: nat)
    requires x in s
    ensures i < |s| && s[i] == x && x !in s[..i]
  {
    if s[0] == x then 0
    else
      assert x in s[1..];
      var i := 1 + IndexOf(s[1..], x);
      assert s[..i] == [s[0]] + s[1..][..i - 1];
      i
  }

  /** Positions in a topological order grow along a walk. */
  lemma {:induction false} WalkClimbs(g: Graph, order: seq<Id>, w: seq<Id>)
    requires Topological(g, order) && Walk(g, w) && |w| >= 2 && w[|w| - 1] in order
    ensures w[0] in order && IndexOf(order, w[0]) < IndexOf(order, w[|w| - 1])
    decreases |w|
  {
    var rest := w[1..];
    assert rest[|rest| - 1] == w[|w| - 1];
    if |rest| >= 2 {
      WalkClimbs(g, order, rest);
    }
    var c := IndexOf(order, w[1]);
    assert Edge(g, w[0], order[c]);
    EarlierIndex(order, w[0], c);
  }

  lemma EarlierIndex(order: seq<Id>, x: Id, c: nat)
    requires c <= |order| && x in order[..c]
    ensures x in order && IndexOf(order, x) < c
  {
    var i :| 0 <= i < c && order[i] == x;
    var j := IndexOf(order, x);
    forall k | 0 <= k < j ensures order[k] != x {
      assert order[..j][k] == order[k];
    }
  }

  /** A complete topological order rules out cycles. */
  lemma OrderedIsAcyclic(g: Graph, order: seq<Id>)
    requires Closed(g) && Topological(g, order) && forall x :: x in g.subtasks ==> x in order
    ensures Acyclic(g)
  {
    forall w | Cycle(g, w) ensures false {
      assert w[0] in g.subtasks by {
        WalkParts(g, w, |w| - 2);
        var tail := w[|w| - 2..];
        assert Edge(g, tail[0], tail[1]);
      }
      WalkClimbs(g, order, w);
    }
  }

  lemma {:induction false} DistinctSize(s: seq<Id>)
    requires Distinct(s)
    ensures |Ids(s)| == |s|
  {
    if s != [] {
      var front := s[..|s| - 1];
      DistinctSize(front);
      assert Ids(s) == Ids(front) + {s[|s| - 1]};
    }
  }

  lemma SubsetSize(a: set<Id>, b: set<Id>)
    requires a <= b
    ensures |a| <= |b|
  {
    if a != b {
      assert b == a + (b - a);
    }
  }

  /** Among more steps than nodes, one node repeats. */
  lemma Pigeonhole(s: seq<Id>, r: set<Id>) returns (i: nat, j: nat)
    requires |s| > |r| && forall x :: x in s ==> x in r
    ensures i < j < |s| && s[i] == s[j]
  {
    if Distinct(s) {
      DistinctSize(s);
      SubsetSize(Ids(s), r);
    }
    i, j :| 0 <= i < j < |s| && s[i] == s[j];
  }

  ghost predicate HasParentIn(g: Graph, r: set<Id>, c: Id) {
    exists p :: p in r && Edge(g, p, c)
  }

  /** Every node of the set has a parent in the set. */
  ghost predicate Stuck(g: Graph, r: set<Id>) {
    forall c {:trigger HasParentIn(g, r, c)} :: c in r ==> HasParentIn(g, r, c)
  }

  lemma {:induction false} LongWalk(g: Graph, r: set<Id>, n: nat) returns (w: seq<Id>)
    requires Stuck(g, r) && r != {}
    ensures |w| == n + 1 && Walk(g, w) && forall x :: x in w ==> x in r
  {
    if n == 0 {
      var x :| x in r;
      w := [x];
    } else {
      var tail := LongWalk(g, r, n - 1);
      assert tail[0] in tail && HasParentIn(g, r, tail[0]);
      var p :| p in r && Edge(g, p, tail[0]);
      w := [p] + tail;
      assert w[1..] == tail;
    }
  }

  /** A stuck set holds a cycle. */
  lemma StuckHasCycle(g: Graph, r: set<Id>) returns (w: seq<Id>)
    requires Stuck(g, r) && r != {}
    ensures Cycle(g, w)
  {
    var walk := LongWalk(g, r, |r|);
    var i, j := Pigeonhole(walk, r);
    WalkParts(g, walk, j + 1);
    WalkParts(g, walk[..j + 1], i);
    w := walk[..j + 1][i..];
  }

  // ---- In-degrees, repeated edges counted ----

  /** How often p lists c as a child. */
  function Times(g: Graph, p: Id, c: Id): nat {
    multiset(Children(g, p))[c]
  }

  /** Edges into c from the given parents. */
  ghost function InDegree(g: Graph, parents: set<Id>, c: Id): nat {
    if parents == {} then 0
    else
      var p :| p in parents;
      Times(g, p, c) + InDegree(g, parents - {p}, c)
  }

  lemma {:induction false} InDegreeWithout(g: Graph, parents: set<Id>, c: Id, p: Id)
    requires p in parents
    ensures InDegree(g, parents, c) == Times(g, p, c) + InDegree(g, parents - {p}, c)
    decreases |parents|
  {
    var q :| q in parents && InDegree(g, parents, c) == Times(g, q, c) + InDegree(g, parents - {q}, c);
    if q != p {
      InDegreeWithout(g, parents - {q}, c, p);
      InDegreeWithout(g, parents - {p}, c, q);
      assert parents - {q} - {p} == parents - {p} - {q};
    }
  }

  /** No edge comes in from the set exactly when the sum is zero. */
  lemma {:induction false} InDegreeZero(g: Graph, parents: set<Id>, c: Id)
    ensures InDegree(g, parents, c) == 0 <==> forall p :: p in parents ==> !Edge(g, p, c)
    decreases |parents|
  {
    if parents != {} {
      var p :| p in parents && InDegree(g, parents, c) == Times(g, p, c) + InDegree(g, parents - {p}, c);
      InDegreeZero(g, parents - {p}, c);
      assert Times(g, p, c) > 0 <==> Edge(g, p, c);
      assert forall q :: q in parents <==> q == p || q in parents - {p};
    }
  }

  /** The count kept for a node: edges from the given parents, and its place among children still to be seen. */
  ghost predicate CountRight(g: Graph, parents: set<Id>, tail: seq<Id>, inDegree: map<Id, nat>, c: Id) {
    c in inDegree ==> inDegree[c] == InDegree(g, parents, c) + multiset(tail)[c]
  }

  ghost predicate Counted(g: Graph, parents: set<Id>, tail: seq<Id>, inDegree: map<Id, nat>) {
    forall c {:trigger CountRight(g, parents, tail, inDegree, c)} :: CountRight(g, parents, tail, inDegree, c)
  }

  /** The inner counting loop: one more for each listed child. */
  method CountChildren(children: seq<Id>, before: map<Id, nat>) returns (inDegree: map<Id, nat>)
    requires forall c :: c in children ==> c in before
    ensures inDegree.Keys == before.Keys
    ensures forall c :: c in before ==> inDegree[c] == before[c] + multiset(children)[c]
  {
    inDegree := before;
    for j := 0 to |children|
      invariant inDegree.Keys == before.Keys
      invariant forall c :: c in inDegree ==> inDegree[c] == before[c] + multiset(children[..j])[c]
    {
      assert children[..j + 1] == children[..j] + [children[j]];
      assert children[j] in children;
      inDegree := inDegree[children[j] := inDegree[children[j]] + 1];
    }
    assert children[..|children|] == children;
  }

  /** The counting loops: zero for every subtask, then one for each listed child. */
  method CountInDegrees(g: Graph) returns (inDegree: map<Id, nat>)
    requires Closed(g)
    ensures inDegree.Keys == Nodes(g) && Counted(g, Nodes(g), [], inDegree)
  {
    inDegree := map x | x in g.subtasks :: 0;
    var pending := g.deps.Keys;
    ghost var done: set<Id> := {};
    while pending != {}
      invariant pending !! done && pending + done == g.deps.Keys
      invariant inDegree.Keys == Nodes(g)
      invariant Counted(g, done, [], inDegree)
      decreases pending
    {
      var p :| p in pending;
      assert g.deps[p] == Children(g, p);
      assert forall c :: c in g.deps[p] ==> Edge(g, p, c);
      ghost var before := inDegree;
      inDegree := CountChildren(g.deps[p], inDegree);
      CountedParent(g, done, p, before, inDegree);
      pending, done := pending - {p}, done + {p};
    }
    forall c ensures CountRight(g, Nodes(g), [], inDegree, c) {
      assert CountRight(g, done, [], inDegree, c);
      InDegreeSupport(g, done, Nodes(g), c);
    }
  }

  /** Adding one parent's children to the counts. */
  lemma CountedParent(g: Graph, done: set<Id>, p: Id, before: map<Id, nat>, after: map<Id, nat>)
    requires Counted(g, done, [], before) && p !in done && after.Keys == before.Keys
    requires forall c :: c in before ==> after[c] == before[c] + Times(g, p, c)
    ensures Counted(g, done + {p}, [], after)
  {
    forall c ensures CountRight(g, done + {p}, [], after, c) {
      assert CountRight(g, done, [], before, c);
      InDegreeWithout(g, done + {p}, c, p);
      assert done + {p} - {p} == done;
    }
  }

  /** Nodes without children add nothing. */
  lemma {:induction false} InDegreeSupport(g: Graph, a: set<Id>, b: set<Id>, c: Id)
    requires a <= b && forall p :: p in b && p !in a ==> p !in g.deps
    ensures InDegree(g, a, c) == InDegree(g, b, c)
    decreases |b - a|
  {
    if a != b {
      var p :| p in b && p !in a;
      InDegreeWithout(g, b, c, p);
      assert b - {p} - a == (b - a) - {p};
      InDegreeSupport(g, a, b - {p}, c);
    }
  }

  // ---- Kahn's algorithm ----

  /** The state of the search: done nodes in order, then the queue of nodes all of whose parents are done. */
  ghost predicate Search(g: Graph, order: seq<Id>, queue: seq<Id>, inDegree: map<Id, nat>) {
    var done := Ids(order);
    && Distinct(order + queue)
    && done <= Nodes(g) && inDegree.Keys == Nodes(g)
    && Topological(g, order)
    && Counted(g, Nodes(g) - done, [], inDegree)
    && (forall c :: c in order ==> inDegree[c] == 0)
    && (forall c :: c in queue ==> c in inDegree && inDegree[c] == 0)
    && (forall c :: c in inDegree && inDegree[c] == 0 ==> c in order || c in queue)
  }

  /** The first queue: every node of in-degree zero, in whatever order the map is iterated. */
  method InitialQueue(g: Graph, inDegree: map<Id, nat>) returns (queue: seq<Id>)
    ensures Distinct(queue) && forall c :: c in queue <==> c in inDegree && inDegree[c] == 0
  {
    queue := [];
    var pending := inDegree.Keys;
    while pending != {}
      invariant pending <= inDegree.Keys && Distinct(queue)
      invariant forall c :: c in queue <==> c in inDegree && c !in pending && inDegree[c] == 0
      decreases pending
    {
      var c :| c in pending;
      if inDegree[c] == 0 {
        queue := queue + [c];
      }
      pending := pending - {c};
    }
  }

  /** The children loop: edges from done nodes and from the first children are gone. */
  ghost predicate Releasing(g: Graph, taken: seq<Id>, queue: seq<Id>, inDegree: map<Id, nat>, rest: set<Id>,
                            tail: seq<Id>)
  {
    && inDegree.Keys == Nodes(g)
    && Distinct(taken + queue)
    && Counted(g, rest, tail, inDegree)
    && (forall c :: c in taken ==> c in inDegree && inDegree[c] == 0)
    && (forall c :: c in queue ==> c in inDegree && inDegree[c] == 0)
    && (forall c :: c in inDegree && inDegree[c] == 0 ==> c in taken || c in queue)
  }

  /** One child: its count drops, and it joins the queue when the count reaches zero. */
  lemma ReleaseStep(g: Graph, taken: seq<Id>, queue: seq<Id>, inDegree: map<Id, nat>, rest: set<Id>, child: Id,
                    tail: seq<Id>)
    requires Releasing(g, taken, queue, inDegree, rest, [child] + tail) && child in Nodes(g)
    ensures inDegree[child] > 0
    ensures var d := inDegree[child := inDegree[child] - 1];
            Releasing(g, taken, if d[child] == 0 then queue + [child] else queue, d, rest, tail)
  {
    assert multiset([child] + tail) == multiset{child} + multiset(tail);
    assert CountRight(g, rest, [child] + tail, inDegree, child);
    assert child in [child] + tail && inDegree[child] > 0;
    var d := inDegree[child := inDegree[child] - 1];
    forall c ensures CountRight(g, rest, tail, d, c) {
      assert CountRight(g, rest, [child] + tail, inDegree, c);
    }
    assert child !in taken && child !in queue;
    assert taken + (queue + [child]) == (taken + queue) + [child];
  }

  /** Takes the head of the queue, and releases the children it was the last parent of. */
  method Advance(g: Graph, ghost order: seq<Id>, queue: seq<Id>, inDegree: map<Id, nat>)
    returns (queue': seq<Id>, inDegree': map<Id, nat>)
    requires Closed(g) && queue != [] && Search(g, order, queue, inDegree)
    ensures Search(g, order + [queue[0]], queue', inDegree')
  {
    var id := queue[0];
    var children := Children(g, id);
    ghost var taken := order + [id];
    ghost var rest := Nodes(g) - Ids(order) - {id};
    AdvanceFacts(g, order, queue, inDegree);
    assert rest == Nodes(g) - Ids(taken);
    queue', inDegree' := queue[1..], inDegree;
    assert children[0..] == children;
    for j := 0 to |children|
      invariant Releasing(g, taken, queue', inDegree', rest, children[j..])
    {
      var child := children[j];
      assert children[j..] == [child] + children[j + 1..];
      assert Edge(g, id, child);
      ReleaseStep(g, taken, queue', inDegree', rest, child, children[j + 1..]);
      inDegree' := inDegree'[child := inDegree'[child] - 1];
      if inDegree'[child] == 0 {
        queue' := queue' + [child];
      }
    }
    assert children[|children|..] == [];
    ReleasedIsSearch(g, taken, queue', inDegree', rest);
  }

  /** With all children seen, the search goes on with the node done. */
  lemma ReleasedIsSearch(g: Graph, taken: seq<Id>, queue: seq<Id>, inDegree: map<Id, nat>, rest: set<Id>)
    requires Releasing(g, taken, queue, inDegree, rest, []) && Topological(g, taken)
    requires rest == Nodes(g) - Ids(taken)
    ensures Search(g, taken, queue, inDegree)
  {
  }

  /** The head of the queue has all its parents done. */
  lemma HeadIsReady(g: Graph, order: seq<Id>, queue: seq<Id>, inDegree: map<Id, nat>)
    requires Closed(g) && queue != [] && Search(g, order, queue, inDegree)
    ensures queue[0] !in order && queue[0] in Nodes(g) && Topological(g, order + [queue[0]])
  {
    var id := queue[0];
    assert id in queue && (order + queue)[|order|] == id;
    forall k | 0 <= k < |order| ensures order[k] != id {
      assert (order + queue)[k] == order[k];
    }
    assert CountRight(g, Nodes(g) - Ids(order), [], inDegree, id);
    InDegreeZero(g, Nodes(g) - Ids(order), id);
    forall k, p | 0 <= k < |order + [id]| && Edge(g, p, (order + [id])[k]) ensures p in (order + [id])[..k] {
      if k < |order| {
        assert (order + [id])[..k] == order[..k];
      } else {
        assert (order + [id])[..k] == order;
        assert p in g.deps && p in Nodes(g);
      }
    }
  }

  /** Taking the head out of the queue starts the children loop. */
  lemma AdvanceFacts(g: Graph, order: seq<Id>, queue: seq<Id>, inDegree: map<Id, nat>)
    requires Closed(g) && queue != [] && Search(g, order, queue, inDegree)
    ensures queue[0] !in order && queue[0] in Nodes(g) && Topological(g, order + [queue[0]])
    ensures Releasing(g, order + [queue[0]], queue[1..], inDegree,
                      Nodes(g) - Ids(order) - {queue[0]}, Children(g, queue[0]))
  {
    HeadIsReady(g, order, queue, inDegree);
    var id := queue[0];
    assert order + [id] + queue[1..] == order + queue;
    forall c ensures CountRight(g, Nodes(g) - Ids(order) - {id}, Children(g, id), inDegree, c) {
      assert CountRight(g, Nodes(g) - Ids(order), [], inDegree, c);
      InDegreeWithout(g, Nodes(g) - Ids(order), c, id);
    }
  }

  /** The search loop shared by verifyAcyclic and GetExecutionOrder. */
  method Kahn(g: Graph) returns (order: seq<Id>)
    requires Closed(g)
    ensures Distinct(order) && Topological(g, order) && forall x :: x in order ==> x in g.subtasks
    ensures Stuck(g, Nodes(g) - Ids(order))
  {
    var inDegree := CountInDegrees(g);
    var queue := InitialQueue(g, inDegree);
    order := [];
    SearchStart(g, queue, inDegree);
    while queue != []
      invariant Search(g, order, queue, inDegree)
      decreases Nodes(g) - Ids(order)
    {
      var id := queue[0];
      HeadIsReady(g, order, queue, inDegree);
      queue, inDegree := Advance(g, order, queue, inDegree);
      assert Nodes(g) - Ids(order + [id]) == (Nodes(g) - Ids(order)) - {id};
      order := order + [id];
    }
    SearchEnd(g, order, inDegree);
  }

  lemma SearchStart(g: Graph, queue: seq<Id>, inDegree: map<Id, nat>)
    requires Distinct(queue) && forall c :: c in queue <==> c in inDegree && inDegree[c] == 0
    requires inDegree.Keys == Nodes(g) && Counted(g, Nodes(g), [], inDegree)
    ensures Search(g, [], queue, inDegree)
  {
    assert Nodes(g) - Ids([]) == Nodes(g);
    assert [] + queue == queue;
  }

  lemma SearchEnd(g: Graph, order: seq<Id>, inDegree: map<Id, nat>)
    requires Closed(g) && Search(g, order, [], inDegree)
    ensures Distinct(order) && Topological(g, order) && forall x :: x in order ==> x in g.subtasks
    ensures Stuck(g, Nodes(g) - Ids(order))
  {
    assert order + [] == order;
    forall x | x in order ensures x in g.subtasks {
      assert x in Ids(order) && x in Nodes(g);
    }
    var left := Nodes(g) - Ids(order);
    forall c | c in left ensures HasParentIn(g, left, c) {
      assert CountRight(g, left, [], inDegree, c);
      InDegreeZero(g, left, c);
    }
  }

  /** verifyAcyclic: the visited count reaches the number of subtasks exactly on acyclic graphs. */
  method VerifyAcyclic(g: Graph) returns (ok: bool)
    requires Closed(g)
    ensures ok <==> Acyclic(g)
  {
    var order := Kahn(g);
    var visited := |order|;
    ok := visited == |g.subtasks|;
    CountDecides(g, order);
  }

  /** All nodes are listed exactly when the graph has no cycle, and exactly when the counts agree. */
  lemma CountDecides(g: Graph, order: seq<Id>)
    requires Closed(g) && Distinct(order) && Topological(g, order) && forall x :: x in order ==> x in g.subtasks
    requires Stuck(g, Nodes(g) - Ids(order))
    ensures |order| == |g.subtasks| <==> Acyclic(g)
    ensures Acyclic(g) ==> forall x :: x in g.subtasks ==> x in order
  {
    var done := Ids(order);
    var left := Nodes(g) - done;
    DistinctSize(order);
    DistinctSize(g.subtasks);
    assert Nodes(g) == done + left;
    if left == {} {
      assert forall x :: x in g.subtasks ==> x in Nodes(g);
      OrderedIsAcyclic(g, order);
    } else {
      var w := StuckHasCycle(g, left);
    }
  }

  /** On an acyclic graph: a permutation of the subtasks, every parent before its children. */
  method GetExecutionOrder(g: Graph) returns (order: seq<Id>)
    requires Closed(g)
    ensures Distinct(order) && Topological(g, order)
    ensures Acyclic(g) ==> forall x :: x in order <==> x in g.subtasks
    ensures forall k :: 0 <= k < |order| ==> IsReady(g, Ids(order[..k]), order[k])
  {
    order := Kahn(g);
    CountDecides(g, order);
    forall k | 0 <= k < |order| ensures IsReady(g, Ids(order[..k]), order[k]) {
      assert order[k] in order;
    }
  }

  // ---- Ready subtasks ----

  /** Not completed, and every parent is. */
  ghost predicate IsReady(g: Graph, completed: set<Id>, id: Id) {
    id in g.subtasks && id !in completed && forall p :: Edge(g, p, id) ==> p in completed
  }

  /** The ready ones among some subtasks, in their order. */
  ghost function ReadyAmong(g: Graph, completed: set<Id>, ids: seq<Id>): seq<Id> {
    if ids == [] then []
    else
      var last := ids[|ids| - 1];
      ReadyAmong(g, completed, ids[..|ids| - 1]) + if IsReady(g, completed, last) then [last] else []
  }

  /** The inner loops of GetReadySubtasks: is every parent of this subtask completed? */
  method ParentsDone(g: Graph, completed: set<Id>, id: Id) returns (allReady: bool)
    ensures allReady <==> forall p :: Edge(g, p, id) ==> p in completed
  {
    var pending := g.deps.Keys;
    while pending != {}
      invariant pending <= g.deps.Keys
      invariant forall p :: p in g.deps && p !in pending && Edge(g, p, id) ==> p in completed
      decreases pending
    {
      var p :| p in pending;
      if id in g.deps[p] && p !in completed {
        assert Edge(g, p, id);
        return false;
      }
      pending := pending - {p};
    }
    return true;
  }

  method GetReadySubtasks(g: Graph, completed: set<Id>) returns (ready: seq<Id>)
    ensures ready == ReadyAmong(g, completed, g.subtasks)
    ensures forall x :: x in ready <==> IsReady(g, completed, x)
  {
    ready := [];
    for i := 0 to |g.subtasks|
      invariant ready == ReadyAmong(g, completed, g.subtasks[..i])
      invariant forall x :: x in ready <==> x in g.subtasks[..i] && IsReady(g, completed, x)
    {
      var st := g.subtasks[i];
      assert g.subtasks[..i + 1][..i] == g.subtasks[..i];
      assert g.subtasks[..i + 1] == g.subtasks[..i] + [st];
      if st !in completed {
        var allReady := ParentsDone(g, completed, st);
        if allReady {
          ready := ready + [st];
        }
      }
    }
    assert g.subtasks[..|g.subtasks|] == g.subtasks;
  }

  /** While work remains, some subtask is ready, whatever has been completed. */
  lemma SomethingIsReady(g: Graph, completed: set<Id>) returns (id: Id)
    requires Closed(g) && Acyclic(g) && exists x :: x in g.subtasks && x !in completed
    ensures IsReady(g, completed, id)
  {
    var left := Nodes(g) - completed;
    var x :| x in g.subtasks && x !in completed;
    assert x in left;
    if Stuck(g, left) {
      var w := StuckHasCycle(g, left);
    }
    id :| id in left && !HasParentIn(g, left, id);
    forall p | Edge(g, p, id) ensures p in completed {
      assert p in g.deps && p in Nodes(g);
    }
  }

  // ---- The builder ----

  /** computeSubTaskID: the parent's first 28 bytes, then the index. */
  function SubTaskId(parent: Id, index: nat): (id: Id)
  {
    parent[..28] + [index / 0x100_0000 % 256, index / 0x1_0000 % 256, index / 0x100 % 256, index % 256]
  }

  /** The parent's first 28 bytes, then the index as four bytes, the high one first. */
  ghost predicate IsSubTask(id: Id, parent: Id, index: nat) {
    && id[..28] == parent[..28]
    && index % 0x1_0000_0000
       == (id[28] as int) * 0x100_0000 + (id[29] as int) * 0x1_0000 + (id[30] as int) * 0x100 + id[31]
  }

  lemma SubTaskIdMeans(parent: Id, index: nat)
    requires index < 0x1_0000_0000
    ensures IsSubTask(SubTaskId(parent, index), parent, index)
  {
    Digits(index);
  }

  /** Distinct 32-bit indices give distinct subtask ids. */
  lemma SubTaskIdInjective(parent: Id, i: nat, j: nat)
    requires i < 0x1_0000_0000 && j < 0x1_0000_0000 && SubTaskId(parent, i) == SubTaskId(parent, j)
    ensures i == j
  {
    var a, b := SubTaskId(parent, i), SubTaskId(parent, j);
    assert a[28] == b[28] && a[29] == b[29] && a[30] == b[30] && a[31] == b[31];
    Digits(i);
    Digits(j);
  }

  lemma Digits(n: nat)
    requires n < 0x1_0000_0000
    ensures n == n / 0x100_0000 % 256 * 0x100_0000 + n / 0x1_0000 % 256 * 0x1_0000 + n / 0x100 % 256 * 0x100 + n % 256
  {
  }

  /** The five tiers; a tier is a byte, so there are others, which are no task's. */
  datatype Tier = Lightweight | Conversation | Inference | Heavy | Distributed | Unknown(code: nat)

  /** The ids of a task's first subtasks. */
  function Issue(task: Id, count: nat): (ids: seq<Id>)
    ensures |ids| == count && forall i :: 0 <= i < count ==> ids[i] == SubTaskId(task, i)
  {
    if count == 0 then [] else Issue(task, count - 1) + [SubTaskId(task, count - 1)]
  }

  /** buildSingleSubtask and buildDataParallel: subtasks that wait for nothing. */
  function Parallel(g: Graph, task: Id, count: nat): Graph {
    Graph(g.subtasks + Issue(task, count), g.deps)
  }

  /**
   * One stage of buildModelParallel: the i-th waits for the builder's subtask i-1, which is the stage before only on
   * an empty builder.
   */
  function Stage(g: Graph, st: Id, i: nat): Graph
    requires i <= |g.subtasks|
  {
    var deps := if i == 0 then g.deps else g.deps[g.subtasks[i - 1] := Children(g, g.subtasks[i - 1]) + [st]];
    Graph(g.subtasks + [st], deps)
  }

  function Pipeline(g: Graph, task: Id, stages: nat): (r: Graph)
    ensures r.subtasks == g.subtasks + Issue(task, stages)
  {
    if stages == 0 then g else Stage(Pipeline(g, task, stages - 1), SubTaskId(task, stages - 1), stages - 1)
  }

  /** AnalyzeTask by tier; T4 splits the input, T5 the model, and an unknown tier is refused. */
  function Analyzed(g: Graph, task: Id, tier: Tier, inputSize: nat): Graph {
    match tier
    case Unknown(_) => g
    case Heavy => Parallel(g, task, if inputSize < 64 * 1024 then 2 else 4)
    case Distributed => Pipeline(g, task, 8)
    case _ => Parallel(g, task, 1)
  }

  /** Distinct subtasks, each listed after all it waits for. */
  ghost predicate Ordered(g: Graph) {
    Closed(g) && Topological(g, g.subtasks)
  }

  /** No subtask so far shares the 28 bytes that a task's ids start with. */
  ghost predicate IsNew(g: Graph, task: Id) {
    forall x :: x in g.subtasks ==> x[..28] != task[..28]
  }

  lemma IssuedDistinct(g: Graph, task: Id, count: nat)
    requires Distinct(g.subtasks) && IsNew(g, task) && count < 0x1_0000_0000
    ensures Distinct(g.subtasks + Issue(task, count))
  {
    var ids := Issue(task, count);
    forall i, j | 0 <= i < j < count ensures ids[i] != ids[j] {
      if ids[i] == ids[j] {
        SubTaskIdInjective(task, i, j);
      }
    }
    forall j | 0 <= j < count ensures ids[j] !in g.subtasks {
      assert ids[j][..28] == task[..28];
    }
  }

  lemma ParallelOrdered(g: Graph, task: Id, count: nat)
    requires Ordered(g) && Distinct(g.subtasks + Issue(task, count))
    ensures Ordered(Parallel(g, task, count))
  {
    var r := Parallel(g, task, count);
    forall p, c | Edge(r, p, c) ensures c in r.subtasks {
      assert Edge(g, p, c);
    }
    forall k, p | 0 <= k < |r.subtasks| && Edge(r, p, r.subtasks[k]) ensures p in r.subtasks[..k] {
      assert Edge(g, p, r.subtasks[k]);
      var i := IndexOf(g.subtasks, r.subtasks[k]);
      assert r.subtasks[i] == r.subtasks[k];
      assert r.subtasks[..k] == g.subtasks[..k];
    }
  }

  lemma StageEdges(g: Graph, st: Id, i: nat, p: Id, c: Id)
    requires i <= |g.subtasks|
    ensures Edge(Stage(g, st, i), p, c) <==> Edge(g, p, c) || (i > 0 && p == g.subtasks[i - 1] && c == st)
  {
  }

  lemma StageClosed(g: Graph, st: Id, i: nat)
    requires Closed(g) && i <= |g.subtasks| && Distinct(g.subtasks + [st])
    ensures Closed(Stage(g, st, i))
  {
    var r := Stage(g, st, i);
    assert r.subtasks[|g.subtasks|] == st;
    forall p | p in r.deps ensures p in r.subtasks {
      assert p in g.subtasks;
    }
    forall p, c | Edge(r, p, c) ensures c in r.subtasks {
      StageEdges(g, st, i, p, c);
    }
  }

  lemma StageOrdered(g: Graph, st: Id, i: nat)
    requires Ordered(g) && i <= |g.subtasks| && Distinct(g.subtasks + [st])
    ensures Ordered(Stage(g, st, i))
  {
    StageClosed(g, st, i);
    var all := g.subtasks + [st];
    forall k, p | 0 <= k < |all| && Edge(Stage(g, st, i), p, all[k]) ensures p in all[..k] {
      StageEdges(g, st, i, p, all[k]);
      ParentBefore(g, all, i, k, p);
    }
  }

  lemma ParentBefore(g: Graph, all: seq<Id>, i: nat, k: nat, p: Id)
    requires Ordered(g) && Distinct(all) && |all| == |g.subtasks| + 1 && all[..|g.subtasks|] == g.subtasks
    requires i <= |g.subtasks| && k < |all|
    requires Edge(g, p, all[k]) || (i > 0 && p == g.subtasks[i - 1] && all[k] == all[|g.subtasks|])
    ensures p in all[..k]
  {
    if k < |g.subtasks| {
      assert all[k] == g.subtasks[k] && all[k] != all[|g.subtasks|];
      assert all[..k] == g.subtasks[..k];
    } else {
      assert p in g.subtasks;
    }
  }

  lemma {:induction false} PipelineOrdered(g: Graph, task: Id, stages: nat)
    requires Ordered(g) && Distinct(g.subtasks + Issue(task, stages))
    ensures Ordered(Pipeline(g, task, stages))
  {
    if stages > 0 {
      var all := g.subtasks + Issue(task, stages);
      FrontDistinct(g.subtasks, Issue(task, stages - 1), SubTaskId(task, stages - 1), all);
      PipelineOrdered(g, task, stages - 1);
      StageOrdered(Pipeline(g, task, stages - 1), SubTaskId(task, stages - 1), stages - 1);
    }
  }

  lemma FrontDistinct(held: seq<Id>, ids: seq<Id>, st: Id, all: seq<Id>)
    requires Distinct(all) && all == held + (ids + [st])
    ensures Distinct(held + ids) && Distinct(held + ids + [st])
  {
    assert all == held + ids + [st];
    assert held + ids == all[..|all| - 1];
  }

  /** How many subtasks a task of this tier becomes. */
  function Shards(tier: Tier, inputSize: nat): nat {
    match tier
    case Unknown(_) => 0
    case Heavy => if inputSize < 64 * 1024 then 2 else 4
    case Distributed => 8
    case _ => 1
  }

  /** Analysing a new task keeps a builder's graph closed, in order of creation and free of cycles. */
  lemma AnalysisKeepsOrder(g: Graph, task: Id, tier: Tier, inputSize: nat)
    requires Ordered(g) && IsNew(g, task)
    ensures var r := Analyzed(g, task, tier, inputSize);
            && Ordered(r) && Acyclic(r)
            && |r.subtasks| == |g.subtasks| + (match tier
                                               case Unknown(_) => 0
                                               case Heavy => if inputSize < 65536 then 2 else 4
                                               case Distributed => 8
                                               case _ => 1)
            && r.subtasks[..|g.subtasks|] == g.subtasks
            && forall i :: |g.subtasks| <= i < |r.subtasks| ==> IsSubTask(r.subtasks[i], task, i - |g.subtasks|)
  {
    var count := Shards(tier, inputSize);
    IssuedDistinct(g, task, count);
    if tier == Distributed {
      PipelineOrdered(g, task, count);
    } else {
      ParallelOrdered(g, task, count);
    }
    OrderedIsAcyclic(Analyzed(g, task, tier, inputSize), Analyzed(g, task, tier, inputSize).subtasks);
    forall i | 0 <= i < count ensures IsSubTask(Issue(task, count)[i], task, i) {
      SubTaskIdMeans(task, i);
    }
  }

  /** Stage i of a pipeline put on k subtasks waits for the i-1st of all of them. */
  ghost predicate Link(all: seq<Id>, k: nat, i: nat, p: Id, c: Id) {
    1 <= i && k + i < |all| && p == all[i - 1] && c == all[k + i]
  }

  /** One of the first stages makes this edge. */
  ghost predicate Linked(all: seq<Id>, k: nat, stages: nat, p: Id, c: Id) {
    exists i: nat :: i < stages && Link(all, k, i, p, c)
  }

  lemma LinkMore(all: seq<Id>, st: Id, k: nat, stages: nat, p: Id, c: Id)
    requires |all| == k + stages
    ensures Linked(all + [st], k, stages + 1, p, c)
            <==> Linked(all, k, stages, p, c) || (stages > 0 && p == all[stages - 1] && c == st)
  {
    var more := all + [st];
    forall i: nat | i < stages ensures Link(more, k, i, p, c) <==> Link(all, k, i, p, c) {
    }
    assert Link(more, k, stages, p, c) <==> stages > 0 && p == all[stages - 1] && c == st;
  }

  lemma {:induction false} PipelineEdges(g: Graph, task: Id, stages: nat, p: Id, c: Id)
    ensures var r := Pipeline(g, task, stages);
            Edge(r, p, c) <==> Edge(g, p, c) || Linked(r.subtasks, |g.subtasks|, stages, p, c)
  {
    if stages > 0 {
      var before, st := Pipeline(g, task, stages - 1), SubTaskId(task, stages - 1);
      PipelineEdges(g, task, stages - 1, p, c);
      StageEdges(before, st, stages - 1, p, c);
      LinkMore(before.subtasks, st, |g.subtasks|, stages - 1, p, c);
    }
  }

  /** Every stage waits for the one before it. */
  ghost predicate InSteps(r: Graph, task: Id, stages: nat) {
    forall i :: 1 <= i < stages ==> Edge(r, SubTaskId(task, i - 1), SubTaskId(task, i))
  }

  lemma FirstStep(r: Graph, task: Id, stages: nat)
    requires InSteps(r, task, stages) && stages >= 2
    ensures Edge(r, SubTaskId(task, 0), SubTaskId(task, 1))
  {
    assert Edge(r, SubTaskId(task, 1 - 1), SubTaskId(task, 1));
  }

  lemma NoSuchLink(all: seq<Id>, k: nat, i: nat, p: Id, c: Id)
    requires Distinct(all) && 0 < k && k + 1 < |all| && p == all[k] && c == all[k + 1]
    ensures !Link(all, k, i, p, c)
  {
    assert i != 1 && k + i < |all| ==> all[k + i] != all[k + 1];
  }

  /** On a builder that holds subtasks, the second stage waits for the first of those instead. */
  lemma SecondStageWaits(all: seq<Id>, k: nat, stages: nat, p: Id, c: Id)
    requires Distinct(all) && 0 < k && k + 1 < |all| && p == all[k] && c == all[k + 1]
    ensures !Linked(all, k, stages, p, c)
  {
    forall i: nat ensures !Link(all, k, i, p, c) {
      NoSuchLink(all, k, i, p, c);
    }
  }

  /** The stages of a new task wait for one another if and only if the builder was empty. */
  lemma StagesWait(g: Graph, task: Id, stages: nat)
    requires Closed(g) && IsNew(g, task) && 2 <= stages < 0x1_0000_0000
    ensures InSteps(Pipeline(g, task, stages), task, stages) <==> g.subtasks == []
  {
    var r, k := Pipeline(g, task, stages), |g.subtasks|;
    IssuedDistinct(g, task, stages);
    if k == 0 {
      forall i | 1 <= i < stages ensures Edge(r, SubTaskId(task, i - 1), SubTaskId(task, i)) {
        PipelineEdges(g, task, stages, SubTaskId(task, i - 1), SubTaskId(task, i));
        assert Link(r.subtasks, 0, i, SubTaskId(task, i - 1), SubTaskId(task, i));
      }
    } else {
      if InSteps(r, task, stages) {
        FirstStep(r, task, stages);
      }
      assert r.subtasks[k] == SubTaskId(task, 0) && r.subtasks[k + 1] == SubTaskId(task, 1);
      PipelineEdges(g, task, stages, r.subtasks[k], r.subtasks[k + 1]);
      SecondStageWaits(r.subtasks, k, stages, r.subtasks[k], r.subtasks[k + 1]);
      assert r.subtasks[k + 1] !in g.subtasks;
    }
  }

  class DAGBuilder {
    var subtasks: seq<Id>
    var dependencies: map<Id, seq<Id>>

    ghost function Value(): Graph
      reads this
    {
      Graph(subtasks, dependencies)
    }

    constructor ()
      ensures Value() == Graph([], map[]) && Ordered(Value())
    {
      subtasks := [];
      dependencies := map[];
    }

    /** buildSingleSubtask and buildDataParallel. */
    method BuildParallel(task: Id, count: nat)
      requires count < 0x1_0000_0000
      modifies this
      ensures Value() == Parallel(old(Value()), task, count)
    {
      for i := 0 to count
        invariant subtasks == old(subtasks) + Issue(task, i) && dependencies == old(dependencies)
      {
        subtasks := subtasks + [SubTaskId(task, i)];
      }
    }

    /** buildModelParallel. */
    method BuildPipeline(task: Id, stages: nat)
      requires stages < 0x1_0000_0000
      modifies this
      ensures Value() == Pipeline(old(Value()), task, stages)
    {
      for i := 0 to stages
        invariant Value() == Pipeline(old(Value()), task, i)
      {
        ghost var before := Value();
        var st := SubTaskId(task, i);
        subtasks := subtasks + [st];
        if i > 0 {
          var prev := subtasks[i - 1];
          var waiting := if prev in dependencies then dependencies[prev] else [];
          dependencies := dependencies[prev := waiting + [st]];
        }
        assert Value() == Stage(before, st, i);
      }
    }

    /** AnalyzeTask: an unknown tier is an error and changes nothing. */
    method AnalyzeTask(task: Id, tier: Tier, inputSize: nat) returns (error: Option<nat>)
      modifies this
      ensures error == if tier.Unknown? then Some(tier.code) else None
      ensures Value() == Analyzed(old(Value()), task, tier, inputSize)
      ensures subtasks == old(subtasks) + Issue(task, Shards(tier, inputSize))
    {
      error := None;
      match tier
      case Unknown(code) => error := Some(code);
      case Heavy => BuildParallel(task, if inputSize < 64 * 1024 then 2 else 4);
      case Distributed => BuildPipeline(task, 8);
      case _ => BuildParallel(task, 1);
    }

    /** Build: refuses an empty graph and a cyclic one, and nothing else. */
    method Build() returns (r: Result<Graph, string>)
      requires Closed(Value())
      ensures r.Ok? <==> subtasks != [] && Acyclic(Value())
      ensures r.Ok? ==> r.value == Value()
    {
      if subtasks == [] {
        return Err("no subtasks in DAG");
      }
      var g := Graph(subtasks, dependencies);
      var ok := VerifyAcyclic(g);
      if !ok {
        return Err("circular dependency detected in task DAG");
      }
      return Ok(g);
    }
  }
}
