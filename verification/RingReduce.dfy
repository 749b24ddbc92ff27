/**
 * The reduce-scatter phase of ring all-reduce (pkg/compute/distributed/allreduce.go),
 * run in lock step by all nodes: in each round every node sends one chunk to its
 * right neighbour and adds the chunk it receives from its left neighbour.
 */
module RingReduce {

  /** One tensor per node, all of the same size. */
  ghost predicate Tensors(data: seq<seq<int>>, size: nat) {
    |data| > 0 && forall i :: 0 <= i < |data| ==> |data[i]| == size
  }

  /** Elements per chunk, rounded up. */
  function ChunkSize(size: nat, n: nat): nat
    requires n > 0
  {
    if size % n == 0 then size / n else size / n + 1
  }

  function ChunkStart(c: nat, chunk: nat): nat {
    c * chunk
  }

  function ChunkEnd(c: nat, chunk: nat, size: nat): nat {
    if (c + 1) * chunk > size then size else (c + 1) * chunk
  }

  /** No chunk starts past the end, so no slice of the tensor is inverted. */
  predicate Sliceable(size: nat, n: nat)
    requires n > 0
  {
    (n - 1) * ChunkSize(size, n) <= size
  }

  /** Chunks have ordered bounds exactly when the last one does. */
  lemma SliceableMeans(size: nat, n: nat)
    requires n > 0
    ensures Sliceable(size, n) <==>
            forall c :: 0 <= c < n ==> ChunkStart(c, ChunkSize(size, n)) <= ChunkEnd(c, ChunkSize(size, n), size)
  {
    var chunk := ChunkSize(size, n);
    if Sliceable(size, n) {
      forall c | 0 <= c < n ensures ChunkStart(c, chunk) <= ChunkEnd(c, chunk, size) {
        Monotone(c, n - 1, chunk);
        Monotone(c, c + 1, chunk);
      }
    } else {
      assert ChunkStart(n - 1, chunk) > size >= ChunkEnd(n - 1, chunk, size);
    }
  }

  /** Five elements over four nodes: the last chunk would start at 6. */
  lemma FiveOverFour()
    ensures !Sliceable(5, 4)
  {
    SliceableMeans(5, 4);
  }

  lemma Monotone(a: nat, b: nat, k: nat)
    ensures a <= b ==> a * k <= b * k
  {
  }

  /** Dividing evenly is enough. */
  lemma EvenIsSliceable(size: nat, n: nat)
    requires n > 0 && size % n == 0
    ensures Sliceable(size, n)
  {
    assert size == n * (size / n);
    Monotone(n - 1, n, size / n);
  }

  lemma ChunkSizeCovers(size: nat, n: nat)
    requires n > 0
    ensures n * ChunkSize(size, n) >= size
  {
    assert size == n * (size / n) + size % n;
    assert n * (size / n + 1) == n * (size / n) + n;
  }

  // ---- Positions on the ring ----

  /** The remainder of a number below 2n. */
  lemma ModBelowTwice(x: nat, n: nat)
    requires n > 0 && x < 2 * n
    ensures x % n == if x < n then x else x - n
  {
    if x >= n {
      assert x == n * 1 + (x - n);
      assert (x - n + 1 * n) % n == (x - n) % n;
    }
  }

  function Left(i: nat, n: nat): (l: nat)
    requires i < n
    ensures l < n
  {
    (i - 1 + n) % n
  }

  /** The chunk node i sends in a round. */
  function SendChunk(i: nat, round: nat, n: nat): (c: nat)
    requires i < n && round < n
    ensures c < n
  {
    (i - round + n) % n
  }

  /** The chunk node i receives in a round. */
  function RecvChunk(i: nat, round: nat, n: nat): (c: nat)
    requires i < n && round < n
    ensures c < n
  {
    (i - round - 1 + n) % n
  }

  /** How many steps to the right of node c node i is. */
  function Distance(i: nat, c: nat, n: nat): (d: nat)
    requires i < n && c < n
    ensures d < n
  {
    if i >= c then i - c else i - c + n
  }

  /** What a node receives is what its left neighbour sends, and it is round + 1 steps from home. */
  lemma RoundChunks(i: nat, round: nat, n: nat, c: nat)
    requires i < n && c < n && round + 1 < n
    ensures RecvChunk(i, round, n) == SendChunk(Left(i, n), round, n)
    ensures c == RecvChunk(i, round, n) <==> Distance(i, c, n) == round + 1
    ensures c == RecvChunk(i, round, n) ==> Distance(Left(i, n), c, n) == round
  {
    ModBelowTwice(i - 1 + n, n);
    ModBelowTwice(i - round - 1 + n, n);
    ModBelowTwice(Left(i, n) - round + n, n);
  }

  // ---- What the nodes hold ----

  /** The sum of element k over count nodes to the right from a node. */
  function RingSum(data: seq<seq<int>>, from: nat, count: nat, k: nat): int
    requires Tensors(data, if |data| > 0 then |data[0]| else 0) && from < |data| && count <= |data|
    requires k < |data[0]|
  {
    if count == 0 then 0
    else
      var j := from + count - 1;
      RingSum(data, from, count - 1, k) + data[if j < |data| then j else j - |data|][k]
  }

  function Total(data: seq<seq<int>>, k: nat): int
    requires Tensors(data, if |data| > 0 then |data[0]| else 0) && k < |data[0]|
  {
    RingSum(data, 0, |data|, k)
  }

  /** Going all the way round gives the same sum from every start. */
  lemma {:induction false} FullCircle(data: seq<seq<int>>, from: nat, k: nat)
    requires Tensors(data, if |data| > 0 then |data[0]| else 0) && k < |data[0]| && from < |data|
    ensures RingSum(data, from, |data|, k) == Total(data, k)
    decreases from
  {
    if from > 0 {
      FullCircle(data, from - 1, k);
      ShiftStart(data, from - 1, |data| - 1, k);
    }
  }

  /** Dropping the first node of a partial circle. */
  lemma {:induction false} ShiftStart(data: seq<seq<int>>, from: nat, count: nat, k: nat)
    requires Tensors(data, if |data| > 0 then |data[0]| else 0) && k < |data[0]|
    requires from + 1 < |data| && count < |data|
    ensures RingSum(data, from, count + 1, k) == data[from][k] + RingSum(data, from + 1, count, k)
  {
    if count > 0 {
      ShiftStart(data, from, count - 1, k);
    } else {
      assert RingSum(data, from, 0, k) == 0;
    }
  }

  /** Element k at node i after some rounds: a finished chunk holds the sum from its home node to i. */
  function Held(data: seq<seq<int>>, rounds: nat, i: nat, k: nat, chunk: nat): int
    requires Tensors(data, if |data| > 0 then |data[0]| else 0) && i < |data| && k < |data[0]|
    requires chunk > 0 && k / chunk < |data|
  {
    var d := Distance(i, k / chunk, |data|);
    if d <= rounds then RingSum(data, k / chunk, d + 1, k) else data[i][k]
  }

  /** Before the first round every node holds its own tensor. */
  lemma HeldAtStart(data: seq<seq<int>>, i: nat, k: nat, chunk: nat)
    requires Tensors(data, if |data| > 0 then |data[0]| else 0) && i < |data| && k < |data[0]|
    requires chunk > 0 && k / chunk < |data|
    ensures Held(data, 0, i, k, chunk) == data[i][k]
  {
    var c := k / chunk;
    if Distance(i, c, |data|) == 0 {
      assert RingSum(data, c, 0, k) == 0;
    }
  }

  /** A round adds, in the received chunk only, what the left neighbour held. */
  lemma HeldStep(data: seq<seq<int>>, round: nat, i: nat, k: nat, chunk: nat)
    requires Tensors(data, if |data| > 0 then |data[0]| else 0) && i < |data| && k < |data[0]|
    requires chunk > 0 && k / chunk < |data| && round + 1 < |data|
    ensures Held(data, round + 1, i, k, chunk) ==
            Held(data, round, i, k, chunk)
            + if k / chunk == RecvChunk(i, round, |data|) then Held(data, round, Left(i, |data|), k, chunk) else 0
  {
    var n, c := |data|, k / chunk;
    RoundChunks(i, round, n, c);
    if c == RecvChunk(i, round, n) {
      var j := c + round + 1;
      assert i == if j < n then j else j - n;
    }
  }

  lemma InChunk(k: nat, c: nat, chunk: nat, size: nat)
    requires chunk > 0 && k < size
    ensures ChunkStart(c, chunk) <= k < ChunkEnd(c, chunk, size) <==> k / chunk == c
  {
    assert k == chunk * (k / chunk) + k % chunk;
    if k / chunk < c {
      Monotone(k / chunk + 1, c, chunk);
      assert (k / chunk + 1) * chunk == k / chunk * chunk + chunk;
    } else if k / chunk > c {
      Monotone(c + 1, k / chunk, chunk);
    } else {
      assert (c + 1) * chunk == c * chunk + chunk;
    }
  }

  lemma QuotientBelow(k: nat, n: nat, c: nat)
    requires c > 0 && k < n * c
    ensures k / c < n
  {
    var q := k / c;
    Quotient(k, c);
    Monotone(n, q, c);
  }

  lemma Quotient(k: nat, c: nat)
    requires c > 0
    ensures k / c * c <= k
  {
  }

  lemma ChunkIndexBound(k: nat, size: nat, n: nat)
    requires n > 0 && k < size
    ensures ChunkSize(size, n) > 0 && k / ChunkSize(size, n) < n
  {
    var chunk := ChunkSize(size, n);
    ChunkSizeCovers(size, n);
    assert chunk == 0 ==> n * chunk == 0;
    if chunk > 0 {
      QuotientBelow(k, n, chunk);
    }
  }

  // ---- The protocol ----

  /** Every element at every node is as Held says. */
  ghost predicate AllHeld(data: seq<seq<int>>, accum: array2<int>, size: nat, rounds: nat)
    requires Tensors(data, size)
    reads accum
  {
    && accum.Length0 == |data| && accum.Length1 == size
    && forall i, k :: 0 <= i < |data| && 0 <= k < size ==> NodeHeld(data, accum, size, rounds, i, k)
  }

  ghost predicate NodeHeld(data: seq<seq<int>>, accum: array2<int>, size: nat, rounds: nat, i: nat, k: nat)
    requires Tensors(data, size) && accum.Length0 == |data| && accum.Length1 == size && i < |data| && k < size
    reads accum
  {
    ChunkIndexBound(k, size, |data|);
    accum[i, k] == Held(data, rounds, i, k, ChunkSize(size, |data|))
  }

  /** The exchange of one round: every node gets a copy of what its left neighbour sends. */
  method Exchange(accum: array2<int>, round: nat, chunk: nat) returns (recv: array2<int>)
    requires 0 < accum.Length0 && round + 1 < accum.Length0 && chunk == ChunkSize(accum.Length1, accum.Length0)
    requires Sliceable(accum.Length1, accum.Length0)
    ensures fresh(recv) && recv.Length0 == accum.Length0 && recv.Length1 == accum.Length1
    ensures forall i, k :: 0 <= i < recv.Length0 && 0 <= k < recv.Length1 ==>
              recv[i, k] == Received(accum, round, chunk, i, k)
  {
    var n, size := accum.Length0, accum.Length1;
    recv := new int[n, size]((i, k) => 0);
    SliceableMeans(size, n);
    for i := 0 to n
      invariant forall j, k :: 0 <= j < n && 0 <= k < size ==>
                  recv[j, k] == if j < i then Received(accum, round, chunk, j, k) else 0
    {
      var left := Left(i, n);
      var c := SendChunk(left, round, n);
      RoundChunks(i, round, n, c);
      var start, end := ChunkStart(c, chunk), ChunkEnd(c, chunk, size);
      for k := start to end
        invariant forall j, l :: 0 <= j < n && 0 <= l < size ==>
                    recv[j, l] == if j < i then Received(accum, round, chunk, j, l)
                                  else if j == i && start <= l < k then accum[left, l] else 0
      {
        recv[i, k] := accum[left, k];
      }
    }
  }

  /** What node i receives for element k: nothing outside the received chunk. */
  function Received(accum: array2<int>, round: nat, chunk: nat, i: nat, k: nat): int
    requires i < accum.Length0 && k < accum.Length1 && round < accum.Length0
    reads accum
  {
    var c := RecvChunk(i, round, accum.Length0);
    if ChunkStart(c, chunk) <= k < ChunkEnd(c, chunk, accum.Length1) then accum[Left(i, accum.Length0), k] else 0
  }

  /** The end of a round: each node adds the received buffer to its own chunk, in place. */
  method AddReceived(accum: array2<int>, recv: array2<int>, round: nat, chunk: nat)
    requires 0 < accum.Length0 && round + 1 < accum.Length0 && chunk == ChunkSize(accum.Length1, accum.Length0)
    requires Sliceable(accum.Length1, accum.Length0)
    requires recv.Length0 == accum.Length0 && recv.Length1 == accum.Length1 && recv != accum
    modifies accum
    ensures forall i, k :: 0 <= i < accum.Length0 && 0 <= k < accum.Length1 ==>
              accum[i, k] == old(accum[i, k]) + Added(recv, round, chunk, i, k)
  {
    var n, size := accum.Length0, accum.Length1;
    SliceableMeans(size, n);
    for i := 0 to n
      invariant forall j, k :: 0 <= j < n && 0 <= k < size ==>
                  accum[j, k] == old(accum[j, k]) + if j < i then Added(recv, round, chunk, j, k) else 0
    {
      var c := RecvChunk(i, round, n);
      var start, end := ChunkStart(c, chunk), ChunkEnd(c, chunk, size);
      for k := start to end
        invariant forall j, l :: 0 <= j < n && 0 <= l < size ==>
                    accum[j, l] == old(accum[j, l])
                      + if j < i then Added(recv, round, chunk, j, l)
                        else if j == i && start <= l < k then recv[i, l] else 0
      {
        accum[i, k] := accum[i, k] + recv[i, k];
      }
    }
  }

  function Added(recv: array2<int>, round: nat, chunk: nat, i: nat, k: nat): int
    requires i < recv.Length0 && k < recv.Length1 && round < recv.Length0
    reads recv
  {
    var c := RecvChunk(i, round, recv.Length0);
    if ChunkStart(c, chunk) <= k < ChunkEnd(c, chunk, recv.Length1) then recv[i, k] else 0
  }

  /** One lock-step round takes Held from round to round + 1. */
  method Round(data: seq<seq<int>>, accum: array2<int>, size: nat, round: nat)
    requires Tensors(data, size) && Sliceable(size, |data|) && round + 1 < |data|
    requires AllHeld(data, accum, size, round)
    modifies accum
    ensures AllHeld(data, accum, size, round + 1)
  {
    var n := |data|;
    var chunk := ChunkSize(size, n);
    var recv := Exchange(accum, round, chunk);
    forall i, k | 0 <= i < n && 0 <= k < size
      ensures StepHolds(data, accum, recv, size, round, i, k)
    {
      StepFacts(data, accum, recv, size, round, i, k);
    }
    label before:
    AddReceived(accum, recv, round, chunk);
    ghost var next := round + 1;
    forall i, k | 0 <= i < n && 0 <= k < size ensures NodeHeld(data, accum, size, next, i, k) {
      ChunkIndexBound(k, size, n);
      assert old@before(StepHolds(data, accum, recv, size, round, i, k));
    }
  }

  /** The element after the round is the element before it plus what will be added. */
  ghost predicate StepHolds(data: seq<seq<int>>, accum: array2<int>, recv: array2<int>, size: nat, round: nat, i: nat,
                            k: nat)
    requires Tensors(data, size) && accum.Length0 == recv.Length0 == |data| && accum.Length1 == recv.Length1 == size
    requires i < |data| && k < size && round < |data|
    reads accum, recv
  {
    ChunkIndexBound(k, size, |data|);
    var chunk := ChunkSize(size, |data|);
    Held(data, round + 1, i, k, chunk) == accum[i, k] + Added(recv, round, chunk, i, k)
  }

  lemma StepFacts(data: seq<seq<int>>, accum: array2<int>, recv: array2<int>, size: nat, round: nat, i: nat, k: nat)
    requires Tensors(data, size) && AllHeld(data, accum, size, round) && round + 1 < |data|
    requires recv.Length0 == |data| && recv.Length1 == size && i < |data| && k < size
    requires recv[i, k] == Received(accum, round, ChunkSize(size, |data|), i, k)
    ensures StepHolds(data, accum, recv, size, round, i, k)
  {
    var n, chunk := |data|, ChunkSize(size, |data|);
    ChunkIndexBound(k, size, n);
    assert NodeHeld(data, accum, size, round, i, k);
    assert NodeHeld(data, accum, size, round, Left(i, n), k);
    HeldStep(data, round, i, k, chunk);
    InChunk(k, RecvChunk(i, round, n), chunk, size);
  }

  /**
   * reduceScatter at every node.  Afterwards element k at node i is the sum from
   * the home node of k's chunk round to i.
   */
  method ReduceScatter(data: seq<seq<int>>, size: nat) returns (accum: array2<int>)
    requires Tensors(data, size) && Sliceable(size, |data|)
    ensures fresh(accum) && AllHeld(data, accum, size, |data| - 1)
  {
    var n := |data|;
    accum := new int[n, size]((i, k) requires 0 <= i < n && 0 <= k < size => data[i][k]);
    forall i, k | 0 <= i < n && 0 <= k < size ensures NodeHeld(data, accum, size, 0, i, k) {
      ChunkIndexBound(k, size, n);
      HeldAtStart(data, i, k, ChunkSize(size, n));
    }
    for round := 0 to n - 1
      invariant AllHeld(data, accum, size, round)
    {
      Round(data, accum, size, round);
    }
  }

  /** Node i ends up owning chunk (i + 1) mod N: there it holds the sum over all nodes. */
  lemma OwnedChunk(data: seq<seq<int>>, accum: array2<int>, size: nat, i: nat, k: nat)
    requires Tensors(data, size) && i < |data| && k < size && AllHeld(data, accum, size, |data| - 1)
    requires ChunkSize(size, |data|) > 0 && k / ChunkSize(size, |data|) == (i + 1) % |data|
    ensures accum[i, k] == Total(data, k)
  {
    assert NodeHeld(data, accum, size, |data| - 1, i, k);
    ModBelowTwice(i + 1, |data|);
    FullCircle(data, (i + 1) % |data|, k);
  }

  /** The sum over all nodes but one. */
  function Others(data: seq<seq<int>>, i: nat, k: nat): int
    requires Tensors(data, if |data| > 0 then |data[0]| else 0) && i < |data| && k < |data[0]|
  {
    RingSum(data, (i + 1) % |data|, |data| - 1, k)
  }

  lemma OthersAndOwn(data: seq<seq<int>>, i: nat, k: nat)
    requires Tensors(data, if |data| > 0 then |data[0]| else 0) && i < |data| && k < |data[0]|
    ensures Total(data, k) == Others(data, i, k) + data[i][k]
  {
    var next := (i + 1) % |data|;
    ModBelowTwice(i + 1, |data|);
    FullCircle(data, next, k);
  }

  /**
   * The slice the source returns is chunk i of node i, and that is its own
   * input: fully reduced exactly when the other nodes' elements sum to zero.
   */
  lemma ReturnedChunk(data: seq<seq<int>>, accum: array2<int>, size: nat, i: nat, k: nat)
    requires Tensors(data, size) && i < |data| && k < size && AllHeld(data, accum, size, |data| - 1)
    requires ChunkStart(i, ChunkSize(size, |data|)) <= k < ChunkEnd(i, ChunkSize(size, |data|), size)
    ensures accum[i, k] == data[i][k]
    ensures accum[i, k] == Total(data, k) <==> Others(data, i, k) == 0
  {
    var n, chunk := |data|, ChunkSize(size, |data|);
    assert NodeHeld(data, accum, size, n - 1, i, k);
    ChunkIndexBound(k, size, n);
    InChunk(k, i, chunk, size);
    HeldAtStart(data, i, k, chunk);
    OthersAndOwn(data, i, k);
  }

  /** Two nodes with the elements 1 and 2: node 0 returns 1, and the sum is 3. */
  lemma TwoNodesDiffer(accum: array2<int>)
    requires AllHeld([[1], [2]], accum, 1, 1)
    ensures accum[0, 0] == 1 && Total([[1], [2]], 0) == 3
  {
    var data := [[1], [2]];
    assert RingSum(data, 1, 1, 0) == RingSum(data, 1, 0, 0) + data[1][0];
    OthersAndOwn(data, 0, 0);
    assert ChunkSize(1, 2) == 1;
    ReturnedChunk(data, accum, 1, 0, 0);
  }
}
