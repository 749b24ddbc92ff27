/** The committed root hash identifies the contents (internal/state/mpt/trie_test.go:67-90). */
module TrieRoots {
  import opened Wrappers
  import opened Nibbles
  import opened TrieNode
  import opened TrieRefinement
  import opened TrieCanonical
  import opened NodeCodec
  import opened TrieCommit

  // ---- Sizes ----

  /** No path through the tree is longer than d, and every value length fits four bytes. */
  ghost predicate Fits(n: Node, d: nat) {
    match n
    case Nil => true
    case Ref(_) => false
    case Leaf(suffix, value, _) => |suffix| <= d && |ValueBytes(value)| < 0x1_0000_0000
    case Ext(prefix, next, _) => |prefix| <= d && Fits(next, d - |prefix|)
    case Branch(children, value, _) =>
      && d > 0
      && |ValueBytes(value)| < 0x1_0000_0000
      && forall i :: 0 <= i < |children| ==> Fits(children[i], d - 1)
  }

  lemma {:induction false} FitsSized(n: Node, d: nat)
    requires Fits(n, d) && d < 0x1_0000
    ensures Sized(n)
  {
    match n
    case Ext(prefix, next, _) => FitsSized(next, d - |prefix|);
    case Branch(children, _, _) =>
      forall i | 0 <= i < |children| ensures Sized(children[i]) {
        FitsSized(children[i], d - 1);
      }
    case _ =>
  }

  lemma ExtendFits(r: Node, prefix: Path, branch: Node, d: nat)
    requires branch.Branch? && WellFormed(branch) && |prefix| <= d && Fits(branch, d - |prefix|)
    requires r == Extend(prefix, branch)
    ensures Fits(r, d)
  {
  }

  lemma HangFits(branch: Node, rest: Path, value: Value, d: nat)
    requires branch.Branch? && WellFormed(branch) && Fits(branch, d) && |rest| <= d
    requires |ValueBytes(value)| < 0x1_0000_0000
    ensures Fits(Hang(branch, rest, value), d)
  {
  }

  lemma HangExtFits(branch: Node, rest: Path, next: Node, d: nat)
    requires branch.Branch? && WellFormed(branch) && Fits(branch, d)
    requires 0 < |rest| <= d && WellFormed(next) && Fits(next, d - |rest|)
    ensures Fits(HangExt(branch, rest, next), d)
  {
  }

  lemma SplitFits(n: Node, key: Path, value: Value, d: nat)
    requires WellFormed(n) && Fits(n, d) && |key| <= d && |ValueBytes(value)| < 0x1_0000_0000
    requires (n.Leaf? && n.suffix != key) || (n.Ext? && Common(n.prefix, key) != |n.prefix|)
    ensures Fits(Insert(map[], n, key, value), d)
  {
    match n
    case Leaf(suffix, was, _) =>
      var p := Common(suffix, key);
      SplitAt(key, key[..p]);
      SplitAt(suffix, suffix[..p]);
      HangFits(NewBranch(), suffix[p..], was, d - p);
      var branch := Hang(NewBranch(), suffix[p..], was);
      HangFits(branch, key[p..], value, d - p);
      ExtendFits(Insert(map[], n, key, value), key[..p], Hang(branch, key[p..], value), d);
    case Ext(prefix, next, _) =>
      var p := Common(prefix, key);
      HangExtFits(NewBranch(), prefix[p..], next, d - p);
      var branch := HangExt(NewBranch(), prefix[p..], next);
      HangFits(branch, key[p..], value, d - p);
      ExtendFits(Insert(map[], n, key, value), prefix[..p], Hang(branch, key[p..], value), d);
  }

  lemma {:induction false} InsertFits(n: Node, key: Path, value: Value, d: nat)
    requires WellFormed(n) && Fits(n, d) && |key| <= d && |ValueBytes(value)| < 0x1_0000_0000
    ensures Fits(Insert(map[], n, key, value), d)
  {
    match n
    case Nil =>
    case Leaf(suffix, _, _) =>
      if suffix != key {
        SplitFits(n, key, value, d);
      }
    case Ext(prefix, next, _) =>
      if Common(prefix, key) == |prefix| {
        InsertFits(next, key[|prefix|..], value, d - |prefix|);
      } else {
        SplitFits(n, key, value, d);
      }
    case Branch(children, _, _) =>
      if key != [] {
        InsertFits(children[key[0]], key[1..], value, d - 1);
      }
  }

  lemma CompactFits(n: Node, d: nat)
    requires n.Branch? && WellFormed(n) && Fits(n, d)
    ensures Fits(Compact(n), d)
  {
    if n.value.None? && Live(n.children) == 1 {
      assert Fits(n.children[FirstLive(n.children)], d - 1);
    }
  }

  lemma MergeFits(n: Node, d: nat)
    requires n.Ext? && WellFormed(n) && Fits(n, d)
    ensures Fits(Merge(n), d)
  {
    assert Fits(n.next, d - |n.prefix|);
  }

  lemma {:induction false} DeleteFits(n: Node, key: Path, d: nat)
    requires WellFormed(n) && Fits(n, d)
    ensures Fits(Delete(map[], n, key), d)
  {
    match n
    case Nil | Leaf(_, _, _) =>
    case Ext(prefix, next, meta) =>
      if Common(prefix, key) == |prefix| {
        DeleteFits(next, key[|prefix|..], d - |prefix|);
        MergeFits(Ext(prefix, Delete(map[], next, key[|prefix|..]), Dirty(meta)), d);
      }
    case Branch(children, was, meta) =>
      if key == [] {
        CompactFits(Branch(children, None, Dirty(meta)), d);
      } else {
        DeleteFits(children[key[0]], key[1..], d - 1);
        CompactFits(Branch(children[key[0] := Delete(map[], children[key[0]], key[1..])], was, Dirty(meta)), d);
      }
  }

  /** Keys and values whose lengths the encoding can write: paths under 2^16 nibbles, values under 4 GB. */
  ghost predicate Encodable(ops: seq<Op>) {
    forall i :: 0 <= i < |ops| && ops[i].Put? ==> |ops[i].key| < 0x8000 && |ops[i].value| < 0x1_0000_0000
  }

  lemma {:induction false} RunFits(ops: seq<Op>)
    requires Encodable(ops)
    ensures Fits(Run(ops), 0xFFFE) && Sized(Run(ops))
  {
    if ops != [] {
      var before := ops[..|ops| - 1];
      RunFits(before);
      match ops[|ops| - 1]
      case Put(key, value) => InsertFits(Run(before), ToPath(key), Some(value), 0xFFFE);
      case Del(key) => DeleteFits(Run(before), ToPath(key), 0xFFFE);
    }
    FitsSized(Run(ops), 0xFFFE);
  }

  // ---- Shape determines the root, the root determines the contents ----

  lemma {:induction false} SameShapeSameHash(H: Hasher, a: Node, b: Node)
    requires SameShape(a, b)
    ensures RootHash(H, a) == RootHash(H, b)
  {
    match (a, b)
    case (Ext(_, m, _), Ext(_, n, _)) => SameShapeSameHash(H, m, n);
    case (Branch(cs, _, _), Branch(ds, _, _)) =>
      forall i | 0 <= i < |cs| ensures RootHash(H, cs[i]) == RootHash(H, ds[i]) {
        SameShapeSameHash(H, cs[i], ds[i]);
      }
      assert ChildHashes(H, cs) == ChildHashes(H, ds);
    case _ =>
  }

  lemma {:induction false} NormalNilFree(n: Node)
    requires Canonical(n)
    ensures NilFree(n)
  {
    match n
    case Ext(_, next, _) => NormalNilFree(next);
    case Branch(children, _, _) =>
      forall i | 0 <= i < |children| ensures NilFree(children[i]) {
        NormalNilFree(children[i]);
      }
    case _ =>
  }

  /** A store holding exactly the given blobs. */
  ghost function StoreOf(H: Hasher, blobs: set<Bytes>): Storage
    requires CollisionFree(H, blobs)
  {
    map b | b in blobs :: H(b) := b
  }

  lemma {:induction false} StoreOfStores(H: Hasher, blobs: set<Bytes>, n: Node)
    requires CollisionFree(H, blobs) && Blobs(H, n) <= blobs
    ensures Stored(H, StoreOf(H, blobs), n)
  {
    match n
    case Nil | Ref(_) =>
    case Leaf(_, _, _) => assert Blob(H, n) in blobs;
    case Ext(_, next, _) =>
      assert Blob(H, n) in blobs;
      StoreOfStores(H, blobs, next);
    case Branch(children, _, _) =>
      assert Blob(H, n) in blobs;
      forall i | 0 <= i < |children| ensures Stored(H, StoreOf(H, blobs), children[i]) {
        ChildBlobs(H, n, i);
        StoreOfStores(H, blobs, children[i]);
      }
  }

  lemma {:induction false} BlobsWellFormed(H: Hasher, n: Node, b: Bytes)
    requires WellFormed(n) && Sized(n) && b in Blobs(H, n)
    ensures Decode(b).Some? && WellFormed(Decode(b).value) && !Decode(b).value.Ref?
  {
    if b == Blob(H, n) {
      BlobDecodes(H, n);
    } else {
      match n
      case Ext(_, next, _) => BlobsWellFormed(H, next, b);
      case Branch(children, _, _) =>
        var i :| 0 <= i < |children| && b in Blobs(H, children[i]);
        BlobsWellFormed(H, children[i], b);
    }
  }

  /** Trees with the same root hash hold the same contents, unless two of their blobs collide. */
  lemma RootDeterminesContents(H: Hasher, a: Node, b: Node, q: Path)
    requires WellFormed(a) && Sized(a) && NilFree(a) && Known(map[], a)
    requires WellFormed(b) && Sized(b) && NilFree(b) && Known(map[], b)
    requires CollisionFree(H, Blobs(H, a) + Blobs(H, b)) && RootHash(H, a) == RootHash(H, b)
    ensures Get(map[], a, q) == Get(map[], b, q)
  {
    var blobs := Blobs(H, a) + Blobs(H, b);
    var s := StoreOf(H, blobs);
    StoreOfStores(H, blobs, a);
    StoreOfStores(H, blobs, b);
    forall h | h in Decoded(s) ensures WellFormed(Decoded(s)[h]) && !Decoded(s)[h].Ref? {
      if s[h] in Blobs(H, a) {
        BlobsWellFormed(H, a, s[h]);
      } else {
        BlobsWellFormed(H, b, s[h]);
      }
    }
    ReopenGet(H, s, a, q);
    ReopenGet(H, s, b, q);
    assert Decoded(map[]) == map[];
    GetGrows(map[], s, a, q);
    GetGrows(map[], s, b, q);
  }

  lemma {:induction false} FitsKnown(n: Node, d: nat)
    requires Fits(n, d)
    ensures Known(map[], n)
  {
    match n
    case Ext(prefix, next, _) => FitsKnown(next, d - |prefix|);
    case Branch(children, _, _) =>
      forall i | 0 <= i < |children| ensures Known(map[], children[i]) {
        FitsKnown(children[i], d - 1);
      }
    case _ =>
  }

  /**
   * Two histories commit to the same root hash if and only if they describe the
   * same map: equal contents always, and different contents never, unless
   * SHA-256 collides on one of the blobs written.
   */
  lemma RootHashIsContents(H: Hasher, a: seq<Op>, b: seq<Op>)
    requires Tidy(a) && Tidy(b) && Encodable(a) && Encodable(b)
    requires CollisionFree(H, Blobs(H, Run(a)) + Blobs(H, Run(b)))
    ensures RootHash(H, Run(a)) == RootHash(H, Run(b)) <==> RunMap(a) == RunMap(b)
  {
    if RunMap(a) == RunMap(b) {
      HistoryIndependent(a, b);
      SameShapeSameHash(H, Run(a), Run(b));
    }
    if RootHash(H, Run(a)) == RootHash(H, Run(b)) {
      RunFits(a);
      RunFits(b);
      FitsKnown(Run(a), 0xFFFE);
      FitsKnown(Run(b), 0xFFFE);
      TidyCanonical(a);
      TidyCanonical(b);
      NormalNilFree(Run(a));
      NormalNilFree(Run(b));
      forall k ensures Lookup(RunMap(a), k) == Lookup(RunMap(b), k) {
        RootDeterminesContents(H, Run(a), Run(b), ToPath(k));
        HistoryRefinesMap(a, k);
        HistoryRefinesMap(b, k);
      }
      LookupsDetermineMap(RunMap(a), RunMap(b));
    }
  }

  /** Where a delete has stranded a branch, the root hash tells: same map, another root, unless the blobs collide. */
  lemma UntidyRootsDiffer(H: Hasher, key: Bytes, v: Bytes, w: Bytes)
    requires key != []
    requires CollisionFree(H, Blobs(H, Run([Put([], v), Put(key, w), Del(key)])) + Blobs(H, Run([Put([], v)])))
    ensures RunMap([Put([], v), Put(key, w), Del(key)]) == RunMap([Put([], v)])
    ensures RootHash(H, Run([Put([], v), Put(key, w), Del(key)])) != RootHash(H, Run([Put([], v)]))
  {
    UntidyHistoryDiffers(key, v, w);
    BlobKinds(H, Run([Put([], v), Put(key, w), Del(key)]), Run([Put([], v)]));
  }

  lemma BlobKinds(H: Hasher, branch: Node, leaf: Node)
    requires branch.Branch? && leaf.Leaf? && CollisionFree(H, Blobs(H, branch) + Blobs(H, leaf))
    ensures RootHash(H, branch) != RootHash(H, leaf)
  {
    assert Blob(H, branch)[0] == 3 && Blob(H, leaf)[0] == 1;
    assert Blob(H, branch) in Blobs(H, branch) && Blob(H, leaf) in Blobs(H, leaf);
  }

  lemma LookupsDetermineMap(m: map<Bytes, Bytes>, w: map<Bytes, Bytes>)
    requires forall k :: Lookup(m, k) == Lookup(w, k)
    ensures m == w
  {
    forall k ensures k in m <==> k in w {
      assert Lookup(m, k) == Lookup(w, k);
    }
    forall k | k in m ensures m[k] == w[k] {
      assert Lookup(m, k) == Lookup(w, k);
    }
  }
}
