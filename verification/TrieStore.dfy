/**
 * The node database and the trie object (internal/state/mpt/database.go, trie.go):
 * the cached dirty flags, commitNode, and commit followed by reopen.
 */
module TrieStore {
  import opened Wrappers
  import opened Nibbles
  import opened TrieNode
  import opened TrieRefinement
  import opened NodeCodec
  import opened TrieCommit
  import opened TrieCanonical
  import opened TrieReads
  import opened TriePages

  // ---- Cached hashes ----

  /** commitNode's test: the cached hash may be used as it is. */
  predicate Clean(meta: Meta) {
    !meta.dirty && meta.valid
  }

  /** A clean node's cached hash is its hash, and its blob is filed. */
  ghost predicate CacheRight(H: Hasher, s: Storage, n: Node)
    requires n.Leaf? || n.Ext? || n.Branch?
  {
    Clean(n.meta) ==> n.meta.cache == RootHash(H, n) && Filed(H, s, n)
  }

  /** Invariant of trees in memory: references are stored, and clean caches are right. */
  ghost predicate Anchored(H: Hasher, s: Storage, n: Node) {
    match n
    case Nil => true
    case Ref(_) => Known(s, n)
    case Leaf(_, _, _) => CacheRight(H, s, n)
    case Ext(_, next, _) => CacheRight(H, s, n) && Anchored(H, s, next)
    case Branch(children, _, _) =>
      CacheRight(H, s, n) && forall i :: 0 <= i < |children| ==> Anchored(H, s, children[i])
  }

  lemma {:induction false} AnchoredKnown(H: Hasher, s: Storage, n: Node)
    requires Anchored(H, s, n)
    ensures Known(s, n)
  {
    match n
    case Ext(_, next, _) => AnchoredKnown(H, s, next);
    case Branch(children, _, _) =>
      forall i | 0 <= i < |children| ensures Known(s, children[i]) {
        AnchoredKnown(H, s, children[i]);
      }
    case _ =>
  }

  lemma {:induction false} AnchoredGrows(H: Hasher, s: Storage, t: Storage, n: Node)
    requires Extends(s, t) && Anchored(H, s, n)
    ensures Anchored(H, t, n)
  {
    match n
    case Ref(_) => KnownGrows(s, t, n);
    case Ext(_, next, _) => AnchoredGrows(H, s, t, next);
    case Branch(children, _, _) =>
      forall i | 0 <= i < |children| ensures Anchored(H, t, children[i]) {
        AnchoredGrows(H, s, t, children[i]);
      }
    case _ =>
  }

  /** A node's hash is the hash of its encoding. */
  lemma HashOfBlob(H: Hasher, n: Node)
    requires n.Leaf? || n.Ext? || n.Branch?
    ensures RootHash(H, n) == H(Blob(H, n))
  {
  }

  /** A freshly decoded node has no cached hash and only references below it. */
  lemma DecodedShallow(b: Bytes)
    ensures Decode(b).Some? ==> match Decode(b).value
                                case Nil => true
                                case Ref(_) => false
                                case Leaf(_, _, meta) => meta == LOADED
                                case Ext(_, next, meta) => meta == LOADED && next.Ref?
                                case Branch(children, _, meta) =>
                                  meta == LOADED && |children| == 16
                                  && forall i :: 0 <= i < 16 ==> children[i].Nil? || children[i].Ref?
  {
  }

  lemma ResolvedAnchored(H: Hasher, s: Storage, h: Hash)
    requires Sound(H, s) && Resolve(Decoded(s), h).Some?
    ensures Anchored(H, s, Resolve(Decoded(s), h).value)
    ensures RootHash(H, Resolve(Decoded(s), h).value) == h && Stored(H, s, Resolve(Decoded(s), h).value)
  {
    if h != EMPTY_HASH {
      DecodedShallow(s[h]);
      HashOfBlob(H, Decoded(s)[h]);
      assert Known(s, Decoded(s)[h]);
    }
  }

  lemma HangAnchored(H: Hasher, s: Storage, branch: Node, rest: Path, value: Value)
    requires branch.Branch? && WellFormed(branch) && branch.meta == FRESH && Anchored(H, s, branch)
    ensures Anchored(H, s, Hang(branch, rest, value)) && Hang(branch, rest, value).meta == FRESH
  {
  }

  lemma HangExtAnchored(H: Hasher, s: Storage, branch: Node, rest: Path, next: Node)
    requires branch.Branch? && WellFormed(branch) && branch.meta == FRESH && Anchored(H, s, branch)
    requires rest != [] && WellFormed(next) && Anchored(H, s, next)
    ensures Anchored(H, s, HangExt(branch, rest, next)) && HangExt(branch, rest, next).meta == FRESH
  {
  }

  lemma SplitAnchored(H: Hasher, s: Storage, n: Node, key: Path, value: Value)
    requires Sound(H, s) && WellFormed(n) && Anchored(H, s, n)
    requires (n.Leaf? && n.suffix != key) || (n.Ext? && Common(n.prefix, key) != |n.prefix|)
    ensures Anchored(H, s, Insert(Decoded(s), n, key, value))
  {
    assert Anchored(H, s, NewBranch());
    match n
    case Leaf(suffix, was, _) =>
      var p := Common(suffix, key);
      HangAnchored(H, s, NewBranch(), suffix[p..], was);
      HangAnchored(H, s, Hang(NewBranch(), suffix[p..], was), key[p..], value);
    case Ext(prefix, next, _) =>
      var p := Common(prefix, key);
      HangExtAnchored(H, s, NewBranch(), prefix[p..], next);
      HangAnchored(H, s, HangExt(NewBranch(), prefix[p..], next), key[p..], value);
  }

  /** insert marks every changed node dirty, so cached hashes stay right. */
  lemma {:induction false} InsertAnchored(H: Hasher, s: Storage, n: Node, key: Path, value: Value)
    requires Sound(H, s) && WellFormed(n) && Anchored(H, s, n)
    ensures Anchored(H, s, Insert(Decoded(s), n, key, value))
    decreases |key|, Weight(n)
  {
    var db := Decoded(s);
    match n
    case Nil =>
    case Leaf(suffix, _, _) =>
      if suffix != key {
        SplitAnchored(H, s, n, key, value);
      }
    case Ref(h) =>
      var resolved := Resolve(db, h);
      if resolved.Some? {
        ResolvedAnchored(H, s, h);
        InsertAnchored(H, s, resolved.value, key, value);
      }
    case Ext(prefix, next, _) =>
      if Common(prefix, key) == |prefix| {
        InsertAnchored(H, s, next, key[|prefix|..], value);
      } else {
        SplitAnchored(H, s, n, key, value);
      }
    case Branch(children, _, _) =>
      if key != [] {
        InsertAnchored(H, s, children[key[0]], key[1..], value);
      }
  }

  lemma CompactAnchored(H: Hasher, s: Storage, n: Node)
    requires n.Branch? && WellFormed(n) && n.meta.dirty
    requires forall i :: 0 <= i < 16 ==> Anchored(H, s, n.children[i])
    ensures Anchored(H, s, Compact(n))
  {
    if n.value.None? && Live(n.children) == 1 {
      assert Anchored(H, s, n.children[FirstLive(n.children)]);
    }
  }

  lemma MergeAnchored(H: Hasher, s: Storage, n: Node)
    requires n.Ext? && WellFormed(n) && n.meta.dirty && Anchored(H, s, n.next)
    ensures Anchored(H, s, Merge(n))
  {
  }

  lemma {:induction false} DeleteAnchored(H: Hasher, s: Storage, n: Node, key: Path)
    requires Sound(H, s) && WellFormed(n) && Anchored(H, s, n)
    ensures Anchored(H, s, Delete(Decoded(s), n, key))
    decreases |key|, Weight(n)
  {
    var db := Decoded(s);
    match n
    case Nil | Leaf(_, _, _) =>
    case Ref(h) =>
      if Resolve(db, h).Some? {
        ResolvedAnchored(H, s, h);
        DeleteAnchored(H, s, Resolve(db, h).value, key);
      }
    case Ext(prefix, next, meta) =>
      if Common(prefix, key) == |prefix| {
        DeleteAnchored(H, s, next, key[|prefix|..]);
        MergeAnchored(H, s, Ext(prefix, Delete(db, next, key[|prefix|..]), Dirty(meta)));
      }
    case Branch(children, was, meta) =>
      if key == [] {
        CompactAnchored(H, s, Branch(children, None, Dirty(meta)));
      } else {
        DeleteAnchored(H, s, children[key[0]], key[1..]);
        CompactAnchored(H, s, Branch(children[key[0] := Delete(db, children[key[0]], key[1..])], was, Dirty(meta)));
      }
  }

  /** A read that skips nothing keeps the hash, the caches and what is stored. */
  lemma {:induction false} VisitAnchored(H: Hasher, s: Storage, n: Node, key: Path)
    requires Sound(H, s) && WellFormed(n) && Anchored(H, s, n) && !Skips(Decoded(s), n, key)
    ensures RootHash(H, Visit(Decoded(s), n, key)) == RootHash(H, n)
    ensures Anchored(H, s, Visit(Decoded(s), n, key))
    ensures Stored(H, s, n) ==> Stored(H, s, Visit(Decoded(s), n, key))
    decreases |key|, Weight(n)
  {
    var db := Decoded(s);
    match n
    case Nil | Leaf(_, _, _) =>
    case Ref(h) =>
      if Resolve(db, h).Some? {
        ResolvedAnchored(H, s, h);
        VisitAnchored(H, s, Resolve(db, h).value, key);
      }
    case Ext(prefix, _, _) =>
      CommonIsPrefix(prefix, key);
    case Branch(children, value, meta) =>
      if key != [] {
        var child := Visit(db, children[key[0]], key[1..]);
        VisitAnchored(H, s, children[key[0]], key[1..]);
        assert ChildHashes(H, children[key[0] := child]) == ChildHashes(H, children);
      }
  }

  lemma {:induction false} ReadAnchored(H: Hasher, s: Storage, n: Node, key: Path)
    requires Sound(H, s) && WellFormed(n) && Anchored(H, s, n) && !Damages(Decoded(s), n, key)
    ensures RootHash(H, AfterGet(Decoded(s), n, key)) == RootHash(H, n)
    ensures Anchored(H, s, AfterGet(Decoded(s), n, key))
    ensures Stored(H, s, n) ==> Stored(H, s, AfterGet(Decoded(s), n, key))
    decreases |key|, Weight(n)
  {
    match n
    case Nil | Leaf(_, _, _) =>
    case Ref(h) =>
      if Resolve(Decoded(s), h).Some? {
        ResolvedAnchored(H, s, h);
        ReadAnchored(H, s, Resolve(Decoded(s), h).value, key);
      }
    case Ext(prefix, next, _) =>
      CommonIsPrefix(prefix, key);
      if prefix <= key {
        ReadAnchored(H, s, next, key[|prefix|..]);
      }
    case Branch(_, _, _) =>
      VisitAnchored(H, s, n, key);
  }

  // ---- Filing one blob ----

  /** Children are filed, so a reference to each of them resolves. */
  lemma StoredKnown(H: Hasher, s: Storage, n: Node)
    requires WellFormed(n) && Sized(n) && Stored(H, s, n) && Known(s, n)
    ensures Known(s, Ref(RootHash(H, n)))
  {
    match n
    case Nil | Ref(_) =>
    case Leaf(_, _, _) => BlobDecodes(H, n);
    case Ext(_, _, _) => BlobDecodes(H, n);
    case Branch(_, _, _) => BlobDecodes(H, n);
  }

  /** Children below a node are filed and their references resolve. */
  ghost predicate ChildrenReady(H: Hasher, s: Storage, n: Node)
    requires n.Leaf? || n.Ext? || n.Branch?
  {
    match n
    case Leaf(_, _, _) => true
    case Ext(_, next, _) => Known(s, Ref(RootHash(H, next)))
    case Branch(children, _, _) =>
      forall i :: 0 <= i < |children| ==> Known(s, Ref(RootHash(H, children[i])))
  }

  lemma ShallowSameBlob(H: Hasher, n: Node)
    requires n.Leaf? || n.Ext? || n.Branch?
    ensures Blob(H, Shallow(H, n)) == Blob(H, n)
  {
    if n.Branch? {
      assert ChildHashes(H, Shallow(H, n).children) == ChildHashes(H, n.children);
    }
  }

  lemma DecodedPut(s: Storage, h: Hash, b: Bytes, n: Node)
    requires Decode(b) == Some(n)
    ensures Decoded(s[h := b]) == Decoded(s)[h := n]
  {
  }

  /** All blobs in the store are among the given ones. */
  ghost predicate Within(s: Storage, universe: set<Bytes>) {
    forall h :: h in s ==> s[h] in universe
  }

  lemma PutExtends(H: Hasher, s: Storage, h: Hash, b: Bytes, universe: set<Bytes>)
    requires Addressed(H, s) && h == H(b)
    requires Within(s, universe) && b in universe && CollisionFree(H, universe)
    ensures Extends(s, s[h := b]) && Addressed(H, s[h := b]) && Within(s[h := b], universe)
  {
  }

  lemma PutClosed(s: Storage, h: Hash, b: Bytes, n: Node)
    requires Closed(s) && Extends(s, s[h := b]) && Decode(b) == Some(n) && Known(s, n)
    ensures Closed(s[h := b])
  {
    var t := s[h := b];
    forall k | k in Decoded(t) ensures Known(t, Decoded(t)[k]) {
      if k != h {
        assert k in Decoded(s) && Decoded(s)[k] == Decoded(t)[k];
      }
      KnownGrows(s, t, Decoded(t)[k]);
    }
  }

  lemma PutWellFormed(s: Storage, h: Hash, b: Bytes, n: Node)
    requires WellFormedMap(Decoded(s)) && Decode(b) == Some(n) && WellFormed(n) && !n.Ref?
    ensures WellFormedMap(Decoded(s[h := b]))
  {
    DecodedPut(s, h, b, n);
  }

  lemma PutFaithful(H: Hasher, s: Storage, h: Hash, b: Bytes, n: Node)
    requires Faithful(H, s) && Decode(b) == Some(n)
    requires (n.Leaf? || n.Ext? || n.Branch?) && Blob(H, n) == b
    ensures Faithful(H, s[h := b])
  {
    DecodedPut(s, h, b, n);
  }

  /** Filing a blob that decodes to a node with known references keeps the store sound. */
  lemma FileSound(H: Hasher, s: Storage, h: Hash, b: Bytes, n: Node, universe: set<Bytes>)
    requires Sound(H, s) && h == H(b) && Decode(b) == Some(n)
    requires WellFormed(n) && (n.Leaf? || n.Ext? || n.Branch?) && Blob(H, n) == b && Known(s, n)
    requires Within(s, universe) && b in universe && CollisionFree(H, universe)
    ensures Sound(H, s[h := b]) && Extends(s, s[h := b]) && Within(s[h := b], universe)
  {
    PutExtends(H, s, h, b, universe);
    PutClosed(s, h, b, n);
    PutWellFormed(s, h, b, n);
    PutFaithful(H, s, h, b, n);
  }

  lemma ReadyKnown(H: Hasher, s: Storage, n: Node)
    requires (n.Leaf? || n.Ext? || n.Branch?) && WellFormed(n) && ChildrenReady(H, s, n)
    ensures Known(s, Shallow(H, n)) && WellFormed(Shallow(H, n))
  {
  }

  /** PutNode of a node whose children are ready keeps the store sound and loses nothing. */
  lemma PutNodeSound(H: Hasher, s: Storage, n: Node, universe: set<Bytes>)
    requires Sound(H, s) && (n.Leaf? || n.Ext? || n.Branch?) && WellFormed(n) && Sized(n)
    requires ChildrenReady(H, s, n)
    requires Within(s, universe) && Blob(H, n) in universe && CollisionFree(H, universe)
    ensures Sound(H, s[RootHash(H, n) := Blob(H, n)]) && Extends(s, s[RootHash(H, n) := Blob(H, n)])
    ensures Within(s[RootHash(H, n) := Blob(H, n)], universe)
  {
    BlobDecodes(H, n);
    ShallowSameBlob(H, n);
    ReadyKnown(H, s, n);
    assert RootHash(H, n) == H(Blob(H, n));
    FileSound(H, s, RootHash(H, n), Blob(H, n), Shallow(H, n), universe);
  }

  // ---- The committed tree ----

  /** Flags after a commit. */
  function Committed(h: Hash): Meta {
    Meta(false, true, h)
  }

  /** The tree commitNode leaves in memory: a branch keeps only references. */
  ghost function AfterCommit(H: Hasher, n: Node): Node {
    match n
    case Nil | Ref(_) => n
    case Leaf(suffix, value, _) => Leaf(suffix, value, Committed(RootHash(H, n)))
    case Ext(prefix, next, _) => Ext(prefix, AfterCommit(H, next), Committed(RootHash(H, n)))
    case Branch(children, value, _) => Branch(Refs(H, children), value, Committed(RootHash(H, n)))
  }

  ghost function Refs(H: Hasher, children: seq<Node>): (refs: seq<Node>)
    ensures |refs| == |children|
  {
    seq(|children|, i requires 0 <= i < |children| =>
      if children[i].Nil? then Nil else Ref(RootHash(H, children[i])))
  }

  lemma {:induction false} AfterCommitSameHash(H: Hasher, n: Node)
    ensures RootHash(H, AfterCommit(H, n)) == RootHash(H, n)
    ensures WellFormed(n) ==> WellFormed(AfterCommit(H, n))
    ensures Sized(n) ==> Sized(AfterCommit(H, n))
  {
    match n
    case Ext(_, next, _) => AfterCommitSameHash(H, next);
    case Branch(children, _, _) =>
      assert ChildHashes(H, Refs(H, children)) == ChildHashes(H, children);
    case _ =>
  }

  lemma {:induction false} AfterCommitAnchored(H: Hasher, s: Storage, n: Node)
    requires WellFormed(n) && Sized(n) && Stored(H, s, n) && Known(s, n)
    ensures Anchored(H, s, AfterCommit(H, n))
  {
    AfterCommitSameHash(H, n);
    match n
    case Ext(prefix, next, _) =>
      AfterCommitAnchored(H, s, next);
      AfterCommitSameHash(H, next);
    case Branch(children, _, _) =>
      assert ChildHashes(H, Refs(H, children)) == ChildHashes(H, children);
      forall i | 0 <= i < 16 ensures Anchored(H, s, Refs(H, children)[i]) {
        StoredKnown(H, s, children[i]);
      }
    case _ =>
  }

  lemma {:induction false} AfterCommitStored(H: Hasher, s: Storage, n: Node)
    requires Stored(H, s, n)
    ensures Stored(H, s, AfterCommit(H, n))
  {
    match n
    case Ext(_, next, _) =>
      AfterCommitStored(H, s, next);
      AfterCommitSameHash(H, next);
    case Branch(children, _, _) =>
      assert ChildHashes(H, Refs(H, children)) == ChildHashes(H, children);
    case _ =>
  }

  /** The tree left in memory reads like the one that was committed. */
  lemma {:induction false} AfterCommitGet(H: Hasher, s: Storage, n: Node, q: Path)
    requires WellFormed(n) && Sized(n) && Stored(H, s, n) && NonEmptyHashes(H, n) && NilFree(n)
    requires WellFormedMap(Decoded(s)) && WellFormed(AfterCommit(H, n))
    ensures Get(Decoded(s), AfterCommit(H, n), q) == Get(Decoded(s), n, q)
    decreases n
  {
    match n
    case Nil | Ref(_) | Leaf(_, _, _) =>
    case Ext(prefix, next, _) =>
      if Common(prefix, q) == |prefix| {
        AfterCommitGet(H, s, next, q[|prefix|..]);
      }
    case Branch(children, _, _) =>
      if q != [] {
        ChildBlobs(H, n, q[0]);
        ReopenGet(H, s, children[q[0]], q[1..]);
      }
  }

  // ---- Parts on disk ----

  lemma {:induction false} PagesGrow(s: Storage, t: Storage, a: Node, b: Node)
    requires WellFormedMap(Decoded(s)) && WellFormedMap(Decoded(t)) && Extends(s, t)
    requires WellFormed(a) && WellFormed(b) && Pages(Decoded(s), a, b)
    ensures Pages(Decoded(t), a, b)
    decreases b, Weight(a)
  {
    ExtendsDecoded(s, t);
    match a
    case Nil | Leaf(_, _, _) =>
    case Ref(h) => PagesGrow(s, t, Resolve(Decoded(s), h).value, b);
    case Ext(_, next, _) => PagesGrow(s, t, next, b.next);
    case Branch(children, _, _) =>
      forall i | 0 <= i < 16 ensures Pages(Decoded(t), children[i], b.children[i]) {
        PagesGrow(s, t, children[i], b.children[i]);
      }
  }

  /** A stored tree can be left on disk altogether. */
  lemma {:induction false} StoredPages(H: Hasher, s: Storage, a: Node, b: Node)
    requires WellFormedMap(Decoded(s)) && WellFormed(a) && WellFormed(b) && Pages(Decoded(s), a, b) && Canonical(b)
    requires Stored(H, s, a) && Sized(a) && NonEmptyHashes(H, a)
    ensures Pages(Decoded(s), Ref(RootHash(H, a)), b)
    decreases b, Weight(a)
  {
    match a
    case Nil | Ref(_) =>
    case Leaf(_, _, _) => LoadStored(H, s, a);
    case Ext(_, next, _) =>
      LoadStored(H, s, a);
      StoredPages(H, s, next, b.next);
    case Branch(children, _, _) =>
      LoadStored(H, s, a);
      var table := Children(ChildHashes(H, children));
      forall i | 0 <= i < 16 ensures Pages(Decoded(s), table[i], b.children[i]) {
        ChildBlobs(H, a, i);
        StoredPages(H, s, children[i], b.children[i]);
      }
  }

  /** And so can the children a commit replaces by references. */
  lemma {:induction false} AfterCommitPages(H: Hasher, s: Storage, a: Node, b: Node)
    requires WellFormedMap(Decoded(s)) && WellFormed(a) && WellFormed(b) && Pages(Decoded(s), a, b) && Canonical(b)
    requires Stored(H, s, a) && Sized(a) && NonEmptyHashes(H, a) && WellFormed(AfterCommit(H, a))
    ensures Pages(Decoded(s), AfterCommit(H, a), b)
    decreases a
  {
    match a
    case Nil | Ref(_) | Leaf(_, _, _) =>
    case Ext(_, next, _) =>
      AfterCommitSameHash(H, next);
      AfterCommitPages(H, s, next, b.next);
    case Branch(children, _, _) =>
      forall i | 0 <= i < 16 ensures Pages(Decoded(s), Refs(H, children)[i], b.children[i]) {
        ChildBlobs(H, a, i);
        StoredPages(H, s, children[i], b.children[i]);
      }
  }

  /** A read of a tree as a commit leaves it keeps its contents exactly when it does no damage. */
  lemma CommittedReadKeepsContents(H: Hasher, s: Storage, n: Node, key: Path)
    requires WellFormedMap(Decoded(s)) && WellFormed(n) && Canonical(n)
    requires Stored(H, s, n) && Sized(n) && NonEmptyHashes(H, n)
    ensures WellFormed(AfterCommit(H, n))
    ensures Agree(Decoded(s), AfterCommit(H, n), AfterGet(Decoded(s), AfterCommit(H, n), key))
            <==> !Damages(Decoded(s), AfterCommit(H, n), key)
  {
    AfterCommitSameHash(H, n);
    PagesItself(Decoded(s), n);
    AfterCommitPages(H, s, n, n);
    PagedReadKeepsContents(Decoded(s), AfterCommit(H, n), n, key);
  }

  // ---- The objects ----

  class Database {
    const hash: Hasher
    var storage: Storage
    var cache: NodeMap

    /** The store is sound, and every cached node is the decoding of its blob. */
    ghost predicate Valid()
      reads this
    {
      && Sound(hash, storage)
      && forall h :: h in cache ==> h in Decoded(storage) && cache[h] == Decoded(storage)[h]
    }

    constructor (hash: Hasher)
      ensures Valid() && this.hash == hash && storage == map[] && cache == map[]
    {
      this.hash := hash;
      storage := map[];
      cache := map[];
    }

    /** Loads and decodes a node, through the cache. */
    method GetNode(h: Hash) returns (r: Option<Node>)
      requires Valid()
      modifies this`cache
      ensures Valid() && r == Resolve(Decoded(storage), h)
      ensures r.Some? && h != EMPTY_HASH ==> h in cache
    {
      if h == EMPTY_HASH {
        return Some(Nil);
      }
      if h in cache {
        return Some(cache[h]);
      }
      if h !in storage {
        return None;
      }
      r := Decode(storage[h]);
      if r.Some? {
        cache := cache[h := r.value];
      }
    }

    method FlushCache()
      requires Valid()
      modifies this`cache
      ensures Valid() && cache == map[]
    {
      cache := map[];
    }

    /** Writes the blob of a node whose children are already filed. */
    method PutNode(h: Hash, blob: Bytes, ghost n: Node, ghost universe: set<Bytes>)
      requires Valid() && (n.Leaf? || n.Ext? || n.Branch?) && WellFormed(n) && Sized(n)
      requires h == RootHash(hash, n) && blob == Blob(hash, n) && ChildrenReady(hash, storage, n)
      requires Within(storage, universe) && blob in universe && CollisionFree(hash, universe)
      modifies this`storage
      ensures Valid() && storage == old(storage)[h := blob]
      ensures Extends(old(storage), storage) && Filed(hash, storage, n)
      ensures Within(storage, universe)
    {
      PutNodeSound(hash, storage, n, universe);
      ExtendsDecoded(storage, storage[h := blob]);
      storage := storage[h := blob];
    }
  }

  /** The hash a node reports without computing it. */
  function CachedHash(n: Node): Hash {
    match n
    case Nil => EMPTY_HASH
    case Ref(h) => h
    case Leaf(_, _, meta) => meta.cache
    case Ext(_, _, meta) => meta.cache
    case Branch(_, _, meta) => meta.cache
  }

  /** cachedHash's second result: the node knows a hash to report. */
  predicate KnowsHash(n: Node) {
    match n
    case Nil | Ref(_) => true
    case Leaf(_, _, meta) => meta.valid
    case Ext(_, _, meta) => meta.valid
    case Branch(_, _, meta) => meta.valid
  }

  /** A hash that is reported counts as right: the node is not dirty. */
  predicate Reports(n: Node) {
    KnowsHash(n) ==> n.Nil? || n.Ref? || Clean(n.meta)
  }

  /** A read leaves that as it is; what it loads reports nothing. */
  lemma ReadReports(s: Storage, n: Node, key: Path)
    requires WellFormedMap(Decoded(s)) && WellFormed(n) && Reports(n)
    ensures Reports(AfterGet(Decoded(s), n, key))
  {
    if n.Ref? && n.hash != EMPTY_HASH && Resolve(Decoded(s), n.hash).Some? {
      DecodedShallow(s[n.hash]);
    }
  }

  /** After a commit every node reports its hash. */
  lemma CachedAfterCommit(H: Hasher, n: Node)
    ensures CachedHash(AfterCommit(H, n)) == RootHash(H, n)
  {
  }

  /** A child is stored, and a reference to it resolves. */
  ghost predicate Ready(H: Hasher, s: Storage, n: Node) {
    Stored(H, s, n) && Known(s, Ref(RootHash(H, n)))
  }

  lemma ReadyGrows(H: Hasher, s: Storage, t: Storage, n: Node)
    requires Extends(s, t) && Ready(H, s, n)
    ensures Ready(H, t, n)
  {
    StoredGrows(H, s, t, n);
    KnownGrows(s, t, Ref(RootHash(H, n)));
  }

  lemma NilReady(H: Hasher, s: Storage)
    ensures Ready(H, s, Nil)
  {
  }

  /** The first i children of a branch are stored and replaced by references. */
  ghost predicate Progress(H: Hasher, s: Storage, n: Node, kids: seq<Node>, i: nat) {
    && n.Branch? && |n.children| == |kids| == 16 && i <= 16
    && (forall j :: 0 <= j < i ==> kids[j] == Refs(H, n.children)[j] && Ready(H, s, n.children[j]))
    && (forall j :: i <= j < 16 ==> kids[j] == n.children[j])
  }

  lemma ProgressStep(H: Hasher, s: Storage, t: Storage, n: Node, kids: seq<Node>, i: nat, child: Node)
    requires Progress(H, s, n, kids, i) && Extends(s, t) && i < 16
    requires Ready(H, t, n.children[i]) && child == Refs(H, n.children)[i]
    ensures Progress(H, t, n, kids[i := child], i + 1)
  {
    forall j | 0 <= j < i ensures Ready(H, t, n.children[j]) {
      ReadyGrows(H, s, t, n.children[j]);
    }
  }

  /** A stored tree, the tree left by a commit, and the reopened tree read alike. */
  lemma CommitReads(H: Hasher, s: Storage, t: Storage, n: Node, q: Path)
    requires Sound(H, s) && Sound(H, t) && Extends(s, t) && WellFormed(n) && Sized(n) && NilFree(n)
    requires Known(s, n) && Stored(H, t, n) && NonEmptyHashes(H, n)
    ensures WellFormed(AfterCommit(H, n))
    ensures Get(Decoded(t), n, q) == Get(Decoded(s), n, q)
    ensures Get(Decoded(t), AfterCommit(H, n), q) == Get(Decoded(s), n, q)
    ensures Get(Decoded(t), Ref(RootHash(H, n)), q) == Get(Decoded(s), n, q)
  {
    AfterCommitSameHash(H, n);
    GetGrows(s, t, n, q);
    AfterCommitGet(H, t, n, q);
    ReopenGet(H, t, n, q);
  }

  /** The child hashes encodeBranch copies into the table. */
  function HashTable(kids: seq<Node>): (hashes: seq<Hash>)
    ensures |hashes| == |kids|
  {
    seq(|kids|, i requires 0 <= i < |kids| => CachedHash(kids[i]))
  }

  class Trie {
    const db: Database
    var root: Node
    var dirty: bool

    /** All of an unmodified tree is stored, and its root does not report a wrong hash. */
    ghost predicate Valid()
      reads this, db
    {
      && db.Valid()
      && WellFormed(root)
      && Anchored(db.hash, db.storage, root)
      && (!dirty ==> Stored(db.hash, db.storage, root) && Reports(root))
    }

    /** What the trie holds at a path. */
    ghost function Lookup(q: Path): Value
      requires Valid()
      reads this, db
    {
      TrieNode.Get(Decoded(db.storage), root, q)
    }

    /** NewTrie: opens the trie at a root hash that is empty or stored. */
    constructor (db: Database, rootHash: Hash)
      requires db.Valid() && Known(db.storage, Ref(rootHash))
      ensures Valid() && this.db == db && !dirty
      ensures forall q :: Lookup(q) == TrieNode.Get(Decoded(db.storage), Ref(rootHash), q)
    {
      this.db := db;
      root := if rootHash == EMPTY_HASH then Nil else Ref(rootHash);
      dirty := false;
    }

    method Put(key: Bytes, value: Value)
      requires Valid()
      modifies this, db`cache
      ensures Valid() && dirty && root == Insert(Decoded(db.storage), old(root), ToPath(key), value)
      ensures forall q :: Lookup(q) == if q == ToPath(key) then value else old(Lookup(q))
    {
      dirty := true;
      var nibbles := KeyToNibbles(key);
      InsertAnchored(db.hash, db.storage, root, nibbles, value);
      ghost var before := root;
      root := InsertNode(root, nibbles, value);
      forall q ensures Lookup(q) == if q == ToPath(key) then value else old(Lookup(q)) {
        InsertGet(Decoded(db.storage), before, nibbles, value, q);
      }
    }

    /** insert: references are loaded through the database and its cache. */
    method InsertNode(n: Node, key: Path, value: Value) returns (r: Node)
      requires db.Valid() && WellFormed(n)
      modifies db`cache
      ensures db.Valid() && r == Insert(Decoded(db.storage), n, key, value)
      decreases |key|, Weight(n)
    {
      match n
      case Nil => r := Leaf(key, value, FRESH);
      case Ref(h) =>
        var resolved := db.GetNode(h);
        r := InsertNode(if resolved.Some? then resolved.value else Nil, key, value);
      case Leaf(suffix, was, _) =>
        if suffix == key {
          return Leaf(suffix, value, FRESH);
        }
        var p := CommonPrefix(suffix, key);
        var branch := Hang(NewBranch(), suffix[p..], was);
        r := Extend(key[..p], Hang(branch, key[p..], value));
      case Ext(prefix, next, meta) =>
        var p := CommonPrefix(prefix, key);
        if p == |prefix| {
          var child := InsertNode(next, key[p..], value);
          return Ext(prefix, child, Dirty(meta));
        }
        var branch := HangExt(NewBranch(), prefix[p..], next);
        r := Extend(prefix[..p], Hang(branch, key[p..], value));
      case Branch(children, was, meta) =>
        if key == [] {
          return Branch(children, value, Dirty(meta));
        }
        var child := InsertNode(children[key[0]], key[1..], value);
        r := Branch(children[key[0] := child], was, Dirty(meta));
    }

    /** A key that is absent leaves the contents as they were. */
    method Delete(key: Bytes)
      requires Valid()
      modifies this, db`cache
      ensures Valid() && dirty && root == TrieNode.Delete(Decoded(db.storage), old(root), ToPath(key))
      ensures forall q :: Lookup(q) == if q == ToPath(key) then None else old(Lookup(q))
    {
      dirty := true;
      var nibbles := KeyToNibbles(key);
      DeleteAnchored(db.hash, db.storage, root, nibbles);
      ghost var before := root;
      root := DeleteNode(root, nibbles);
      forall q ensures Lookup(q) == if q == ToPath(key) then None else old(Lookup(q)) {
        DeleteGet(Decoded(db.storage), before, nibbles, q);
      }
    }

    /** delete. */
    method DeleteNode(n: Node, key: Path) returns (r: Node)
      requires db.Valid() && WellFormed(n)
      modifies db`cache
      ensures db.Valid() && r == TrieNode.Delete(Decoded(db.storage), n, key)
      decreases |key|, Weight(n)
    {
      match n
      case Nil => r := Nil;
      case Ref(h) =>
        var resolved := db.GetNode(h);
        if resolved.None? {
          return n;
        }
        r := DeleteNode(resolved.value, key);
      case Leaf(suffix, _, _) => r := if suffix == key then Nil else n;
      case Ext(prefix, next, meta) =>
        var p := CommonPrefix(prefix, key);
        if p != |prefix| {
          return n;
        }
        var child := DeleteNode(next, key[p..]);
        r := Merge(Ext(prefix, child, Dirty(meta)));
      case Branch(children, was, meta) =>
        if key == [] {
          return Compact(Branch(children, None, Dirty(meta)));
        }
        var child := DeleteNode(children[key[0]], key[1..]);
        r := Compact(Branch(children[key[0] := child], was, Dirty(meta)));
    }

    /** The value is right; the tree is only sure to be kept when the read does no damage. */
    method Get(key: Bytes) returns (value: Value)
      requires Valid()
      modifies this`root, db`cache
      ensures db.Valid() && WellFormed(root) && value == old(Lookup(ToPath(key)))
      ensures root == AfterGet(Decoded(db.storage), old(root), ToPath(key))
      ensures !Damages(Decoded(db.storage), old(root), ToPath(key)) ==>
                Valid() && forall q :: Lookup(q) == old(Lookup(q))
    {
      var nibbles := KeyToNibbles(key);
      ghost var before := root;
      var handed;
      handed, root, value := GetNodeAt(root, nibbles);
      if !Damages(Decoded(db.storage), before, nibbles) {
        ReadAnchored(db.hash, db.storage, before, nibbles);
        if !dirty {
          ReadReports(db.storage, before, nibbles);
        }
        forall q ensures Lookup(q) == old(Lookup(q)) {
          UndamagedGet(Decoded(db.storage), before, nibbles, q);
        }
      }
    }

    /** get: the node it hands back, the node it was called on as it is afterwards, and the value. */
    method GetNodeAt(n: Node, key: Path) returns (handed: Node, after: Node, value: Value)
      requires db.Valid() && WellFormed(n)
      modifies db`cache
      ensures db.Valid() && handed == Visit(Decoded(db.storage), n, key)
              && after == AfterGet(Decoded(db.storage), n, key)
      ensures value == TrieNode.Get(Decoded(db.storage), n, key)
      decreases |key|, Weight(n)
    {
      match n
      case Nil => handed, after, value := n, n, None;
      case Ref(h) =>
        var resolved := db.GetNode(h);
        if resolved.None? {
          return n, n, None;
        }
        handed, after, value := GetNodeAt(resolved.value, key);
      case Leaf(suffix, v, _) => handed, after, value := n, n, if suffix == key then v else None;
      case Ext(prefix, next, meta) =>
        var p := CommonPrefix(prefix, key);
        if p != |prefix| {
          return n, n, None;
        }
        var below;
        handed, below, value := GetNodeAt(next, key[p..]);
        after := Ext(prefix, below, meta);
      case Branch(children, v, meta) =>
        if key == [] {
          return n, n, v;
        }
        var child, below;
        child, below, value := GetNodeAt(children[key[0]], key[1..]);
        handed := Branch(children[key[0] := child], v, meta);
        after := handed;
    }

    /** The end of commitNode: use the cached hash, or encode, hash and write. */
    method FileNode(n: Node, encoded: Bytes, ghost universe: set<Bytes>) returns (h: Hash)
      requires db.Valid() && (n.Leaf? || n.Ext? || n.Branch?) && WellFormed(n) && Sized(n)
      requires CacheRight(db.hash, db.storage, n) && ChildrenReady(db.hash, db.storage, n)
      requires encoded == Blob(db.hash, n)
      requires Within(db.storage, universe) && encoded in universe && CollisionFree(db.hash, universe)
      modifies db`storage
      ensures db.Valid() && Extends(old(db.storage), db.storage)
      ensures Within(db.storage, universe)
      ensures h == RootHash(db.hash, n) && Filed(db.hash, db.storage, n)
    {
      HashOfBlob(db.hash, n);
      if Clean(n.meta) {
        return n.meta.cache;
      }
      h := db.hash(encoded);
      db.PutNode(h, encoded, n, universe);
    }

    /** Writes the dirty part of a tree to the store, children first. */
    method CommitNode(n: Node, ghost universe: set<Bytes>) returns (r: Node, h: Hash)
      requires db.Valid() && WellFormed(n) && Sized(n) && Anchored(db.hash, db.storage, n)
      requires Within(db.storage, universe) && Blobs(db.hash, n) <= universe && CollisionFree(db.hash, universe)
      modifies db`storage
      ensures db.Valid() && Extends(old(db.storage), db.storage)
      ensures Within(db.storage, universe)
      ensures h == RootHash(db.hash, n) && r == AfterCommit(db.hash, n)
      ensures Stored(db.hash, db.storage, n) && Known(db.storage, Ref(h))
      decreases n
    {
      match n
      case Nil => return n, EMPTY_HASH;
      case Ref(hash) => return n, hash;
      case Leaf(suffix, value, _) =>
        h := FileNode(n, EncodeLeaf(suffix, value), universe);
        BlobDecodes(db.hash, n);
        r := Leaf(suffix, value, Committed(h));
      case Ext(_, _, _) => r, h := CommitExt(n, universe);
      case Branch(_, _, _) => r, h := CommitBranch(n, universe);
    }

    method CommitExt(n: Node, ghost universe: set<Bytes>) returns (r: Node, h: Hash)
      requires n.Ext?
      requires db.Valid() && WellFormed(n) && Sized(n) && Anchored(db.hash, db.storage, n)
      requires Within(db.storage, universe) && Blobs(db.hash, n) <= universe && CollisionFree(db.hash, universe)
      modifies db`storage
      ensures db.Valid() && Extends(old(db.storage), db.storage)
      ensures Within(db.storage, universe)
      ensures h == RootHash(db.hash, n) && r == AfterCommit(db.hash, n)
      ensures Stored(db.hash, db.storage, n) && Known(db.storage, Ref(h))
      decreases n, 0
    {
      var child, childHash := CommitNode(n.next, universe);
      AfterCommitSameHash(db.hash, n.next);
      CachedAfterCommit(db.hash, n.next);
      AnchoredGrows(db.hash, old(db.storage), db.storage, n);
      ghost var before := db.storage;
      h := FileNode(n, EncodeExt(n.prefix, CachedHash(child)), universe);
      StoredGrows(db.hash, before, db.storage, n.next);
      BlobDecodes(db.hash, n);
      r := Ext(n.prefix, child, Committed(h));
    }

    method CommitBranch(n: Node, ghost universe: set<Bytes>) returns (r: Node, h: Hash)
      requires n.Branch?
      requires db.Valid() && WellFormed(n) && Sized(n) && Anchored(db.hash, db.storage, n)
      requires Within(db.storage, universe) && Blobs(db.hash, n) <= universe && CollisionFree(db.hash, universe)
      modifies db`storage
      ensures db.Valid() && Extends(old(db.storage), db.storage)
      ensures Within(db.storage, universe)
      ensures h == RootHash(db.hash, n) && r == AfterCommit(db.hash, n)
      ensures Stored(db.hash, db.storage, n) && Known(db.storage, Ref(h))
      decreases n, 1
    {
      var kids := CommitChildren(n, universe);
      AnchoredGrows(db.hash, old(db.storage), db.storage, n);
      assert HashTable(kids) == ChildHashes(db.hash, n.children);
      ghost var before := db.storage;
      h := FileNode(n, EncodeBranch(n.value, HashTable(kids)), universe);
      forall i | 0 <= i < 16 ensures Stored(db.hash, db.storage, n.children[i]) {
        StoredGrows(db.hash, before, db.storage, n.children[i]);
      }
      BlobDecodes(db.hash, n);
      r := Branch(kids, n.value, Committed(h));
    }

    /** commitNode's loop over the children: each becomes a reference to what was stored. */
    method CommitChildren(n: Node, ghost universe: set<Bytes>) returns (kids: seq<Node>)
      requires db.Valid() && n.Branch? && WellFormed(n) && Sized(n) && Anchored(db.hash, db.storage, n)
      requires Within(db.storage, universe) && Blobs(db.hash, n) <= universe && CollisionFree(db.hash, universe)
      modifies db`storage
      ensures db.Valid() && Extends(old(db.storage), db.storage)
      ensures Within(db.storage, universe)
      ensures kids == Refs(db.hash, n.children)
      ensures forall i :: 0 <= i < 16 ==> Ready(db.hash, db.storage, n.children[i])
      decreases n, 0
    {
      kids := n.children;
      for i := 0 to 16
        invariant db.Valid() && Extends(old(db.storage), db.storage)
        invariant Within(db.storage, universe)
        invariant Progress(db.hash, db.storage, n, kids, i)
      {
        var child := kids[i];
        ghost var before := db.storage;
        if child.Nil? {
          NilReady(db.hash, db.storage);
        } else {
          ChildBlobs(db.hash, n, i);
          AnchoredGrows(db.hash, old(db.storage), db.storage, child);
          var committed, hash := CommitNode(child, universe);
          CachedAfterCommit(db.hash, child);
          child := Ref(CachedHash(committed));
        }
        ProgressStep(db.hash, before, db.storage, n, kids, i, child);
        kids := kids[i := child];
      }
    }

    /**
     * Commit.  The returned hash is the root hash of the contents; a trie opened
     * at it, by decoding stored nodes, reads exactly what this trie read.
     */
    method Commit(ghost universe: set<Bytes>) returns (h: Hash)
      requires Valid() && Sized(root)
      requires Within(db.storage, universe) && Blobs(db.hash, root) <= universe && CollisionFree(db.hash, universe)
      modifies this, db`storage
      ensures Valid() && !dirty
      ensures h == old(RootHash(db.hash, root)) && Known(db.storage, Ref(h))
      ensures Extends(old(db.storage), db.storage) && Stored(db.hash, db.storage, old(root))
      ensures root == if old(dirty) || !old(KnowsHash(root)) then AfterCommit(db.hash, old(root)) else old(root)
      ensures old(NilFree(root)) ==> forall q :: Lookup(q) == old(Lookup(q))
      ensures old(NilFree(root)) ==>
                forall q :: TrieNode.Get(Decoded(db.storage), Ref(h), q) == old(Lookup(q))
    {
      ghost var H := db.hash;
      ghost var before, was := db.storage, root;
      AnchoredKnown(H, before, was);
      if !dirty && KnowsHash(root) {
        h := CachedHash(root);
        StoredKnown(H, db.storage, root);
        if NilFree(was) {
          forall q ensures TrieNode.Get(Decoded(db.storage), Ref(h), q) == old(Lookup(q)) {
            CommitReads(H, before, db.storage, was, q);
          }
        }
        return;
      }
      h := CommitRoot(universe);
      if NilFree(was) {
        forall q ensures Lookup(q) == old(Lookup(q)) && TrieNode.Get(Decoded(db.storage), Ref(h), q) == old(Lookup(q)) {
          CommitReads(H, before, db.storage, was, q);
        }
      }
    }

    method CommitRoot(ghost universe: set<Bytes>) returns (h: Hash)
      requires Valid() && Sized(root)
      requires Within(db.storage, universe) && Blobs(db.hash, root) <= universe && CollisionFree(db.hash, universe)
      modifies this, db`storage
      ensures Valid() && !dirty && Extends(old(db.storage), db.storage)
      ensures root == AfterCommit(db.hash, old(root)) && h == RootHash(db.hash, old(root))
      ensures Stored(db.hash, db.storage, old(root)) && Known(db.storage, Ref(h))
    {
      ghost var before, was := db.storage, root;
      AnchoredKnown(db.hash, before, was);
      root, h := CommitNode(root, universe);
      dirty := false;
      KnownGrows(before, db.storage, was);
      AfterCommitSameHash(db.hash, was);
      AfterCommitAnchored(db.hash, db.storage, was);
      AfterCommitStored(db.hash, db.storage, was);
    }
  }
}
