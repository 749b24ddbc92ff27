/**
 * What a commit means: root hashes, the set of blobs a tree stands for, and
 * why a tree read back from its root answers every lookup as before
 * (internal/state/mpt/trie.go:429-497, database.go:27-62).
 *
 * SHA-256 is a function parameter; collision freedom is assumed only for the
 * finitely many blobs at hand.
 */
module TrieCommit {
  import opened Wrappers
  import opened Nibbles
  import opened TrieNode
  import opened TrieRefinement
  import opened NodeCodec

  type Hasher = Bytes -> Hash
  type Storage = map<Hash, Bytes>

  /** hashData over the encoded node, children first. */
  ghost function RootHash(H: Hasher, n: Node): Hash {
    match n
    case Nil => EMPTY_HASH
    case Ref(h) => h
    case Leaf(suffix, value, _) => H(EncodeLeaf(suffix, value))
    case Ext(prefix, next, _) => H(EncodeExt(prefix, RootHash(H, next)))
    case Branch(children, value, _) => H(EncodeBranch(value, ChildHashes(H, children)))
  }

  ghost function ChildHashes(H: Hasher, children: seq<Node>): (hashes: seq<Hash>)
    ensures |hashes| == |children|
  {
    seq(|children|, i requires 0 <= i < |children| => RootHash(H, children[i]))
  }

  /** The encoding a node is stored as. */
  ghost function Blob(H: Hasher, n: Node): Bytes
    requires n.Leaf? || n.Ext? || n.Branch?
  {
    match n
    case Leaf(suffix, value, _) => EncodeLeaf(suffix, value)
    case Ext(prefix, next, _) => EncodeExt(prefix, RootHash(H, next))
    case Branch(children, value, _) => EncodeBranch(value, ChildHashes(H, children))
  }

  /** Every encoding of the part of the tree that is in memory. */
  ghost function Blobs(H: Hasher, n: Node): set<Bytes> {
    match n
    case Nil | Ref(_) => {}
    case Leaf(_, _, _) => {Blob(H, n)}
    case Ext(_, next, _) => {Blob(H, n)} + Blobs(H, next)
    case Branch(children, _, _) => {Blob(H, n)} + set i, b | 0 <= i < |children| && b in Blobs(H, children[i]) :: b
  }

  /** No two of these blobs collide, and none hashes to the empty hash. */
  ghost predicate CollisionFree(H: Hasher, blobs: set<Bytes>) {
    && (forall a, b :: a in blobs && b in blobs && H(a) == H(b) ==> a == b)
    && (forall a :: a in blobs ==> H(a) != EMPTY_HASH)
  }

  /** Every blob is filed under its own hash. */
  ghost predicate Addressed(H: Hasher, s: Storage) {
    forall h :: h in s ==> H(s[h]) == h
  }

  /** What GetNode can load. */
  function Decoded(s: Storage): NodeMap {
    map h | h in s && Decode(s[h]).Some? :: Decode(s[h]).value
  }

  /** Every reference in the tree is the empty hash or a stored node that decodes. */
  ghost predicate Known(s: Storage, n: Node) {
    match n
    case Nil | Leaf(_, _, _) => true
    case Ref(h) => h == EMPTY_HASH || h in Decoded(s)
    case Ext(_, next, _) => Known(s, next)
    case Branch(children, _, _) => forall i :: 0 <= i < |children| ==> Known(s, children[i])
  }

  /** The store is closed: the references of every stored node are themselves stored. */
  ghost predicate Closed(s: Storage) {
    forall h :: h in Decoded(s) ==> Known(s, Decoded(s)[h])
  }

  /** Every stored node is a leaf, extension or branch that encodes back to its own blob. */
  ghost predicate Faithful(H: Hasher, s: Storage) {
    forall h :: h in Decoded(s) ==>
      && (Decoded(s)[h].Leaf? || Decoded(s)[h].Ext? || Decoded(s)[h].Branch?)
      && Blob(H, Decoded(s)[h]) == s[h]
  }

  /** A sound node store. */
  ghost predicate Sound(H: Hasher, s: Storage) {
    Addressed(H, s) && WellFormedMap(Decoded(s)) && Closed(s) && Faithful(H, s)
  }

  /** The two-byte and four-byte length fields can hold the lengths of this node. */
  ghost predicate Sized(n: Node) {
    match n
    case Nil | Ref(_) => true
    case Leaf(suffix, value, _) => |suffix| < 0x1_0000 && |ValueBytes(value)| < 0x1_0000_0000
    case Ext(prefix, next, _) => |prefix| < 0x1_0000 && Sized(next)
    case Branch(children, value, _) =>
      |ValueBytes(value)| < 0x1_0000_0000 && forall i :: 0 <= i < |children| ==> Sized(children[i])
  }

  /** No leaf in memory holds a nil value. */
  ghost predicate NilFree(n: Node) {
    match n
    case Nil | Ref(_) => true
    case Leaf(_, value, _) => value.Some?
    case Ext(_, next, _) => NilFree(next)
    case Branch(children, _, _) => forall i :: 0 <= i < |children| ==> NilFree(children[i])
  }

  /** The tree's own blob and those of its whole in-memory subtree are filed. */
  ghost predicate Stored(H: Hasher, s: Storage, n: Node) {
    match n
    case Nil | Ref(_) => true
    case Leaf(_, _, _) => Filed(H, s, n)
    case Ext(_, next, _) => Filed(H, s, n) && Stored(H, s, next)
    case Branch(children, _, _) =>
      Filed(H, s, n) && forall i :: 0 <= i < |children| ==> Stored(H, s, children[i])
  }

  ghost predicate Filed(H: Hasher, s: Storage, n: Node)
    requires n.Leaf? || n.Ext? || n.Branch?
  {
    RootHash(H, n) in s && s[RootHash(H, n)] == Blob(H, n)
  }

  ghost predicate Extends(s: Storage, t: Storage) {
    forall h :: h in s ==> h in t && t[h] == s[h]
  }

  // ---- Growing stores ----

  lemma ExtendsDecoded(s: Storage, t: Storage)
    requires Extends(s, t)
    ensures forall h :: h in Decoded(s) ==> h in Decoded(t) && Decoded(t)[h] == Decoded(s)[h]
  {
  }

  lemma {:induction false} KnownGrows(s: Storage, t: Storage, n: Node)
    requires Extends(s, t) && Known(s, n)
    ensures Known(t, n)
  {
    ExtendsDecoded(s, t);
    match n
    case Ext(_, next, _) => KnownGrows(s, t, next);
    case Branch(children, _, _) =>
      forall i | 0 <= i < |children| ensures Known(t, children[i]) {
        KnownGrows(s, t, children[i]);
      }
    case _ =>
  }

  lemma {:induction false} StoredGrows(H: Hasher, s: Storage, t: Storage, n: Node)
    requires Extends(s, t) && Stored(H, s, n)
    ensures Stored(H, t, n)
  {
    match n
    case Ext(_, next, _) => StoredGrows(H, s, t, next);
    case Branch(children, _, _) =>
      forall i | 0 <= i < |children| ensures Stored(H, t, children[i]) {
        StoredGrows(H, s, t, children[i]);
      }
    case _ =>
  }

  /** A closed store that grows answers old lookups as before. */
  lemma {:induction false} GetGrows(s: Storage, t: Storage, n: Node, q: Path)
    requires Extends(s, t) && WellFormedMap(Decoded(s)) && WellFormedMap(Decoded(t))
    requires Closed(s) && WellFormed(n) && Known(s, n)
    ensures Get(Decoded(t), n, q) == Get(Decoded(s), n, q)
    decreases |q|, Weight(n)
  {
    ExtendsDecoded(s, t);
    match n
    case Nil | Leaf(_, _, _) =>
    case Ref(h) =>
      if h != EMPTY_HASH {
        GetGrows(s, t, Decoded(s)[h], q);
      }
    case Ext(prefix, next, _) =>
      if Common(prefix, q) == |prefix| {
        GetGrows(s, t, next, q[|prefix|..]);
      }
    case Branch(children, _, _) =>
      if q != [] {
        GetGrows(s, t, children[q[0]], q[1..]);
      }
  }

  // ---- Reading back ----

  /** The node a stored node decodes to: its children become references. */
  ghost function Shallow(H: Hasher, n: Node): Node
    requires n.Leaf? || n.Ext? || n.Branch?
  {
    match n
    case Leaf(suffix, value, _) => Leaf(suffix, Some(ValueBytes(value)), LOADED)
    case Ext(prefix, next, _) => Ext(prefix, Ref(RootHash(H, next)), LOADED)
    case Branch(children, value, _) => Branch(Children(ChildHashes(H, children)), value, LOADED)
  }

  lemma BlobDecodes(H: Hasher, n: Node)
    requires (n.Leaf? || n.Ext? || n.Branch?) && WellFormed(n) && Sized(n)
    ensures Decode(Blob(H, n)) == Some(Shallow(H, n))
  {
    match n
    case Leaf(suffix, value, _) => LeafRoundTrip(suffix, value);
    case Ext(prefix, next, _) => ExtRoundTrip(prefix, RootHash(H, next));
    case Branch(children, value, _) => BranchRoundTrip(value, ChildHashes(H, children));
  }

  lemma LoadStored(H: Hasher, s: Storage, n: Node)
    requires (n.Leaf? || n.Ext? || n.Branch?) && WellFormed(n) && Sized(n) && Stored(H, s, n)
    requires WellFormedMap(Decoded(s)) && RootHash(H, n) != EMPTY_HASH
    ensures Resolve(Decoded(s), RootHash(H, n)) == Some(Shallow(H, n))
  {
    BlobDecodes(H, n);
  }

  /** No in-memory node of the tree hashes to the empty hash. */
  ghost predicate NonEmptyHashes(H: Hasher, n: Node) {
    forall b :: b in Blobs(H, n) ==> H(b) != EMPTY_HASH
  }

  lemma ChildBlobs(H: Hasher, n: Node, i: nat)
    requires n.Branch? && i < |n.children|
    ensures Blobs(H, n.children[i]) <= Blobs(H, n)
  {
  }

  /** The reopened tree reads every key as the committed one, up to nil values of leaves. */
  lemma {:induction false} ReopenGet(H: Hasher, s: Storage, n: Node, q: Path)
    requires WellFormed(n) && Sized(n) && Stored(H, s, n) && NonEmptyHashes(H, n) && NilFree(n)
    requires WellFormedMap(Decoded(s))
    ensures Get(Decoded(s), Ref(RootHash(H, n)), q) == Get(Decoded(s), n, q)
    decreases n
  {
    match n
    case Nil | Ref(_) =>
    case Leaf(_, _, _) =>
      LoadStored(H, s, n);
    case Ext(prefix, next, _) =>
      LoadStored(H, s, n);
      if Common(prefix, q) == |prefix| {
        ReopenGet(H, s, next, q[|prefix|..]);
      }
    case Branch(children, _, _) =>
      LoadStored(H, s, n);
      if q != [] {
        ChildBlobs(H, n, q[0]);
        ReopenGet(H, s, children[q[0]], q[1..]);
      }
  }

  /** A nil leaf value comes back as an empty value, so some key reads differently. */
  lemma {:induction false} NilLeafShows(H: Hasher, s: Storage, n: Node) returns (q: Path)
    requires WellFormed(n) && Sized(n) && Stored(H, s, n) && NonEmptyHashes(H, n) && !NilFree(n)
    requires WellFormedMap(Decoded(s))
    ensures Get(Decoded(s), n, q) == None && Get(Decoded(s), Ref(RootHash(H, n)), q) == Some([])
    decreases n
  {
    LoadStored(H, s, n);
    match n
    case Leaf(suffix, _, _) =>
      q := suffix;
    case Ext(prefix, next, meta) =>
      var r := NilLeafShows(H, s, next);
      q := prefix + r;
      ExtGet(Decoded(s), prefix, next, meta, q);
      ExtGet(Decoded(s), prefix, Ref(RootHash(H, next)), LOADED, q);
      assert q[|prefix|..] == r;
    case Branch(children, _, _) =>
      var i: nibble :| !NilFree(children[i]);
      ChildBlobs(H, n, i);
      var r := NilLeafShows(H, s, children[i]);
      q := [i] + r;
      assert q[1..] == r;
  }

  /** Commit then reopen loses nothing exactly when no leaf holds a nil value. */
  lemma ReopenFaithful(H: Hasher, s: Storage, n: Node)
    requires WellFormed(n) && Sized(n) && Stored(H, s, n) && NonEmptyHashes(H, n)
    requires WellFormedMap(Decoded(s))
    ensures NilFree(n) <==>
            forall q :: Get(Decoded(s), Ref(RootHash(H, n)), q) == Get(Decoded(s), n, q)
  {
    if NilFree(n) {
      forall q ensures Get(Decoded(s), Ref(RootHash(H, n)), q) == Get(Decoded(s), n, q) {
        ReopenGet(H, s, n, q);
      }
    } else {
      var q := NilLeafShows(H, s, n);
    }
  }
}
