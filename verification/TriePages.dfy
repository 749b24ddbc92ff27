/**
 * Trees of which parts are still on disk (the hash nodes of
 * internal/state/mpt/trie.go), and what a read does to them.
 */
module TriePages {
  import opened Wrappers
  import opened Nibbles
  import opened TrieNode
  import opened TrieRefinement
  import opened TrieCanonical
  import opened TrieReads

  /** Tree a is the loaded tree b, up to flags, with some subtrees left on disk. */
  ghost predicate Pages(db: NodeMap, a: Node, b: Node)
    requires WellFormedMap(db) && WellFormed(a) && WellFormed(b)
    decreases b, Weight(a)
  {
    match a
    case Ref(h) => Resolve(db, h).Some? && Pages(db, Resolve(db, h).value, b)
    case Nil => b.Nil?
    case Leaf(suffix, value, _) => b.Leaf? && b.suffix == suffix && b.value == value
    case Ext(prefix, next, _) => b.Ext? && b.prefix == prefix && Pages(db, next, b.next)
    case Branch(children, value, _) =>
      b.Branch? && b.value == value && forall i :: 0 <= i < 16 ==> Pages(db, children[i], b.children[i])
  }

  /** A loaded tree pages itself. */
  lemma {:induction false} PagesItself(db: NodeMap, n: Node)
    requires WellFormedMap(db) && WellFormed(n) && Canonical(n)
    ensures Pages(db, n, n)
  {
    match n
    case Nil | Leaf(_, _, _) =>
    case Ext(_, next, _) => PagesItself(db, next);
    case Branch(children, _, _) =>
      forall i | 0 <= i < 16 ensures Pages(db, children[i], children[i]) {
        PagesItself(db, children[i]);
      }
  }

  lemma {:induction false} PagedGet(db: NodeMap, a: Node, b: Node, q: Path)
    requires WellFormedMap(db) && WellFormed(a) && WellFormed(b) && Pages(db, a, b)
    ensures Get(db, a, q) == Get(db, b, q)
    decreases b, Weight(a)
  {
    match a
    case Nil | Leaf(_, _, _) =>
    case Ref(h) => PagedGet(db, Resolve(db, h).value, b, q);
    case Ext(prefix, next, _) =>
      if Common(prefix, q) == |prefix| {
        PagedGet(db, next, b.next, q[|prefix|..]);
      }
    case Branch(children, _, _) =>
      if q != [] {
        PagedGet(db, children[q[0]], b.children[q[0]], q[1..]);
      }
  }

  lemma {:induction false} PagedSkips(db: NodeMap, a: Node, b: Node, key: Path)
    requires WellFormedMap(db) && WellFormed(a) && WellFormed(b) && Pages(db, a, b)
    ensures Skips(db, a, key) <==> Skips(db, b, key)
    decreases b, Weight(a)
  {
    match a
    case Nil | Leaf(_, _, _) | Ext(_, _, _) =>
    case Ref(h) => PagedSkips(db, Resolve(db, h).value, b, key);
    case Branch(children, _, _) =>
      if key != [] {
        PagedSkips(db, children[key[0]], b.children[key[0]], key[1..]);
      }
  }

  /** Reading loads the same nodes from either. */
  lemma {:induction false} PagedVisit(db: NodeMap, a: Node, b: Node, key: Path)
    requires WellFormedMap(db) && WellFormed(a) && WellFormed(b) && Pages(db, a, b)
    ensures Pages(db, Visit(db, a, key), Visit(db, b, key))
    decreases b, Weight(a)
  {
    match a
    case Nil | Leaf(_, _, _) =>
    case Ref(h) => PagedVisit(db, Resolve(db, h).value, b, key);
    case Ext(prefix, next, _) =>
      if Common(prefix, key) == |prefix| {
        PagedVisit(db, next, b.next, key[|prefix|..]);
      }
    case Branch(children, _, _) =>
      if key != [] {
        PagedVisit(db, children[key[0]], b.children[key[0]], key[1..]);
      }
  }

  // ---- Inserting ----

  lemma HangPages(db: NodeMap, a: Node, b: Node, rest: Path, value: Value)
    requires WellFormedMap(db) && a.Branch? && b.Branch? && WellFormed(a) && WellFormed(b) && Pages(db, a, b)
    ensures Pages(db, Hang(a, rest, value), Hang(b, rest, value))
  {
  }

  lemma HangExtPages(db: NodeMap, rest: Path, next: Node, other: Node)
    requires WellFormedMap(db) && rest != [] && WellFormed(next) && WellFormed(other) && Pages(db, next, other)
    ensures Pages(db, HangExt(NewBranch(), rest, next), HangExt(NewBranch(), rest, other))
  {
  }

  lemma ExtendPages(db: NodeMap, prefix: Path, a: Node, b: Node)
    requires WellFormedMap(db) && a.Branch? && b.Branch? && WellFormed(a) && WellFormed(b) && Pages(db, a, b)
    ensures Pages(db, Extend(prefix, a), Extend(prefix, b))
  {
  }

  /** insert works on the paged tree as on the loaded one. */
  lemma {:induction false} InsertPages(db: NodeMap, a: Node, b: Node, key: Path, value: Value)
    requires WellFormedMap(db) && WellFormed(a) && WellFormed(b) && Pages(db, a, b) && Canonical(b) && value.Some?
    ensures Pages(db, Insert(db, a, key, value), Insert(db, b, key, value))
    decreases b, Weight(a)
  {
    match a
    case Nil =>
    case Ref(h) => InsertPages(db, Resolve(db, h).value, b, key, value);
    case Leaf(_, _, _) =>
      assert Insert(db, a, key, value) == Insert(db, b, key, value);
      InsertNormal(db, b, key, value);
      PagesItself(db, Insert(db, b, key, value));
    case Ext(prefix, next, _) =>
      var p := Common(prefix, key);
      if p == |prefix| {
        InsertPages(db, next, b.next, key[|prefix|..], value);
      } else {
        HangExtPages(db, prefix[p..], next, b.next);
        var x, y := HangExt(NewBranch(), prefix[p..], next), HangExt(NewBranch(), prefix[p..], b.next);
        HangPages(db, x, y, key[p..], value);
        ExtendPages(db, prefix[..p], Hang(x, key[p..], value), Hang(y, key[p..], value));
      }
    case Branch(children, _, _) =>
      if key != [] {
        InsertPages(db, children[key[0]], b.children[key[0]], key[1..], value);
      }
  }

  /** Loaded trees of one shape page each other. */
  lemma {:induction false} ShapePages(db: NodeMap, a: Node, b: Node)
    requires WellFormedMap(db) && WellFormed(a) && WellFormed(b) && Canonical(a) && SameShape(a, b)
    ensures Pages(db, a, b)
  {
    match a
    case Nil | Leaf(_, _, _) =>
    case Ext(_, next, _) => ShapePages(db, next, b.next);
    case Branch(children, _, _) =>
      forall i | 0 <= i < 16 ensures Pages(db, children[i], b.children[i]) {
        ShapePages(db, children[i], b.children[i]);
      }
  }

  // ---- What a read keeps ----

  /** Whether a read does damage does not depend on what is loaded. */
  lemma {:induction false} PagedDamages(db: NodeMap, a: Node, b: Node, key: Path)
    requires WellFormedMap(db) && WellFormed(a) && WellFormed(b) && Pages(db, a, b)
    ensures Damages(db, a, key) <==> Damages(db, b, key)
    decreases b, Weight(a)
  {
    match a
    case Nil | Leaf(_, _, _) =>
    case Ref(h) => PagedDamages(db, Resolve(db, h).value, b, key);
    case Ext(prefix, next, _) =>
      if prefix <= key {
        PagedDamages(db, next, b.next, key[|prefix|..]);
      }
    case Branch(_, _, _) => PagedSkips(db, a, b, key);
  }

  /** Nor does what it leaves behind. */
  lemma {:induction false} PagedAfter(db: NodeMap, a: Node, b: Node, key: Path)
    requires WellFormedMap(db) && WellFormed(a) && WellFormed(b) && Pages(db, a, b)
    ensures Pages(db, AfterGet(db, a, key), AfterGet(db, b, key))
    decreases b, Weight(a)
  {
    match a
    case Nil | Leaf(_, _, _) =>
    case Ref(h) => PagedAfter(db, Resolve(db, h).value, b, key);
    case Ext(prefix, next, _) =>
      if Common(prefix, key) == |prefix| {
        PagedAfter(db, next, b.next, key[|prefix|..]);
      }
    case Branch(_, _, _) => PagedVisit(db, a, b, key);
  }

  /** A loaded tree is handed back as it is, unless the read skips. */
  lemma {:induction false} VisitLoaded(db: NodeMap, b: Node, key: Path)
    requires WellFormedMap(db) && WellFormed(b) && Canonical(b) && !Skips(db, b, key)
    ensures Visit(db, b, key) == b
  {
    match b
    case Nil | Leaf(_, _, _) =>
    case Ext(prefix, _, _) => CommonIsPrefix(prefix, key);
    case Branch(children, _, _) =>
      if key != [] {
        VisitLoaded(db, children[key[0]], key[1..]);
        assert children[key[0] := children[key[0]]] == children;
      }
  }

  /** And it is left as it is, unless the read does damage. */
  lemma {:induction false} ReadLoaded(db: NodeMap, b: Node, key: Path)
    requires WellFormedMap(db) && WellFormed(b) && Canonical(b) && !Damages(db, b, key)
    ensures AfterGet(db, b, key) == b
    decreases b
  {
    match b
    case Nil | Leaf(_, _, _) =>
    case Ext(prefix, next, _) =>
      CommonIsPrefix(prefix, key);
      if prefix <= key {
        ReadLoaded(db, next, key[|prefix|..]);
      }
    case Branch(_, _, _) => VisitLoaded(db, b, key);
  }

  /**
   * A read keeps the contents exactly when it does no damage, for every tree
   * whose parts in memory and on disk make up a canonical one; the root may be
   * a reference itself, as it is when a trie has just been opened.
   */
  lemma PagedReadKeepsContents(db: NodeMap, a: Node, b: Node, key: Path)
    requires WellFormedMap(db) && WellFormed(a) && WellFormed(b) && Pages(db, a, b) && Canonical(b)
    ensures Agree(db, a, AfterGet(db, a, key)) <==> !Damages(db, a, key)
  {
    PagedDamages(db, a, b, key);
    PagedAfter(db, a, b, key);
    ReadKeepsContents(db, b, key);
    forall q
      ensures Get(db, a, q) == Get(db, b, q) && Get(db, AfterGet(db, a, key), q) == Get(db, AfterGet(db, b, key), q)
    {
      PagedGet(db, a, b, q);
      PagedGet(db, AfterGet(db, a, key), AfterGet(db, b, key), q);
    }
  }

  // ---- Keys of one length ----

  /** Every path to a value has this length. */
  ghost predicate Uniform(n: Node, d: nat) {
    match n
    case Nil => true
    case Ref(_) => false
    case Leaf(suffix, _, _) => |suffix| == d
    case Ext(prefix, next, _) => |prefix| <= d && Uniform(next, d - |prefix|)
    case Branch(children, value, _) =>
      d > 0 && value.None? && forall i :: 0 <= i < |children| ==> Uniform(children[i], d - 1)
  }

  lemma {:induction false} UniformPaths(db: NodeMap, n: Node, d: nat, q: Path)
    requires WellFormedMap(db) && WellFormed(n) && Uniform(n, d) && Get(db, n, q).Some?
    ensures |q| == d
    decreases n
  {
    match n
    case Leaf(_, _, _) =>
    case Ext(prefix, next, _) => UniformPaths(db, next, d - |prefix|, q[|prefix|..]);
    case Branch(children, _, _) => UniformPaths(db, children[q[0]], d - 1, q[1..]);
  }

  /** A canonical tree that is not uniform stores a key of another length. */
  lemma {:induction false} OddKey(db: NodeMap, n: Node, d: nat) returns (q: Path)
    requires WellFormedMap(db) && WellFormed(n) && Canonical(n) && !Uniform(n, d)
    ensures Get(db, n, q).Some? && |q| != d
    decreases n
  {
    match n
    case Leaf(suffix, _, _) => q := suffix;
    case Ext(prefix, next, meta) =>
      var r;
      if |prefix| > d {
        r := SomeKey(db, next);
      } else {
        r := OddKey(db, next, d - |prefix|);
      }
      q := prefix + r;
      ExtGet(db, prefix, next, meta, q);
      assert q[|prefix|..] == r;
    case Branch(children, value, _) =>
      if d == 0 {
        var p;
        p, q := TwoKeys(db, n);
      } else if value.Some? {
        q := [];
      } else {
        var i: nibble :| !Uniform(children[i], d - 1);
        var r := OddKey(db, children[i], d - 1);
        q := [i] + r;
        BranchGet(db, n, i, r);
      }
  }

  /** So a canonical tree whose keys all have one length is uniform. */
  lemma ContentsUniform(db: NodeMap, n: Node, d: nat)
    requires WellFormedMap(db) && WellFormed(n) && Canonical(n)
    requires forall q :: Get(db, n, q).Some? ==> |q| == d
    ensures Uniform(n, d)
  {
    if !Uniform(n, d) {
      var q := OddKey(db, n, d);
    }
  }

  /** What a read hands back has no longer keys. */
  lemma {:induction false} VisitedPaths(db: NodeMap, n: Node, d: nat, key: Path, q: Path)
    requires WellFormedMap(db) && WellFormed(n) && Uniform(n, d) && Get(db, Visit(db, n, key), q).Some?
    ensures |q| <= d
    decreases n
  {
    match n
    case Leaf(_, _, _) =>
    case Ext(prefix, next, _) =>
      if Common(prefix, key) == |prefix| {
        VisitedPaths(db, next, d - |prefix|, key[|prefix|..], q);
      } else {
        UniformPaths(db, n, d, q);
      }
    case Branch(children, _, _) =>
      if key == [] {
        UniformPaths(db, n, d, q);
      } else if q != [] {
        if q[0] == key[0] {
          VisitedPaths(db, children[key[0]], d - 1, key[1..], q[1..]);
        } else {
          UniformPaths(db, children[q[0]], d - 1, q[1..]);
        }
      }
  }

  /** Skipping an extension loses a key. */
  lemma {:induction false} SkipLoses(db: NodeMap, n: Node, d: nat, key: Path) returns (q: Path)
    requires WellFormedMap(db) && WellFormed(n) && Canonical(n) && Uniform(n, d) && Skips(db, n, key)
    ensures Get(db, n, q).Some? && Get(db, Visit(db, n, key), q) == None
    decreases n
  {
    match n
    case Ext(prefix, next, _) =>
      CommonIsPrefix(prefix, key);
      q := SomeKey(db, n);
      UniformPaths(db, n, d, q);
      if Get(db, Visit(db, n, key), q).Some? {
        VisitedPaths(db, next, d - |prefix|, key[|prefix|..], q);
      }
    case Branch(children, _, _) =>
      var r := SkipLoses(db, children[key[0]], d - 1, key[1..]);
      q := [key[0]] + r;
      assert q[1..] == r;
  }

  lemma {:induction false} LoadedDamageLoses(db: NodeMap, b: Node, d: nat, key: Path) returns (q: Path)
    requires WellFormedMap(db) && WellFormed(b) && Canonical(b) && Uniform(b, d) && Damages(db, b, key)
    ensures Get(db, b, q).Some? && Get(db, AfterGet(db, b, key), q) == None
    decreases b
  {
    match b
    case Ext(prefix, next, meta) =>
      CommonIsPrefix(prefix, key);
      var r := LoadedDamageLoses(db, next, d - |prefix|, key[|prefix|..]);
      q := prefix + r;
      assert q[|prefix|..] == r;
      ExtGet(db, prefix, AfterGet(db, next, key[|prefix|..]), meta, q);
      ExtGet(db, prefix, next, meta, q);
    case Branch(_, _, _) => q := SkipLoses(db, b, d, key);
  }

  /** In a tree with keys of one length a damaging read loses a stored key. */
  lemma DamageLoses(db: NodeMap, a: Node, b: Node, d: nat, key: Path) returns (q: Path)
    requires WellFormedMap(db) && WellFormed(a) && WellFormed(b) && Pages(db, a, b) && Canonical(b) && Uniform(b, d)
    requires Damages(db, a, key)
    ensures Get(db, a, q).Some? && Get(db, AfterGet(db, a, key), q) == None
  {
    PagedDamages(db, a, b, key);
    PagedAfter(db, a, b, key);
    q := LoadedDamageLoses(db, b, d, key);
    PagedGet(db, a, b, q);
    PagedGet(db, AfterGet(db, a, key), AfterGet(db, b, key), q);
  }

  // ---- A sibling that gets lost ----

  /** All keys start with this nibble. */
  ghost predicate AllStart(db: NodeMap, n: Node, x: nibble)
    requires WellFormedMap(db) && WellFormed(n)
  {
    forall r :: Get(db, n, r).Some? ==> r != [] && r[0] == x
  }

  /** A canonical tree with two keys, all of which start with the same nibble, is an extension. */
  lemma SharedStart(db: NodeMap, n: Node, x: nibble, p: Path, q: Path)
    requires WellFormedMap(db) && WellFormed(n) && Canonical(n) && AllStart(db, n, x)
    requires Get(db, n, p).Some? && Get(db, n, q).Some? && p != q
    ensures n.Ext?
  {
    if n.Branch? {
      var y, z := TwoKeys(db, n);
    }
  }

  /** Keys that start with the one nibble go on with the other. */
  ghost predicate Only(db: NodeMap, n: Node, x: nibble, y: nibble)
    requires WellFormedMap(db) && WellFormed(n)
  {
    forall q :: Get(db, n, q).Some? && q != [] && q[0] == x ==> |q| >= 2 && q[1] == y
  }

  /**
   * Two keys that share their first two nibbles, where no other key shares the
   * first but not the second, and some key does not share the first: reading one
   * of the two makes the other one read as absent.
   */
  lemma SiblingIsLost(db: NodeMap, a: Node, b: Node, d: nat, key: Path, other: Path, far: Path)
    requires WellFormed(a) && WellFormedMap(db) && WellFormed(b) && Pages(db, a, b)
    requires WellFormedMap(db) && WellFormed(b) && Canonical(b) && Uniform(b, d)
    requires Get(db, b, key).Some? && Get(db, b, other).Some? && Get(db, b, far).Some? && key != other
    requires |key| >= 2 && |other| == |key| && far != [] && far[0] != key[0] && other[0] == key[0]
    requires Only(db, b, key[0], key[1])
    ensures Damages(db, a, key) && Get(db, AfterGet(db, a, key), other) == None
  {
    PagedDamages(db, a, b, key);
    PagedAfter(db, a, b, key);
    PagedGet(db, AfterGet(db, a, key), AfterGet(db, b, key), other);
    RootBranches(db, b, d, key, far);
    UniformPaths(db, b, d, other);
    BranchLoses(db, b, b.children[key[0]], d, key[0], key[1], key, other);
  }

  lemma BranchLoses(db: NodeMap, b: Node, child: Node, d: nat, x: nibble, y: nibble, key: Path, other: Path)
    requires WellFormedMap(db) && WellFormed(b) && b.Branch? && child == b.children[x] && Only(db, b, x, y)
    requires Canonical(child) && d > 0 && Uniform(child, d - 1) && |other| == d
    requires key != [] && key[0] == x && other[0] == x && key != other && Get(db, b, key).Some?
             && Get(db, b, other).Some?
    ensures Damages(db, b, key) && Get(db, AfterGet(db, b, key), other) == None
  {
    ReadBelow(db, b, key, other);
    ChildKeys(db, b, x, y);
    LostBelow(db, child, d - 1, y, key[1..], other[1..]);
  }

  lemma ReadBelow(db: NodeMap, b: Node, key: Path, q: Path)
    requires WellFormedMap(db) && WellFormed(b) && b.Branch? && key != [] && q != [] && q[0] == key[0]
    ensures Damages(db, b, key) <==> Skips(db, b.children[key[0]], key[1..])
    ensures Get(db, AfterGet(db, b, key), q) == Get(db, Visit(db, b.children[key[0]], key[1..]), q[1..])
    ensures Get(db, b, key) == Get(db, b.children[key[0]], key[1..])
            && Get(db, b, q) == Get(db, b.children[key[0]], q[1..])
    ensures key != q ==> key[1..] != q[1..]
  {
    assert key == [key[0]] + key[1..] && q == [q[0]] + q[1..];
  }

  lemma ChildKeys(db: NodeMap, b: Node, x: nibble, y: nibble)
    requires WellFormedMap(db) && WellFormed(b) && b.Branch?
    requires Only(db, b, x, y)
    ensures AllStart(db, b.children[x], y)
  {
    forall r | Get(db, b.children[x], r).Some? ensures r != [] && r[0] == y {
      BranchGet(db, b, x, r);
      assert ([x] + r)[1] == y;
    }
  }

  /** Keys that differ at once meet in a branch. */
  lemma RootBranches(db: NodeMap, b: Node, d: nat, p: Path, q: Path)
    requires WellFormedMap(db) && WellFormed(b) && Canonical(b) && Uniform(b, d)
    requires Get(db, b, p).Some? && Get(db, b, q).Some? && p != [] && q != [] && p[0] != q[0]
    ensures b.Branch? && d > 0 && Uniform(b.children[p[0]], d - 1) && Canonical(b.children[p[0]])
  {
    FirstNibble(db, b, p);
    FirstNibble(db, b, q);
  }

  /** All keys of an extension start with its first nibble. */
  lemma FirstNibble(db: NodeMap, n: Node, q: Path)
    requires WellFormedMap(db) && WellFormed(n) && Get(db, n, q).Some?
    ensures n.Ext? ==> q != [] && q[0] == n.prefix[0]
  {
    if n.Ext? {
      CommonIsPrefix(n.prefix, q);
    }
  }

  /** A read through an extension hands back a node in which its keys are too long. */
  lemma LostBelow(db: NodeMap, n: Node, d: nat, x: nibble, key: Path, q: Path)
    requires WellFormedMap(db) && WellFormed(n) && Canonical(n) && Uniform(n, d) && |q| == d
    requires Get(db, n, key).Some? && Get(db, n, q).Some? && key != q && AllStart(db, n, x)
    ensures Skips(db, n, key) && Get(db, Visit(db, n, key), q) == None
  {
    SharedStart(db, n, x, key, q);
    CommonIsPrefix(n.prefix, key);
    TooLong(db, n.next, d - |n.prefix|, key[|n.prefix|..], q);
  }

  lemma TooLong(db: NodeMap, n: Node, d: nat, key: Path, q: Path)
    requires WellFormedMap(db) && WellFormed(n) && Uniform(n, d) && |q| > d
    ensures Get(db, Visit(db, n, key), q) == None
  {
    if Get(db, Visit(db, n, key), q).Some? {
      VisitedPaths(db, n, d, key, q);
    }
  }

  // ---- The example as a history ----

  function ExampleOps(v: Bytes): seq<Op> {
    [Put([0x23, 0x40], v), Put([0x23, 0x50], v), Put([0x10, 0x00], v)]
  }

  lemma ExamplePaths()
    ensures ToPath([0x23, 0x40]) == [2, 3, 4, 0] && ToPath([0x23, 0x50]) == [2, 3, 5, 0]
            && ToPath([0x10, 0x00]) == [1, 0, 0, 0]
  {
    TwoBytePath(0x23, 0x40);
    TwoBytePath(0x23, 0x50);
    TwoBytePath(0x10, 0x00);
  }

  lemma TwoBytePath(a: byte, b: byte)
    ensures ToPath([a, b]) == [a / 16, a % 16, b / 16, b % 16]
  {
    ToPathAt([a, b], 0);
    ToPathAt([a, b], 1);
  }

  lemma ExampleMap(v: Bytes)
    ensures RunMap(ExampleOps(v)) == map[[0x23, 0x40] := v, [0x23, 0x50] := v, [0x10, 0x00] := v]
  {
    var ops := ExampleOps(v);
    assert ops[..2][..1][..0] == [];
    assert RunMap(ops[..2][..1]) == map[[0x23, 0x40] := v];
    assert RunMap(ops[..2]) == map[[0x23, 0x40] := v, [0x23, 0x50] := v];
  }

  /** Three puts build the example. */
  lemma ExampleIsHistory(v: Bytes)
    ensures Canonical(Run(ExampleOps(v))) && SameShape(Run(ExampleOps(v)), Example(v))
  {
    var n := Run(ExampleOps(v));
    UniformIsTidy(ExampleOps(v), 2);
    TidyCanonical(ExampleOps(v));
    ExampleShape(v);
    ExampleMap(v);
    ExamplePaths();
    forall q ensures Get(map[], n, q) == Get(map[], Example(v), q) {
      HistoryGet(ExampleOps(v), q);
      ExampleGet(v, q);
      PathIsKey([0x23, 0x40], q);
      PathIsKey([0x23, 0x50], q);
      PathIsKey([0x10, 0x00], q);
    }
    ContentsDetermineShape(map[], n, Example(v));
  }

  /** After those puts, reading 0x2340 twice finds it once. */
  lemma SecondReadOfHistoryFails(v: Bytes)
    ensures var n, key := Run(ExampleOps(v)), ToPath([0x23, 0x40]);
            Get(map[], n, key) == Some(v) && Get(map[], AfterGet(map[], n, key), key) == None
  {
    var n, e, key := Run(ExampleOps(v)), Example(v), ToPath([0x23, 0x40]);
    ExamplePaths();
    ExampleIsHistory(v);
    ExampleShape(v);
    SecondReadFails(v);
    ShapePages(map[], n, e);
    PagedGet(map[], n, e, key);
    PagedVisit(map[], n, e, key);
    PagedGet(map[], Visit(map[], n, key), Visit(map[], e, key), key);
  }
}
