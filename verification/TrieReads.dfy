/**
 * What a read does to the tree.  Trie.get answers correctly, but a branch above
 * an extension that matches is left pointing past the extension
 * (internal/state/mpt/trie.go:291-335), so a later read can go wrong.
 */
module TrieReads {
  import opened Wrappers
  import opened Nibbles
  import opened TrieNode
  import opened TrieRefinement
  import opened TrieCanonical

  /** get hands back a node that has lost an extension's prefix. */
  ghost predicate Skips(db: NodeMap, n: Node, key: Path)
    requires WellFormedMap(db) && WellFormed(n)
    decreases |key|, Weight(n)
  {
    match n
    case Nil | Leaf(_, _, _) => false
    case Ref(h) => var resolved := Resolve(db, h); resolved.Some? && Skips(db, resolved.value, key)
    case Ext(prefix, _, _) => prefix <= key
    case Branch(children, _, _) => key != [] && Skips(db, children[key[0]], key[1..])
  }

  /** The guard a caller can test: some branch on the search path has an extension below it that matches. */
  ghost predicate Damages(db: NodeMap, n: Node, key: Path)
    requires WellFormedMap(db) && WellFormed(n)
    decreases |key|, Weight(n)
  {
    match n
    case Nil | Leaf(_, _, _) => false
    case Ref(h) => var resolved := Resolve(db, h); resolved.Some? && Damages(db, resolved.value, key)
    case Ext(prefix, next, _) => prefix <= key && Damages(db, next, key[|prefix|..])
    case Branch(_, _, _) => Skips(db, n, key)
  }

  /** A read that skips nothing hands back a node with the same contents. */
  lemma {:induction false} VisitGet(db: NodeMap, n: Node, key: Path, q: Path)
    requires WellFormedMap(db) && WellFormed(n) && !Skips(db, n, key)
    ensures Get(db, Visit(db, n, key), q) == Get(db, n, q)
    decreases |key|, Weight(n)
  {
    match n
    case Nil | Leaf(_, _, _) =>
    case Ref(h) =>
      var resolved := Resolve(db, h);
      if resolved.Some? {
        VisitGet(db, resolved.value, key, q);
      }
    case Ext(prefix, _, _) =>
      CommonIsPrefix(prefix, key);
    case Branch(children, _, _) =>
      if key != [] && q != [] {
        VisitGet(db, children[key[0]], key[1..], q[1..]);
      }
  }

  /** A read that does no damage leaves every lookup of this tree as it was. */
  lemma {:induction false} UndamagedGet(db: NodeMap, n: Node, key: Path, q: Path)
    requires WellFormedMap(db) && WellFormed(n) && !Damages(db, n, key)
    ensures Get(db, AfterGet(db, n, key), q) == Get(db, n, q)
    decreases |key|, Weight(n)
  {
    match n
    case Nil | Leaf(_, _, _) =>
    case Ref(h) =>
      var resolved := Resolve(db, h);
      if resolved.Some? {
        UndamagedGet(db, resolved.value, key, q);
      }
    case Ext(prefix, next, meta) =>
      CommonIsPrefix(prefix, key);
      if prefix <= key {
        ExtGet(db, prefix, AfterGet(db, next, key[|prefix|..]), meta, q);
        ExtGet(db, prefix, next, meta, q);
        if prefix <= q {
          UndamagedGet(db, next, key[|prefix|..], q[|prefix|..]);
        }
      }
    case Branch(_, _, _) =>
      VisitGet(db, n, key, q);
  }

  /** In a canonical tree get hands back a canonical tree, damaged or not. */
  lemma {:induction false} VisitNormal(db: NodeMap, n: Node, key: Path)
    requires WellFormedMap(db) && WellFormed(n) && Canonical(n)
    ensures Canonical(Visit(db, n, key)) && (n.Nil? <==> Visit(db, n, key).Nil?)
    ensures n.Branch? ==> Visit(db, n, key).Branch?
  {
    match n
    case Nil | Leaf(_, _, _) =>
    case Ext(prefix, next, _) =>
      CommonIsPrefix(prefix, key);
      if prefix <= key {
        VisitNormal(db, next, key[|prefix|..]);
      }
    case Branch(children, _, _) =>
      if key != [] {
        VisitNormal(db, children[key[0]], key[1..]);
        LiveUpdate(children, key[0], Visit(db, children[key[0]], key[1..]));
      }
  }

  /** What skipping changes is visible in the shape. */
  lemma {:induction false} SkipChangesShape(db: NodeMap, n: Node, key: Path)
    requires WellFormedMap(db) && WellFormed(n) && Canonical(n) && Skips(db, n, key)
    ensures !SameShape(n, Visit(db, n, key))
  {
    match n
    case Ext(prefix, next, _) =>
      CommonIsPrefix(prefix, key);
      VisitNormal(db, next, key[|prefix|..]);
    case Branch(children, _, _) =>
      SkipChangesShape(db, children[key[0]], key[1..]);
  }

  lemma {:induction false} DamageChangesShape(db: NodeMap, n: Node, key: Path)
    requires WellFormedMap(db) && WellFormed(n) && Canonical(n)
    ensures Canonical(AfterGet(db, n, key)) && (n.Branch? ==> AfterGet(db, n, key).Branch?)
    ensures Damages(db, n, key) ==> !SameShape(n, AfterGet(db, n, key))
  {
    match n
    case Nil | Leaf(_, _, _) =>
    case Ext(prefix, next, _) =>
      CommonIsPrefix(prefix, key);
      if prefix <= key {
        DamageChangesShape(db, next, key[|prefix|..]);
      }
    case Branch(_, _, _) =>
      VisitNormal(db, n, key);
      if Skips(db, n, key) {
        SkipChangesShape(db, n, key);
      }
  }

  /** A read of a canonical tree keeps its contents exactly when it does no damage. */
  lemma ReadKeepsContents(db: NodeMap, n: Node, key: Path)
    requires WellFormedMap(db) && WellFormed(n) && Canonical(n)
    ensures Agree(db, n, AfterGet(db, n, key)) <==> !Damages(db, n, key)
  {
    DamageChangesShape(db, n, key);
    if Damages(db, n, key) {
      if Agree(db, n, AfterGet(db, n, key)) {
        ContentsDetermineShape(db, n, AfterGet(db, n, key));
      }
    } else {
      forall q ensures Get(db, n, q) == Get(db, AfterGet(db, n, key), q) {
        UndamagedGet(db, n, key, q);
      }
    }
  }

  /** A tree with three two-byte keys: 0x1000, 0x2340 and 0x2350. */
  ghost function Example(v: Bytes): Node {
    TwoChildren(1, Leaf([0, 0, 0], Some(v), FRESH), 2, Ext([3], Twig(v), FRESH))
  }

  ghost function Twig(v: Bytes): Node {
    TwoChildren(4, Leaf([0], Some(v), FRESH), 5, Leaf([0], Some(v), FRESH))
  }

  /** A branch with two children. */
  ghost function TwoChildren(i: nibble, a: Node, j: nibble, b: Node): (r: Node)
    ensures r.Branch? && |r.children| == 16 && r.value == None && r.meta == FRESH
    ensures i != j ==> r.children[i] == a && r.children[j] == b
    ensures forall k :: 0 <= k < 16 && k != i && k != j ==> r.children[k] == Nil
  {
    Branch(NewBranch().children[i := a][j := b], None, FRESH)
  }

  lemma TwoChildrenNormal(i: nibble, a: Node, j: nibble, b: Node)
    requires i < j && Normal(a) && Normal(b) && WellFormed(a) && WellFormed(b)
    ensures WellFormed(TwoChildren(i, a, j, b)) && Normal(TwoChildren(i, a, j, b))
  {
    LiveSome(TwoChildren(i, a, j, b).children, i, j);
  }

  lemma ExampleShape(v: Bytes)
    ensures WellFormed(Example(v)) && Canonical(Example(v)) && WellFormed(Twig(v))
  {
    TwoChildrenNormal(4, Leaf([0], Some(v), FRESH), 5, Leaf([0], Some(v), FRESH));
    TwoChildrenNormal(1, Leaf([0, 0, 0], Some(v), FRESH), 2, Ext([3], Twig(v), FRESH));
  }

  /** Two live children count for at least two. */
  lemma LiveSome(children: seq<Node>, i: nat, j: nat)
    requires i < j < |children| && !children[i].Nil? && !children[j].Nil?
    ensures Live(children) >= 2
  {
    LiveUpdate(children, i, Nil);
    LiveUpdate(children[i := Nil], j, Nil);
  }

  /** Get on the example, level by level. */
  lemma TwigGet(v: Bytes, q: Path)
    requires WellFormed(Twig(v))
    ensures Get(map[], Twig(v), q) == if q == [4, 0] || q == [5, 0] then Some(v) else None
  {
    if q != [] {
      assert q == [q[0]] + q[1..];
    }
  }

  lemma ExampleGet(v: Bytes, q: Path)
    requires WellFormed(Example(v)) && WellFormed(Twig(v))
    ensures Get(map[], Example(v), q)
         == if q == [1, 0, 0, 0] || q == [2, 3, 4, 0] || q == [2, 3, 5, 0] then Some(v) else None
  {
    var n := Example(v);
    if q != [] {
      var r := q[1..];
      assert q == [q[0]] + r;
      if q[0] == 2 {
        ExtGet(map[], [3], Twig(v), FRESH, r);
        if [3] <= r {
          assert r == [3] + r[1..];
          TwigGet(v, r[1..]);
        }
      }
    }
  }

  /** Reading the same present key twice: the second read finds nothing. */
  lemma SecondReadFails(v: Bytes)
    ensures var n, key := Example(v), [2, 3, 4, 0];
            && WellFormed(n)
            && Get(map[], n, key) == Some(v)
            && Get(map[], AfterGet(map[], n, key), key) == None
  {
    var n: Node, key: Path := Example(v), [2, 3, 4, 0];
    ExampleShape(v);
    ExampleGet(v, key);
    var rest: Path := [3, 4, 0];
    assert key[1..] == rest;
    VisitTwig(v);
    var after := AfterGet(map[], n, key);
    assert after == Branch(n.children[2 := Visit(map[], n.children[2], rest)], None, FRESH);
    assert Get(map[], after, key) == Get(map[], after.children[2], rest);
  }

  /** The read of the extension hands back the branch below it, where 3 leads nowhere. */
  lemma VisitTwig(v: Bytes)
    requires WellFormed(Twig(v))
    ensures Get(map[], Visit(map[], Ext([3], Twig(v), FRESH), [3, 4, 0]), [3, 4, 0]) == None
  {
    var rest: Path := [3, 4, 0];
    CommonIsPrefix([3], rest);
    assert rest[1..] == [4, 0];
    var twig := Visit(map[], Twig(v), [4, 0]);
    assert Visit(map[], Ext([3], Twig(v), FRESH), rest) == twig;
    assert twig.Branch? && twig.children[3] == Nil;
  }
}
