/** Normal form of the trie: what keeps it, and why contents determine the tree. */
module TrieCanonical {
  import opened Wrappers
  import opened Nibbles
  import opened TrieNode
  import opened TrieRefinement

  /** Normal form of a non-empty tree that is fully loaded. */
  ghost predicate Normal(n: Node) {
    match n
    case Nil | Ref(_) => false
    case Leaf(_, value, _) => value.Some?
    case Ext(prefix, next, _) => prefix != [] && next.Branch? && Normal(next)
    case Branch(children, value, _) =>
      && |children| == 16
      && (forall i :: 0 <= i < 16 ==> children[i].Nil? || Normal(children[i]))
      && Live(children) + (if value.Some? then 1 else 0) >= 2
  }

  ghost predicate Canonical(n: Node) {
    n.Nil? || Normal(n)
  }

  /** Equality of trees up to the dirty flags and cached hashes. */
  ghost predicate SameShape(a: Node, b: Node) {
    match (a, b)
    case (Nil, Nil) => true
    case (Ref(g), Ref(h)) => g == h
    case (Leaf(s, v, _), Leaf(t, w, _)) => s == t && v == w
    case (Ext(p, m, _), Ext(q, n, _)) => p == q && SameShape(m, n)
    case (Branch(cs, v, _), Branch(ds, w, _)) =>
      && v == w
      && |cs| == |ds|
      && forall i :: 0 <= i < |cs| ==> SameShape(cs[i], ds[i])
    case _ => false
  }

  lemma {:induction false} CanonicalWellFormed(n: Node)
    requires Canonical(n)
    ensures WellFormed(n)
  {
    match n
    case Nil | Ref(_) | Leaf(_, _, _) =>
    case Ext(_, next, _) => CanonicalWellFormed(next);
    case Branch(children, _, _) =>
      forall i | 0 <= i < 16 ensures WellFormed(children[i]) {
        CanonicalWellFormed(children[i]);
      }
  }

  // ---- Counting children ----

  function LiveBit(n: Node): nat {
    if n.Nil? then 0 else 1
  }

  lemma {:induction false} LiveUpdate(children: seq<Node>, i: nat, child: Node)
    requires i < |children|
    ensures Live(children[i := child]) == Live(children) - LiveBit(children[i]) + LiveBit(child)
  {
    if i == 0 {
      assert children[i := child][1..] == children[1..];
    } else {
      assert children[i := child][1..] == children[1..][i - 1 := child];
      LiveUpdate(children[1..], i - 1, child);
    }
  }

  lemma {:induction false} LiveTwo(children: seq<Node>) returns (i: nat, j: nat)
    requires Live(children) >= 2
    ensures i < j < |children| && !children[i].Nil? && !children[j].Nil?
  {
    if children[0].Nil? {
      i, j := LiveTwo(children[1..]);
      i, j := i + 1, j + 1;
    } else {
      i, j := 0, 1 + FirstLive(children[1..]);
    }
  }

  // ---- Witnesses ----

  /** A normal tree stores at least one key. */
  lemma {:induction false} SomeKey(db: NodeMap, n: Node) returns (q: Path)
    requires WellFormedMap(db) && Normal(n) && WellFormed(n)
    ensures Get(db, n, q).Some?
  {
    match n
    case Leaf(suffix, _, _) => q := suffix;
    case Ext(prefix, next, meta) =>
      var r := SomeKey(db, next);
      q := prefix + r;
      ExtGet(db, prefix, next, meta, q);
      assert q[|prefix|..] == r;
    case Branch(children, value, _) =>
      if value.Some? {
        q := [];
      } else {
        var i := FirstLive(children);
        var r := SomeKey(db, children[i]);
        q := [i] + r;
        assert q[1..] == r;
      }
  }

  /** A normal branch stores two keys that part at once. */
  lemma {:induction false} TwoKeys(db: NodeMap, n: Node) returns (q: Path, r: Path)
    requires WellFormedMap(db) && Normal(n) && WellFormed(n) && n.Branch?
    ensures Get(db, n, q).Some? && Get(db, n, r).Some?
    ensures r != [] && (q == [] || q[0] != r[0])
  {
    if n.value.Some? {
      var i := FirstLive(n.children);
      var s := SomeKey(db, n.children[i]);
      q, r := [], [i] + s;
      assert r[1..] == s;
    } else {
      var i, j := LiveTwo(n.children);
      var s := SomeKey(db, n.children[i]);
      var t := SomeKey(db, n.children[j]);
      q, r := [i] + s, [j] + t;
      assert q[1..] == s && r[1..] == t;
    }
  }

  /** A normal extension stores two keys that part right after its prefix. */
  lemma {:induction false} TwoKeysExt(db: NodeMap, n: Node) returns (q: Path, r: Path)
    requires WellFormedMap(db) && Normal(n) && WellFormed(n) && n.Ext?
    ensures Get(db, n, n.prefix + q).Some? && Get(db, n, n.prefix + r).Some?
    ensures r != [] && (q == [] || q[0] != r[0])
    ensures n.prefix + q != n.prefix + r
  {
    q, r := TwoKeys(db, n.next);
    ExtGet(db, n.prefix, n.next, n.meta, n.prefix + q);
    ExtGet(db, n.prefix, n.next, n.meta, n.prefix + r);
    assert (n.prefix + q)[|n.prefix|..] == q && (n.prefix + r)[|n.prefix|..] == r;
  }

  // ---- Uniqueness ----

  ghost predicate Agree(db: NodeMap, a: Node, b: Node)
    requires WellFormedMap(db) && WellFormed(a) && WellFormed(b)
  {
    forall q :: Get(db, a, q) == Get(db, b, q)
  }

  /** A leaf agrees only with a leaf. */
  lemma LeafAgrees(db: NodeMap, a: Node, b: Node)
    requires WellFormedMap(db) && WellFormed(a) && WellFormed(b)
    requires Normal(a) && Normal(b) && a.Leaf? && Agree(db, a, b)
    ensures b.Leaf? && a.suffix == b.suffix && a.value == b.value
  {
    assert Get(db, a, a.suffix) == Get(db, b, a.suffix);
    if b.Branch? {
      var q, r := TwoKeys(db, b);
    } else if b.Ext? {
      var q, r := TwoKeysExt(db, b);
    }
  }

  /** Every key below an extension starts with its prefix. */
  lemma KeysStartWithPrefix(db: NodeMap, a: Node)
    requires WellFormedMap(db) && WellFormed(a) && a.Ext?
    ensures forall q :: Get(db, a, q).Some? ==> a.prefix <= q
  {
    forall q | Get(db, a, q).Some? ensures a.prefix <= q {
      ExtGet(db, a.prefix, a.next, a.meta, q);
    }
  }

  /** An extension does not agree with a branch. */
  lemma ExtNotBranch(db: NodeMap, a: Node, b: Node)
    requires WellFormedMap(db) && WellFormed(a) && WellFormed(b)
    requires Normal(a) && Normal(b) && a.Ext? && Agree(db, a, b)
    ensures !b.Branch?
  {
    if b.Branch? {
      var q, r := TwoKeys(db, b);
      KeysStartWithPrefix(db, a);
    }
  }

  /** Of two extensions that agree, neither prefix is the longer. */
  lemma ExtPrefixNotLonger(db: NodeMap, a: Node, b: Node)
    requires WellFormedMap(db) && WellFormed(a) && WellFormed(b)
    requires Normal(a) && Normal(b) && a.Ext? && b.Ext? && Agree(db, a, b)
    ensures |b.prefix| <= |a.prefix|
  {
    var q, r := TwoKeysExt(db, a);
    KeysStartWithPrefix(db, b);
    assert b.prefix <= a.prefix + q && b.prefix <= a.prefix + r;
    assert q != [] ==> (a.prefix + q)[|a.prefix|] == q[0];
    assert (a.prefix + r)[|a.prefix|] == r[0];
  }

  /** Two extensions that agree have the same prefix, and their children agree. */
  lemma ExtAgrees(db: NodeMap, a: Node, b: Node)
    requires WellFormedMap(db) && WellFormed(a) && WellFormed(b)
    requires Normal(a) && Normal(b) && a.Ext? && b.Ext? && Agree(db, a, b)
    ensures a.prefix == b.prefix && Agree(db, a.next, b.next)
  {
    ExtPrefixNotLonger(db, a, b);
    ExtPrefixNotLonger(db, b, a);
    var q := SomeKey(db, a);
    assert Get(db, b, q).Some?;
    ExtGet(db, a.prefix, a.next, a.meta, q);
    ExtGet(db, b.prefix, b.next, b.meta, q);
    assert a.prefix == q[..|a.prefix|] == b.prefix;
    forall r ensures Get(db, a.next, r) == Get(db, b.next, r) {
      ExtGet(db, a.prefix, a.next, a.meta, a.prefix + r);
      ExtGet(db, b.prefix, b.next, b.meta, b.prefix + r);
      assert (a.prefix + r)[|a.prefix|..] == r;
      assert Get(db, a, a.prefix + r) == Get(db, b, a.prefix + r);
    }
  }

  /** Branches that agree have children that agree, slot by slot. */
  lemma BranchAgrees(db: NodeMap, a: Node, b: Node, i: nibble)
    requires WellFormedMap(db) && WellFormed(a) && WellFormed(b)
    requires a.Branch? && b.Branch? && Agree(db, a, b)
    ensures a.value == b.value && Agree(db, a.children[i], b.children[i])
  {
    assert Get(db, a, []) == Get(db, b, []);
    forall r ensures Get(db, a.children[i], r) == Get(db, b.children[i], r) {
      assert ([i] + r)[1..] == r;
      assert Get(db, a, [i] + r) == Get(db, b, [i] + r);
    }
  }

  /** Canonical trees with the same contents are the same tree. */
  lemma {:induction false} ContentsDetermineShape(db: NodeMap, a: Node, b: Node)
    requires WellFormedMap(db) && WellFormed(a) && WellFormed(b)
    requires Canonical(a) && Canonical(b) && Agree(db, a, b)
    ensures SameShape(a, b)
  {
    if a.Nil? || b.Nil? {
      if !a.Nil? {
        var q := SomeKey(db, a);
      }
      if !b.Nil? {
        var q := SomeKey(db, b);
      }
    } else if a.Leaf? {
      LeafAgrees(db, a, b);
    } else if b.Leaf? {
      LeafAgrees(db, b, a);
    } else if a.Ext? {
      ExtNotBranch(db, a, b);
      ExtAgrees(db, a, b);
      ContentsDetermineShape(db, a.next, b.next);
    } else {
      if b.Ext? {
        ExtNotBranch(db, b, a);
      }
      BranchAgrees(db, a, b, 0);
      forall i | 0 <= i < 16 ensures SameShape(a.children[i], b.children[i]) {
        BranchAgrees(db, a, b, i);
        ContentsDetermineShape(db, a.children[i], b.children[i]);
      }
    }
  }

  // ---- Insertion keeps the normal form ----

  /** How many children and values a branch holds. */
  ghost function Entries(n: Node): nat
    requires n.Branch?
  {
    Live(n.children) + if n.value.Some? then 1 else 0
  }

  /** A branch under construction: its children are canonical, its entries may be few. */
  ghost predicate Partial(n: Node) {
    n.Branch? && |n.children| == 16 && forall i :: 0 <= i < 16 ==> Canonical(n.children[i])
  }

  lemma NewBranchPartial()
    ensures Partial(NewBranch()) && Entries(NewBranch()) == 0
  {
    LiveZero(NewBranch().children);
  }

  lemma HangPartial(branch: Node, rest: Path, value: Value)
    requires Partial(branch) && WellFormed(branch) && Free(branch, rest) && value.Some?
    requires rest == [] ==> branch.value.None?
    ensures Partial(Hang(branch, rest, value)) && Entries(Hang(branch, rest, value)) == Entries(branch) + 1
  {
    if rest != [] {
      LiveUpdate(branch.children, rest[0], Leaf(rest[1..], value, FRESH));
    }
  }

  lemma HangExtPartial(branch: Node, rest: Path, next: Node)
    requires Partial(branch) && WellFormed(branch) && rest != [] && Free(branch, rest)
    requires next.Branch? && Normal(next) && WellFormed(next)
    ensures Partial(HangExt(branch, rest, next)) && Entries(HangExt(branch, rest, next)) == Entries(branch) + 1
  {
    var child := if |rest| == 1 then next else Ext(rest[1..], next, FRESH);
    LiveUpdate(branch.children, rest[0], child);
  }

  lemma ExtendNormal(r: Node, prefix: Path, branch: Node)
    requires Partial(branch) && WellFormed(branch) && Entries(branch) >= 2
    requires r == Extend(prefix, branch)
    ensures Normal(r)
  {
  }

  lemma SplitLeafNormal(db: NodeMap, suffix: Path, was: Value, meta: Meta, key: Path, value: Value)
    requires WellFormedMap(db) && was.Some? && value.Some? && suffix != key
    ensures Normal(Insert(db, Leaf(suffix, was, meta), key, value))
  {
    var p := Common(suffix, key);
    SplitAt(key, key[..p]);
    SplitAt(suffix, suffix[..p]);
    NewBranchPartial();
    HangPartial(NewBranch(), suffix[p..], was);
    var branch := Hang(NewBranch(), suffix[p..], was);
    HangPartial(branch, key[p..], value);
    ExtendNormal(Insert(db, Leaf(suffix, was, meta), key, value), key[..p], Hang(branch, key[p..], value));
  }

  /** The branch at which an extension splits, with one child so far. */
  lemma SplitBranch(branch: Node, rest: Path, next: Node)
    requires rest != [] && next.Branch? && Normal(next) && WellFormed(next)
    requires branch == HangExt(NewBranch(), rest, next)
    ensures Partial(branch) && Entries(branch) == 1
    ensures forall i: nibble :: i != rest[0] ==> branch.children[i].Nil?
  {
    NewBranchPartial();
    HangExtPartial(NewBranch(), rest, next);
  }

  lemma SplitExtNormal(db: NodeMap, prefix: Path, next: Node, meta: Meta, key: Path, value: Value)
    requires WellFormedMap(db) && WellFormed(next) && Normal(Ext(prefix, next, meta)) && value.Some?
    requires !(prefix <= key)
    ensures Normal(Insert(db, Ext(prefix, next, meta), key, value))
  {
    CommonIsPrefix(prefix, key);
    var p := Common(prefix, key);
    var branch := HangExt(NewBranch(), prefix[p..], next);
    SplitBranch(branch, prefix[p..], next);
    HangPartial(branch, key[p..], value);
    ExtendNormal(Insert(db, Ext(prefix, next, meta), key, value), prefix[..p], Hang(branch, key[p..], value));
  }

  /** insert of a non-nil value keeps the normal form, for keys of any length. */
  lemma {:induction false} InsertNormal(db: NodeMap, n: Node, key: Path, value: Value)
    requires WellFormedMap(db) && WellFormed(n) && Canonical(n) && value.Some?
    ensures Normal(Insert(db, n, key, value))
  {
    match n
    case Nil =>
    case Leaf(suffix, was, meta) =>
      if suffix != key {
        SplitLeafNormal(db, suffix, was, meta, key, value);
      }
    case Ext(prefix, next, meta) =>
      CommonIsPrefix(prefix, key);
      if prefix <= key {
        InsertNormal(db, next, key[|prefix|..], value);
      } else {
        SplitExtNormal(db, prefix, next, meta, key, value);
      }
    case Branch(children, _, _) =>
      if key != [] {
        InsertNormal(db, children[key[0]], key[1..], value);
        LiveUpdate(children, key[0], Insert(db, children[key[0]], key[1..], value));
      }
  }

  // ---- Deletion: exactly when the normal form is kept ----

  /**
   * The branch of delete that leaves a branch with a value and no child: the
   * value stays, the last child goes, and the compaction skips the node.
   */
  ghost predicate Strands(db: NodeMap, n: Node, key: Path)
    requires WellFormedMap(db) && WellFormed(n)
    decreases n
  {
    match n
    case Nil | Ref(_) | Leaf(_, _, _) => false
    case Ext(prefix, next, _) => prefix <= key && Strands(db, next, key[|prefix|..])
    case Branch(children, value, _) =>
      && key != []
      && var child := children[key[0]];
         || Strands(db, child, key[1..])
         || (value.Some? && Live(children) == 1 && !child.Nil? && Delete(db, child, key[1..]).Nil?)
  }

  /** Compaction of a branch whose children are canonical. */
  lemma CompactCanonical(n: Node)
    requires n.Branch? && WellFormed(n)
    requires forall i :: 0 <= i < 16 ==> Canonical(n.children[i])
    requires n.value.Some? ==> Live(n.children) > 0
    ensures Canonical(Compact(n))
  {
    if n.value.None? && Live(n.children) == 1 {
      assert Canonical(n.children[FirstLive(n.children)]);
    }
  }

  /** A subtree that is not canonical spoils every branch above it. */
  lemma CompactSpoilt(n: Node, i: nat)
    requires n.Branch? && WellFormed(n) && i < 16 && !Canonical(n.children[i]) && !n.children[i].Ref?
    requires n.children[i].Leaf? ==> n.children[i].value.Some?
    ensures !Canonical(Compact(n)) && !Compact(n).Leaf?
  {
    LiveZero(n.children);
    if Live(n.children) == 1 {
      LiveOne(n.children);
      assert FirstLive(n.children) == i;
    }
  }

  /** delete keeps the normal form if and only if it strands no value. */
  lemma {:induction false} DeleteCanonical(db: NodeMap, n: Node, key: Path)
    requires WellFormedMap(db) && WellFormed(n) && Canonical(n)
    ensures Canonical(Delete(db, n, key)) <==> !Strands(db, n, key)
    ensures !Canonical(Delete(db, n, key)) ==> !Delete(db, n, key).Leaf? && !Delete(db, n, key).Ref?
  {
    match n
    case Nil =>
    case Leaf(_, _, _) =>
    case Ext(prefix, next, meta) =>
      CommonIsPrefix(prefix, key);
      if prefix <= key {
        DeleteCanonical(db, next, key[|prefix|..]);
      }
    case Branch(children, was, meta) =>
      if key == [] {
        CompactCanonical(Branch(children, None, Dirty(meta)));
      } else {
        var child := Delete(db, children[key[0]], key[1..]);
        var after := Branch(children[key[0] := child], was, Dirty(meta));
        DeleteCanonical(db, children[key[0]], key[1..]);
        LiveUpdate(children, key[0], child);
        if Strands(db, children[key[0]], key[1..]) {
          CompactSpoilt(after, key[0]);
        } else if was.Some? && Live(after.children) == 0 {
          assert Compact(after) == after;
        } else {
          CompactCanonical(after);
        }
      }
  }

  /** In terms of contents: some stored key is a proper prefix of this one and of no other. */
  ghost predicate LastExtension(db: NodeMap, n: Node, key: Path, p: Path)
    requires WellFormedMap(db) && WellFormed(n)
  {
    && p < key
    && Get(db, n, p).Some?
    && Get(db, n, key).Some?
    && forall q :: p < q && Get(db, n, q).Some? ==> q == key
  }

  /** A stranding delete removes the only stored key that extends another one. */
  lemma {:induction false} StrandsGivesPrefix(db: NodeMap, n: Node, key: Path) returns (p: Path)
    requires WellFormedMap(db) && WellFormed(n) && Canonical(n) && Strands(db, n, key)
    ensures LastExtension(db, n, key, p)
  {
    match n
    case Ext(prefix, next, meta) =>
      var r := StrandsGivesPrefix(db, next, key[|prefix|..]);
      p := prefix + r;
      SplitAt(key, prefix);
      assert p[|prefix|..] == r;
      ExtGet(db, prefix, next, meta, p);
      ExtGet(db, prefix, next, meta, key);
      forall q | p < q && Get(db, n, q).Some? ensures q == key {
        ExtGet(db, prefix, next, meta, q);
        SplitAt(q, prefix);
        assert r < q[|prefix|..];
      }
    case Branch(children, value, _) =>
      var i, rest := key[0], key[1..];
      assert key == [i] + rest;
      if Strands(db, children[i], rest) {
        var r := StrandsGivesPrefix(db, children[i], rest);
        p := [i] + r;
        assert p[1..] == r;
        forall q | p < q && Get(db, n, q).Some? ensures q == key {
          assert q[0] == p[0] && q == [i] + q[1..] && r < q[1..];
          assert Get(db, children[i], q[1..]).Some?;
        }
      } else {
        p := [];
        LiveOne(children);
        assert forall j :: 0 <= j < 16 && j != i ==> children[j].Nil?;
        var s := SomeKey(db, children[i]);
        DeleteGet(db, children[i], rest, s);
        forall q | p < q && Get(db, n, q).Some? ensures q == key {
          assert Get(db, n, q) == Get(db, children[q[0]], q[1..]);
          assert q == [q[0]] + q[1..];
          DeleteGet(db, children[i], rest, q[1..]);
        }
      }
  }

  /** Conversely, removing such a key strands the shorter one. */
  lemma {:induction false} PrefixGivesStrands(db: NodeMap, n: Node, key: Path, p: Path)
    requires WellFormedMap(db) && WellFormed(n) && Canonical(n) && LastExtension(db, n, key, p)
    ensures Strands(db, n, key)
  {
    match n
    case Leaf(_, _, _) =>
    case Ext(prefix, next, meta) =>
      ExtGet(db, prefix, next, meta, p);
      ExtGet(db, prefix, next, meta, key);
      SplitAt(key, prefix);
      SplitAt(p, prefix);
      assert p[|prefix|..] < key[|prefix|..];
      forall q | p[|prefix|..] < q && Get(db, next, q).Some? ensures q == key[|prefix|..] {
        ExtGet(db, prefix, next, meta, prefix + q);
        assert (prefix + q)[|prefix|..] == q;
        assert p < prefix + q;
      }
      PrefixGivesStrands(db, next, key[|prefix|..], p[|prefix|..]);
    case Branch(children, value, _) =>
      var i, rest := key[0], key[1..];
      assert key == [i] + rest;
      if p == [] {
        OnlyChild(db, n, key);
        DeleteCanonical(db, children[i], rest);
        if !Strands(db, children[i], rest) && !Delete(db, children[i], rest).Nil? {
          var s := SomeKey(db, Delete(db, children[i], rest));
          DeleteGet(db, children[i], rest, s);
          BranchGet(db, n, i, s);
        }
      } else {
        assert p == [i] + p[1..] && p[1..] < rest;
        forall q | p[1..] < q && Get(db, children[i], q).Some? ensures q == rest {
          assert ([i] + q)[1..] == q && p < [i] + q;
          assert Get(db, n, [i] + q).Some?;
        }
        PrefixGivesStrands(db, children[i], rest, p[1..]);
      }
  }

  lemma BranchGet(db: NodeMap, n: Node, i: nibble, r: Path)
    requires WellFormedMap(db) && WellFormed(n) && n.Branch?
    ensures Get(db, n, [i] + r) == Get(db, n.children[i], r)
    ensures [] < [i] + r && ([i] + r)[1..] == r
  {
  }

  /** A branch with a value whose only longer key is given has that key's child only. */
  lemma OnlyChild(db: NodeMap, n: Node, key: Path)
    requires WellFormedMap(db) && WellFormed(n) && Normal(n) && n.Branch?
    requires LastExtension(db, n, key, [])
    ensures n.value.Some? && Live(n.children) == 1 && !n.children[key[0]].Nil?
  {
    assert Get(db, n, key) == Get(db, n.children[key[0]], key[1..]);
    if Live(n.children) >= 2 {
      var i, j := LiveTwo(n.children);
      var k := if i == key[0] then j else i;
      var s := SomeKey(db, n.children[k]);
      BranchGet(db, n, k, s);
    }
  }

  /** delete keeps the normal form exactly when it removes no last extension of a stored key. */
  lemma DeleteKeepsNormalForm(db: NodeMap, n: Node, key: Path)
    requires WellFormedMap(db) && WellFormed(n) && Canonical(n)
    ensures Canonical(Delete(db, n, key)) <==> !exists p :: LastExtension(db, n, key, p)
  {
    DeleteCanonical(db, n, key);
    if Strands(db, n, key) {
      var p := StrandsGivesPrefix(db, n, key);
    }
    forall p | LastExtension(db, n, key, p) ensures Strands(db, n, key) {
      PrefixGivesStrands(db, n, key, p);
    }
  }

  // ---- Histories ----

  datatype Op = Put(key: Bytes, value: Bytes) | Del(key: Bytes)

  /** The trie after a history of Put and Delete calls on an empty trie. */
  function Run(ops: seq<Op>): (n: Node)
    ensures WellFormed(n)
  {
    if ops == [] then Nil
    else
      var before := Run(ops[..|ops| - 1]);
      match ops[|ops| - 1]
      case Put(key, value) => Insert(map[], before, ToPath(key), Some(value))
      case Del(key) => Delete(map[], before, ToPath(key))
  }

  /** The map the same history describes. */
  function RunMap(ops: seq<Op>): map<Bytes, Bytes> {
    if ops == [] then map[]
    else
      var before := RunMap(ops[..|ops| - 1]);
      match ops[|ops| - 1]
      case Put(key, value) => before[key := value]
      case Del(key) => before - {key}
  }

  function Lookup(m: map<Bytes, Bytes>, key: Bytes): Value {
    if key in m then Some(m[key]) else None
  }

  /** A map read at a path; only paths of even length are keys. */
  function PathLookup(m: map<Bytes, Bytes>, q: Path): Value {
    if |q| % 2 == 0 then Lookup(m, FromPath(q)) else None
  }

  /** Byte keys and their paths correspond one to one. */
  lemma PathIsKey(key: Bytes, q: Path)
    ensures q == ToPath(key) <==> |q| % 2 == 0 && FromPath(q) == key
  {
    FromPathToPath(key);
    if |q| % 2 == 0 {
      ToPathFromPath(q);
    }
  }

  /** After any history the trie reads, at every path, exactly what the map holds. */
  lemma {:induction false} HistoryGet(ops: seq<Op>, q: Path)
    ensures Get(map[], Run(ops), q) == PathLookup(RunMap(ops), q)
  {
    if ops != [] {
      var before := ops[..|ops| - 1];
      HistoryGet(before, q);
      match ops[|ops| - 1]
      case Put(key, value) =>
        InsertGet(map[], Run(before), ToPath(key), Some(value), q);
        PathIsKey(key, q);
      case Del(key) =>
        DeleteGet(map[], Run(before), ToPath(key), q);
        PathIsKey(key, q);
    }
  }

  /** Get at a byte key after any history is lookup in the map. */
  lemma HistoryRefinesMap(ops: seq<Op>, key: Bytes)
    ensures Get(map[], Run(ops), ToPath(key)) == Lookup(RunMap(ops), key)
  {
    HistoryGet(ops, ToPath(key));
    PathIsKey(key, ToPath(key));
  }

  /** Some stored key is a proper prefix of this one and of no other stored key. */
  ghost predicate LoneExtension(m: map<Bytes, Bytes>, key: Bytes) {
    && key in m
    && exists p :: p in m && IsLastAbove(m, key, p)
  }

  ghost predicate IsLastAbove(m: map<Bytes, Bytes>, key: Bytes, p: Bytes) {
    p < key && forall k :: k in m && p < k ==> k == key
  }

  /** No Delete of the history removes the last extension of a stored key. */
  ghost predicate Tidy(ops: seq<Op>) {
    forall i :: 0 <= i < |ops| && ops[i].Del? ==> !LoneExtension(RunMap(ops[..i]), ops[i].key)
  }

  lemma {:induction false} ToPathPrefix(p: Bytes, k: Bytes)
    ensures ToPath(p) <= ToPath(k) <==> p <= k
  {
    if p != [] && k != [] {
      ToPathPrefix(p[1..], k[1..]);
      assert p == [p[0]] + p[1..] && k == [k[0]] + k[1..];
      assert ToPath(p) == [p[0] / 16, p[0] % 16] + ToPath(p[1..]);
      assert ToPath(k) == [k[0] / 16, k[0] % 16] + ToPath(k[1..]);
      if ToPath(p) <= ToPath(k) {
        assert ToPath(k)[0] == p[0] / 16 && ToPath(k)[1] == p[0] % 16;
        assert ToPath(p[1..]) == ToPath(p)[2..] <= ToPath(k)[2..] == ToPath(k[1..]);
      }
    }
  }

  /** The stranding condition, read off the map. */
  lemma LastExtensionIsLone(ops: seq<Op>, key: Bytes, p: Path)
    requires LastExtension(map[], Run(ops), ToPath(key), p)
    ensures LoneExtension(RunMap(ops), key)
  {
    var m := RunMap(ops);
    HistoryGet(ops, p);
    HistoryRefinesMap(ops, key);
    var short := FromPath(p);
    PathIsKey(short, p);
    ToPathPrefix(short, key);
    forall k | k in m && short < k ensures k == key {
      HistoryRefinesMap(ops, k);
      ToPathPrefix(short, k);
      FromPathToPath(k);
      FromPathToPath(key);
      assert p < ToPath(k);
    }
    assert IsLastAbove(m, key, short);
  }

  /** A tidy history keeps the trie canonical throughout. */
  lemma {:induction false} TidyCanonical(ops: seq<Op>)
    requires Tidy(ops)
    ensures Canonical(Run(ops))
  {
    if ops != [] {
      var before := ops[..|ops| - 1];
      forall i | 0 <= i < |before| && before[i].Del?
        ensures !LoneExtension(RunMap(before[..i]), before[i].key)
      {
        assert before[..i] == ops[..i] && before[i] == ops[i];
      }
      TidyCanonical(before);
      match ops[|ops| - 1]
      case Put(key, value) => InsertNormal(map[], Run(before), ToPath(key), Some(value));
      case Del(key) =>
        DeleteKeepsNormalForm(map[], Run(before), ToPath(key));
        forall p | LastExtension(map[], Run(before), ToPath(key), p) ensures false {
          LastExtensionIsLone(before, key, p);
        }
    }
  }

  /** Any two tidy histories that describe the same map build the same tree. */
  lemma HistoryIndependent(a: seq<Op>, b: seq<Op>)
    requires Tidy(a) && Tidy(b) && RunMap(a) == RunMap(b)
    ensures SameShape(Run(a), Run(b))
  {
    TidyCanonical(a);
    TidyCanonical(b);
    forall q ensures Get(map[], Run(a), q) == Get(map[], Run(b), q) {
      HistoryGet(a, q);
      HistoryGet(b, q);
    }
    ContentsDetermineShape(map[], Run(a), Run(b));
  }

  /** Every key of the history has the given length, as StateDB's addresses and slots do. */
  ghost predicate UniformKeys(ops: seq<Op>, length: nat) {
    forall i :: 0 <= i < |ops| ==> |ops[i].key| == length
  }

  lemma {:induction false} UniformMap(ops: seq<Op>, length: nat, key: Bytes)
    requires UniformKeys(ops, length) && key in RunMap(ops)
    ensures |key| == length
  {
    var last := ops[|ops| - 1];
    if key != last.key {
      UniformMap(ops[..|ops| - 1], length, key);
    }
  }

  /** With keys of one length every history is tidy. */
  lemma UniformIsTidy(ops: seq<Op>, length: nat)
    requires UniformKeys(ops, length)
    ensures Tidy(ops)
  {
    forall i | 0 <= i < |ops| && ops[i].Del? ensures !LoneExtension(RunMap(ops[..i]), ops[i].key) {
      forall p | p in RunMap(ops[..i]) ensures !IsLastAbove(RunMap(ops[..i]), ops[i].key, p) {
        UniformMap(ops[..i], length, p);
      }
    }
  }

  /** Histories over keys of one length: the tree is a function of the map. */
  lemma UniformHistoryIndependent(a: seq<Op>, b: seq<Op>, length: nat)
    requires UniformKeys(a, length) && UniformKeys(b, length) && RunMap(a) == RunMap(b)
    ensures SameShape(Run(a), Run(b))
  {
    UniformIsTidy(a, length);
    UniformIsTidy(b, length);
    HistoryIndependent(a, b);
  }

  /** A leaf at the end of its path, another value put below it and deleted again: the branch stays. */
  lemma BranchStays(path: Path, v: Value, w: Value)
    requires path != [] && v.Some?
    ensures var m := Insert(map[], Leaf([], v, FRESH), path, w);
            Delete(map[], m, path).Branch?
  {
    var m := Insert(map[], Leaf([], v, FRESH), path, w);
    assert Common([], path) == 0 && path[0..] == path;
    assert m == Branch(NewBranch().children[path[0] := Leaf(path[1..], w, FRESH)], v, FRESH);
    assert Delete(map[], m.children[path[0]], path[1..]) == Nil;
  }

  /**
   * Without tidiness it fails: storing the empty key and any other key, then
   * deleting the other, leaves a childless branch where a leaf belongs.
   */
  lemma UntidyHistoryDiffers(key: Bytes, v: Bytes, w: Bytes)
    requires key != []
    ensures RunMap([Put([], v), Put(key, w), Del(key)]) == RunMap([Put([], v)])
    ensures Run([Put([], v), Put(key, w), Del(key)]).Branch? && Run([Put([], v)]).Leaf?
    ensures !SameShape(Run([Put([], v), Put(key, w), Del(key)]), Run([Put([], v)]))
  {
    var one := [Put([], v)];
    var two := [Put([], v), Put(key, w)];
    var three := [Put([], v), Put(key, w), Del(key)];
    assert one[..0] == [] && two[..1] == one && three[..2] == two;
    var leaf := Leaf([], Some(v), FRESH);
    assert Run(one) == leaf;
    assert Run(two) == Insert(map[], leaf, ToPath(key), Some(w));
    assert Run(three) == Delete(map[], Run(two), ToPath(key));
    BranchStays(ToPath(key), Some(v), Some(w));
  }
}
