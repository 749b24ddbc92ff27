/**
 * The trie's nodes as the objects they are in the source, with pointers between
 * them: the database caches an object under the hash it was loaded by, and get,
 * insert and commit change objects in place (internal/state/mpt/trie.go:134-335,
 * 429-497, database.go:34-62).  Flags are left out: every node is encoded anew.
 */
module TrieCache {
  import opened Wrappers
  import opened Nibbles
  import opened TrieNode
  import opened NodeCodec

  datatype Ptr = Null | Hashed(hash: Hash) | At(id: nat)

  datatype Cell =
    | LeafCell(suffix: Path, value: Value)
    | ExtCell(prefix: Path, next: Ptr)
    | BranchCell(children: seq<Ptr>, value: Value)

  /** All objects so far, and the one cached under each hash. */
  datatype Memory = Memory(cells: seq<Cell>, cache: map<Hash, nat>)

  type Hasher = Bytes -> Hash

  /** A decoded node has references or nothing below it. */
  function PtrOf(n: Node): Ptr {
    if n.Ref? then Hashed(n.hash) else Null
  }

  function Pointers(children: seq<Node>): (ps: seq<Ptr>)
    ensures |ps| == |children| && forall i :: 0 <= i < |ps| ==> ps[i] == PtrOf(children[i])
  {
    if children == [] then [] else Pointers(children[..|children| - 1]) + [PtrOf(children[|children| - 1])]
  }

  function New(m: Memory, c: Cell): (Memory, Ptr) {
    (Memory(m.cells + [c], m.cache), At(|m.cells|))
  }

  /** GetNode; None is its error. */
  function Load(db: NodeMap, m: Memory, h: Hash): (r: (Memory, Option<Ptr>))
    ensures r.1.Some? ==> !r.1.value.Hashed?
  {
    if h == EMPTY_HASH then (m, Some(Null))
    else if h in m.cache then (m, Some(At(m.cache[h])))
    else if h !in db then (m, None)
    else
      var id := |m.cells|;
      match db[h]
      case Leaf(suffix, value, _) => (Memory(m.cells + [LeafCell(suffix, value)], m.cache[h := id]), Some(At(id)))
      case Ext(prefix, next, _) => (Memory(m.cells + [ExtCell(prefix, PtrOf(next))], m.cache[h := id]), Some(At(id)))
      case Branch(children, value, _) =>
        (Memory(m.cells + [BranchCell(Pointers(children), value)], m.cache[h := id]), Some(At(id)))
      case _ => (m, Some(Null))
  }

  function Measure(p: Ptr): nat {
    if p.Hashed? then 1 else 0
  }

  /** What a pointer points to. */
  function Find(m: Memory, p: Ptr): Option<Cell> {
    if p.At? && p.id < |m.cells| then Some(m.cells[p.id]) else None
  }

  /** n.Children[i] = p. */
  function SetChild(m: Memory, id: nat, i: nibble, p: Ptr): Memory {
    if id < |m.cells| && m.cells[id].BranchCell? && i < |m.cells[id].children|
    then m.(cells := m.cells[id := BranchCell(m.cells[id].children[i := p], m.cells[id].value)])
    else m
  }

  /** n.Next = p. */
  function SetNext(m: Memory, id: nat, p: Ptr): Memory {
    if id < |m.cells| && m.cells[id].ExtCell? then m.(cells := m.cells[id := ExtCell(m.cells[id].prefix, p)]) else m
  }

  /** get: the memory afterwards, the node handed back, and the value. */
  function Read(db: NodeMap, m: Memory, p: Ptr, key: Path): (Memory, Ptr, Value)
    decreases |key|, Measure(p)
  {
    match p
    case Null => (m, p, None)
    case Hashed(h) =>
      var (loaded, q) := Load(db, m, h);
      if q.None? then (m, p, None) else Read(db, loaded, q.value, key)
    case At(id) =>
      match Find(m, p)
      case Some(LeafCell(suffix, value)) => (m, p, if suffix == key then value else None)
      case Some(ExtCell(prefix, next)) =>
        if prefix == [] || Common(prefix, key) != |prefix| then (m, p, None) else Read(db, m, next, key[|prefix|..])
      case Some(BranchCell(children, value)) =>
        if key == [] then (m, p, value)
        else if key[0] >= |children| || children[key[0]].Null? then (m, p, None)
        else
          var (after, handed, v) := Read(db, m, children[key[0]], key[1..]);
          (if handed == children[key[0]] then after else SetChild(after, id, key[0], handed), p, v)
      case None => (m, p, None)
  }

  /** A new branch cell with a value put at a path below it. */
  function Hang(m: Memory, children: seq<Ptr>, value: Value, rest: Path, v: Value): (Memory, seq<Ptr>, Value) {
    if rest == [] then (m, children, v)
    else if rest[0] >= |children| then (m, children, value)
    else (m.(cells := m.cells + [LeafCell(rest[1..], v)]), children[rest[0] := At(|m.cells|)], value)
  }

  const NO_CHILDREN: seq<Ptr> :=
    [Null, Null, Null, Null, Null, Null, Null, Null, Null, Null, Null, Null, Null, Null, Null, Null]

  /** The branch at which a leaf or an extension splits, below the common prefix. */
  function Split(m: Memory, pre: Path, children: seq<Ptr>, value: Value): (Memory, Ptr) {
    var (branched, b) := New(m, BranchCell(children, value));
    if pre == [] then (branched, b) else New(branched, ExtCell(pre, b))
  }

  /** insert: the memory afterwards, and the node that takes the place of the given one. */
  function Put(db: NodeMap, m: Memory, p: Ptr, key: Path, value: Value): (Memory, Ptr)
    decreases |key|, Measure(p)
  {
    match p
    case Null => New(m, LeafCell(key, value))
    case Hashed(h) =>
      var (loaded, q) := Load(db, m, h);
      Put(db, loaded, if q.None? then Null else q.value, key, value)
    case At(id) =>
      match Find(m, p)
      case None => New(m, LeafCell(key, value))
      case Some(LeafCell(suffix, was)) =>
        if suffix == key then New(m, LeafCell(suffix, value))
        else
          var n := Common(suffix, key);
          var (m1, c1, v1) := Hang(m, NO_CHILDREN, None, suffix[n..], was);
          var (m2, c2, v2) := Hang(m1, c1, v1, key[n..], value);
          Split(m2, key[..n], c2, v2)
      case Some(ExtCell(prefix, next)) =>
        var n := Common(prefix, key);
        if prefix == [] then (m, p)
        else if n == |prefix| then
          var (after, q) := Put(db, m, next, key[n..], value);
          (SetNext(after, id, q), p)
        else
          var (m1, q) := if |prefix| == n + 1 then (m, next) else New(m, ExtCell(prefix[n + 1..], next));
          var (m2, c2, v2) := Hang(m1, NO_CHILDREN[prefix[n] := q], None, key[n..], value);
          Split(m2, prefix[..n], c2, v2)
      case Some(BranchCell(children, was)) =>
        if key == [] then (m.(cells := m.cells[id := BranchCell(children, value)]), p)
        else if key[0] >= |children| then (m, p)
        else
          var (after, q) := Put(db, m, children[key[0]], key[1..], value);
          (SetChild(after, id, key[0], q), p)
  }

  // ---- Commit ----

  function HashAt(p: Ptr): Hash {
    if p.Hashed? then p.hash else EMPTY_HASH
  }

  function Table(children: seq<Ptr>): (hashes: seq<Hash>)
    ensures |hashes| == |children| && forall i :: 0 <= i < |hashes| ==> hashes[i] == HashAt(children[i])
  {
    if children == [] then [] else Table(children[..|children| - 1]) + [HashAt(children[|children| - 1])]
  }

  /** commitNode, on trees of at most this height: the memory afterwards and the hash. */
  function Commit(H: Hasher, m: Memory, p: Ptr, height: nat): (Memory, Hash)
    decreases height, 17
  {
    match Find(m, p)
    case None => (m, HashAt(p))
    case Some(LeafCell(suffix, value)) => (m, H(EncodeLeaf(suffix, value)))
    case Some(ExtCell(prefix, next)) =>
      if height == 0 then (m, EMPTY_HASH)
      else
        var (after, h) := Commit(H, m, next, height - 1);
        (after, H(EncodeExt(prefix, h)))
    case Some(BranchCell(_, _)) =>
      if height == 0 then (m, EMPTY_HASH)
      else
        var after := CommitChildren(H, m, p.id, 0, height);
        match Find(after, p)
        case Some(BranchCell(children, value)) =>
          (after, if |children| == 16 then H(EncodeBranch(value, Table(children))) else EMPTY_HASH)
        case _ => (after, EMPTY_HASH)
  }

  /** The loop over the children: each is committed and replaced by its hash. */
  function CommitChildren(H: Hasher, m: Memory, id: nat, i: nat, height: nat): Memory
    requires height > 0 && i <= 16
    decreases height, 16 - i
  {
    if i == 16 then m
    else
      match Find(m, At(id))
      case Some(BranchCell(children, _)) =>
        if i >= |children| || !children[i].At? then CommitChildren(H, m, id, i + 1, height)
        else
          var (after, h) := Commit(H, m, children[i], height - 1);
          CommitChildren(H, SetChild(after, id, i, Hashed(h)), id, i + 1, height)
      case _ => m
  }

  // ---- A value written back ----

  /** A branch with references at 1 and 2. */
  function Fork(a: Hash, b: Hash): (ps: seq<Ptr>)
    ensures |ps| == 16 && ps[1] == Hashed(a) && ps[2] == Hashed(b)
    ensures forall i :: 0 <= i < 16 && i != 1 && i != 2 ==> ps[i] == Null
  {
    NO_CHILDREN[1 := Hashed(a)][2 := Hashed(b)]
  }

  function ForkHash(H: Hasher, a: Hash, b: Hash): Hash {
    H(EncodeBranch(None, Table(Fork(a, b))))
  }

  function LeafHash(H: Hasher, v: Bytes): Hash {
    H(EncodeLeaf([], Some(v)))
  }

  /** The store holds such a branch under a hash. */
  ghost predicate HoldsFork(db: NodeMap, h: Hash, a: Hash, b: Hash) {
    h != EMPTY_HASH && h in db && db[h].Branch? && db[h].value == None && Pointers(db[h].children) == Fork(a, b)
  }

  ghost predicate HoldsLeaf(db: NodeMap, h: Hash, v: Bytes) {
    h != EMPTY_HASH && h in db && db[h].Leaf? && db[h].suffix == [] && db[h].value == Some(v)
  }

  /** Writing a leaf of which the key is used up: it is loaded, and a new one takes its place. */
  lemma PutLeaf(db: NodeMap, m: Memory, h: Hash, v: Bytes, w: Bytes)
    requires HoldsLeaf(db, h, v) && h !in m.cache
    ensures Put(db, m, Hashed(h), [], Some(w))
         == (Memory(m.cells + [LeafCell([], Some(v)), LeafCell([], Some(w))], m.cache[h := |m.cells|]),
             At(|m.cells| + 1))
  {
    var n := |m.cells|;
    var loaded := Memory(m.cells + [LeafCell([], Some(v))], m.cache[h := n]);
    assert Load(db, m, h) == (loaded, Some(At(n)));
    assert Put(db, loaded, At(n), [], Some(w)) == New(loaded, LeafCell([], Some(w)));
    assert loaded.cells + [LeafCell([], Some(w))] == m.cells + [LeafCell([], Some(v)), LeafCell([], Some(w))];
  }

  /** Writing below a branch in memory: the child is put in place of the one at 1. */
  lemma PutBelow(db: NodeMap, m: Memory, id: nat, a: Hash, b: Hash, rest: Path, value: Value, after: Memory, q: Ptr)
    requires id < |m.cells| && m.cells[id] == BranchCell(Fork(a, b), None)
    requires Put(db, m, Hashed(a), rest, value) == (after, q)
    requires id < |after.cells| && after.cells[id] == m.cells[id]
    ensures Put(db, m, At(id), [1] + rest, value)
         == (after.(cells := after.cells[id := BranchCell(Fork(a, b)[1 := q], None)]), At(id))
  {
    assert ([1] + rest)[0] == 1 && ([1] + rest)[1..] == rest;
  }

  lemma PutLoaded(db: NodeMap, m: Memory, h: Hash, a: Hash, b: Hash, key: Path, value: Value)
    requires HoldsFork(db, h, a, b) && h !in m.cache
    ensures Put(db, m, Hashed(h), key, value)
         == Put(db, Memory(m.cells + [BranchCell(Fork(a, b), None)], m.cache[h := |m.cells|]), At(|m.cells|),
                 key, value)
  {
  }

  /** Children that are no objects are left alone. */
  lemma {:induction false} Settled(H: Hasher, m: Memory, id: nat, i: nat, height: nat)
    requires height > 0 && i <= 16 && id < |m.cells| && m.cells[id].BranchCell? && |m.cells[id].children| == 16
    requires forall j :: i <= j < 16 ==> !m.cells[id].children[j].At?
    ensures CommitChildren(H, m, id, i, height) == m
    decreases 16 - i
  {
    if i < 16 {
      Settled(H, m, id, i + 1, height);
    }
  }

  /** Committing a branch of which only the child at 1 is an object. */
  lemma CommitFork(H: Hasher, m: Memory, id: nat, a: Hash, b: Hash, child: Ptr, height: nat, after: Memory, h: Hash)
    requires height > 0 && id < |m.cells| && child.At? && m.cells[id] == BranchCell(Fork(a, b)[1 := child], None)
    requires Commit(H, m, child, height - 1) == (after, h)
    requires id < |after.cells| && after.cells[id] == m.cells[id]
    ensures Commit(H, m, At(id), height)
         == (after.(cells := after.cells[id := BranchCell(Fork(h, b), None)]), ForkHash(H, h, b))
  {
    var done := after.(cells := after.cells[id := BranchCell(Fork(h, b), None)]);
    assert Fork(a, b)[1 := child][1 := Hashed(h)] == Fork(h, b);
    assert SetChild(after, id, 1, Hashed(h)) == done;
    Settled(H, done, id, 2, height);
    assert CommitChildren(H, m, id, 1, height) == CommitChildren(H, done, id, 2, height);
    assert CommitChildren(H, m, id, 0, height) == CommitChildren(H, m, id, 1, height);
  }

  function L(v: Bytes): Cell {
    LeafCell([], Some(v))
  }

  function B(a: Hash, b: Hash): Cell {
    BranchCell(Fork(a, b), None)
  }

  /** The branch below a branch in memory, with a leaf below it, and what a write at 1, 1 makes of them. */
  function Written(m: Memory, r: nat, x: Hash, l: Hash, b: Hash, c: Hash, v: Bytes, w: Bytes): Memory
    requires r < |m.cells|
  {
    var n := |m.cells|;
    var root, below := BranchCell(Fork(x, c)[1 := At(n)], None), BranchCell(Fork(l, b)[1 := At(n + 2)], None);
    Memory(m.cells[r := root] + [below, L(v), L(w)], m.cache[x := n][l := n + 1])
  }

  /** The branch at x is not in memory and has a leaf at 1, which is not in memory either. */
  ghost predicate Unloaded(db: NodeMap, m: Memory, x: Hash, l: Hash, b: Hash, v: Bytes) {
    HoldsFork(db, x, l, b) && HoldsLeaf(db, l, v) && x !in m.cache && l !in m.cache && x != l
  }

  lemma WriteBelow(db: NodeMap, m: Memory, r: nat, x: Hash, l: Hash, b: Hash, c: Hash, v: Bytes, w: Bytes)
    requires r < |m.cells| && m.cells[r] == B(x, c) && Unloaded(db, m, x, l, b, v)
    ensures Put(db, m, At(r), [1, 1], Some(w)) == (Written(m, r, x, l, b, c, v, w), At(r))
  {
    var n := |m.cells|;
    var m1 := Memory(m.cells + [B(l, b)], m.cache[x := n]);
    var m2 := Memory(m1.cells + [L(v), L(w)], m1.cache[l := n + 1]);
    PutLeaf(db, m1, l, v, w);
    PutBelow(db, m1, n, l, b, [], Some(w), m2, At(n + 2));
    PutLoaded(db, m, x, l, b, [1], Some(w));
    assert [1] + [] == [1] && [1] + [1] == [1, 1];
    var m3 := m2.(cells := m2.cells[n := BranchCell(Fork(l, b)[1 := At(n + 2)], None)]);
    PutBelow(db, m, r, x, c, [1], Some(w), m3, At(n));
    assert m3.cells[r := BranchCell(Fork(x, c)[1 := At(n)], None)] == Written(m, r, x, l, b, c, v, w).cells;
  }

  /** After the commit the two branches hold references again. */
  function Settle(H: Hasher, m: Memory, r: nat, x: Hash, l: Hash, b: Hash, c: Hash, v: Bytes, w: Bytes): Memory
    requires r < |m.cells|
  {
    var n, lw := |m.cells|, LeafHash(H, w);
    Memory(m.cells[r := B(ForkHash(H, lw, b), c)] + [B(lw, b), L(v), L(w)], m.cache[x := n][l := n + 1])
  }

  lemma CommitBelow(H: Hasher, m: Memory, r: nat, x: Hash, l: Hash, b: Hash, c: Hash, v: Bytes, w: Bytes)
    requires r < |m.cells|
    ensures Commit(H, Written(m, r, x, l, b, c, v, w), At(r), 2)
         == (Settle(H, m, r, x, l, b, c, v, w), ForkHash(H, ForkHash(H, LeafHash(H, w), b), c))
  {
    CommitTwo(H, Written(m, r, x, l, b, c, v, w), r, |m.cells|, x, l, b, c, w);
    var m1, lw := Written(m, r, x, l, b, c, v, w), LeafHash(H, w);
    assert m1.cells[|m.cells| := B(lw, b)][r := B(ForkHash(H, lw, b), c)] == Settle(H, m, r, x, l, b, c, v, w).cells;
  }

  lemma CommitTwo(H: Hasher, m: Memory, r: nat, n: nat, x: Hash, l: Hash, b: Hash, c: Hash, w: Bytes)
    requires r < n && n + 2 < |m.cells| && m.cells[n + 2] == L(w)
    requires m.cells[r] == BranchCell(Fork(x, c)[1 := At(n)], None)
    requires m.cells[n] == BranchCell(Fork(l, b)[1 := At(n + 2)], None)
    ensures var y := ForkHash(H, LeafHash(H, w), b);
            Commit(H, m, At(r), 2)
            == (m.(cells := m.cells[n := B(LeafHash(H, w), b)][r := B(y, c)]), ForkHash(H, y, c))
  {
    var lw := LeafHash(H, w);
    CommitFork(H, m, n, l, b, At(n + 2), 1, m, lw);
    var m2 := m.(cells := m.cells[n := B(lw, b)]);
    CommitFork(H, m, r, x, c, At(n), 2, m2, ForkHash(H, lw, b));
  }

  /** One write and one commit. */
  lemma OneRound(H: Hasher, db: NodeMap, m: Memory, p: Ptr, r: nat, x: Hash, l: Hash, b: Hash, c: Hash, v: Bytes,
                 w: Bytes, a: (Memory, Ptr), done: (Memory, Hash))
    requires r < |m.cells| && m.cells[r] == B(x, c) && Unloaded(db, m, x, l, b, v) && p == At(r)
    requires a == Put(db, m, p, [1, 1], Some(w)) && done == Commit(H, a.0, a.1, 2)
    ensures a.1 == At(r) && done == (Settle(H, m, r, x, l, b, c, v, w), RootOf(H, w, b, c))
  {
    WriteBelow(db, m, r, x, l, b, c, v, w);
    CommitBelow(H, m, r, x, l, b, c, v, w);
  }

  /** Both trees of the example are stored: below the root at 1 a branch with a leaf at 1, holding v or w. */
  ghost predicate Setting(H: Hasher, db: NodeMap, v: Bytes, w: Bytes, b: Hash, c: Hash) {
    var lv, lw := LeafHash(H, v), LeafHash(H, w);
    var xv, xw := ForkHash(H, lv, b), ForkHash(H, lw, b);
    && HoldsLeaf(db, lv, v) && HoldsLeaf(db, lw, w)
    && HoldsFork(db, xv, lv, b) && HoldsFork(db, xw, lw, b) && HoldsFork(db, ForkHash(H, xv, c), xv, c)
    && lv != lw && xv !in {lv, lw} && xw !in {lv, lw, xv} && ForkHash(H, xv, c) !in {lv, lw, xv, xw}
  }

  function RootOf(H: Hasher, v: Bytes, b: Hash, c: Hash): Hash {
    ForkHash(H, ForkHash(H, LeafHash(H, v), b), c)
  }

  /** A trie opened at the first root after a write of w, a commit, a write of v and a commit. */
  function BackAgain(H: Hasher, db: NodeMap, v: Bytes, w: Bytes, root: Hash): (Memory, Ptr, Hash) {
    var (m1, p) := Put(db, Memory([], map[]), Hashed(root), [1, 1], Some(w));
    var (m2, _) := Commit(H, m1, p, 2);
    var (m3, q) := Put(db, m2, p, [1, 1], Some(v));
    var (m4, h) := Commit(H, m3, q, 2);
    (m4, q, h)
  }

  lemma BackAgainIs(H: Hasher, db: NodeMap, v: Bytes, w: Bytes, b: Hash, c: Hash, m0: Memory)
    requires Setting(H, db, v, w, b, c)
             && m0 == Memory([B(ForkHash(H, LeafHash(H, v), b), c)], map[RootOf(H, v, b, c) := 0])
    ensures var lv, lw := LeafHash(H, v), LeafHash(H, w);
            var m2 := Settle(H, m0, 0, ForkHash(H, lv, b), lv, b, c, v, w);
            BackAgain(H, db, v, w, RootOf(H, v, b, c))
            == (Settle(H, m2, 0, ForkHash(H, lw, b), lw, b, c, w, v), At(0), RootOf(H, v, b, c))
  {
    var lv, lw := LeafHash(H, v), LeafHash(H, w);
    var xv, xw, root := ForkHash(H, lv, b), ForkHash(H, lw, b), RootOf(H, v, b, c);
    PutLoaded(db, Memory([], map[]), root, xv, c, [1, 1], Some(w));
    assert [] + [B(xv, c)] == m0.cells;
    var a := Put(db, m0, At(0), [1, 1], Some(w));
    var m2 := Settle(H, m0, 0, xv, lv, b, c, v, w);
    OneRound(H, db, m0, At(0), 0, xv, lv, b, c, v, w, a, Commit(H, a.0, a.1, 2));
    var a2 := Put(db, m2, At(0), [1, 1], Some(v));
    OneRound(H, db, m2, At(0), 0, xw, lw, b, c, w, v, a2, Commit(H, a2.0, a2.1, 2));
  }

  /** Reading below a branch in memory, through a cached object, and through one that is loaded now. */
  lemma ReadBelow(db: NodeMap, m: Memory, id: nat, a: Hash, b: Hash, rest: Path)
    requires id < |m.cells| && m.cells[id] == B(a, b)
    ensures Read(db, m, At(id), [1] + rest).2 == Read(db, m, Hashed(a), rest).2
  {
    assert ([1] + rest)[0] == 1 && ([1] + rest)[1..] == rest;
  }

  lemma ReadCached(db: NodeMap, m: Memory, h: Hash, key: Path)
    requires h != EMPTY_HASH && h in m.cache
    ensures Read(db, m, Hashed(h), key) == Read(db, m, At(m.cache[h]), key)
  {
  }

  lemma ReadFork(db: NodeMap, m: Memory, h: Hash, a: Hash, b: Hash, key: Path)
    requires HoldsFork(db, h, a, b) && h !in m.cache
    ensures Read(db, m, Hashed(h), key)
            == Read(db, Memory(m.cells + [B(a, b)], m.cache[h := |m.cells|]), At(|m.cells|), key)
  {
  }

  lemma ReadLeaf(db: NodeMap, m: Memory, h: Hash, v: Bytes)
    requires HoldsLeaf(db, h, v) && h !in m.cache
    ensures Read(db, m, Hashed(h), []).2 == Some(v)
  {
    assert Load(db, m, h).0.cells[|m.cells|] == L(v);
  }

  lemma ReadFirst(H: Hasher, db: NodeMap, v: Bytes, w: Bytes, b: Hash, c: Hash)
    requires Setting(H, db, v, w, b, c)
    ensures Read(db, Memory([], map[]), Hashed(RootOf(H, v, b, c)), [1, 1]).2 == Some(v)
  {
    var lv := LeafHash(H, v);
    var xv, root := ForkHash(H, lv, b), RootOf(H, v, b, c);
    var m1 := Memory([] + [B(xv, c)], map[root := 0]);
    var m2 := Memory(m1.cells + [B(lv, b)], m1.cache[xv := 1]);
    assert [1] + [1] == [1, 1] && [1] + [] == [1] && map[][root := 0] == m1.cache;
    ReadFork(db, Memory([], map[]), root, xv, c, [1, 1]);
    ReadBelow(db, m1, 0, xv, c, [1]);
    ReadFork(db, m1, xv, lv, b, [1]);
    ReadBelow(db, m2, 1, lv, b, []);
    ReadLeaf(db, m2, lv, v);
  }

  /** The branch the root refers to is the object cached under its hash, and that holds another leaf. */
  lemma ReadStale(db: NodeMap, m: Memory, r: nat, x: Hash, c: Hash, l: Hash, b: Hash, w: Bytes)
    requires r < |m.cells| && m.cells[r] == B(x, c) && x != EMPTY_HASH && l != EMPTY_HASH
    requires x in m.cache && m.cache[x] < |m.cells| && m.cells[m.cache[x]] == B(l, b)
    requires l in m.cache && m.cache[l] < |m.cells| && m.cells[m.cache[l]] == L(w)
    ensures Read(db, m, At(r), [1, 1]).2 == Some(w)
  {
    assert [1] + [1] == [1, 1] && [1] + [] == [1];
    ReadBelow(db, m, r, x, c, [1]);
    ReadCached(db, m, x, [1]);
    ReadBelow(db, m, m.cache[x], l, b, []);
    ReadCached(db, m, l, []);
  }

  /**
   * A trie opened at a root holds v at a key.  Write w, commit, write v back,
   * commit: the root is the first one again, but the trie reads w, because the
   * cache holds under the first branch's hash the object that w was written to.
   */
  lemma WriteBackReadsTheMiddle(H: Hasher, db: NodeMap, v: Bytes, w: Bytes, b: Hash, c: Hash)
    requires Setting(H, db, v, w, b, c) && v != w
    ensures var root := RootOf(H, v, b, c);
            var (m, p, h) := BackAgain(H, db, v, w, root);
            && Read(db, Memory([], map[]), Hashed(root), [1, 1]).2 == Some(v)
            && h == root && Read(db, m, p, [1, 1]).2 == Some(w)
  {
    var lv, lw := LeafHash(H, v), LeafHash(H, w);
    var xv, xw := ForkHash(H, lv, b), ForkHash(H, lw, b);
    var m0 := Memory([B(xv, c)], map[RootOf(H, v, b, c) := 0]);
    BackAgainIs(H, db, v, w, b, c, m0);
    ReadFirst(H, db, v, w, b, c);
    var m2 := Settle(H, m0, 0, xv, lv, b, c, v, w);
    ReadStale(db, Settle(H, m2, 0, xw, lw, b, c, w, v), 0, xv, c, lw, b, w);
  }
}
