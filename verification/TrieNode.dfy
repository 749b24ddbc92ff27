/**
 * Nodes of the Merkle-Patricia trie and the recursive insert, get and delete
 * (internal/state/mpt/node.go and trie.go).
 *
 * Nodes are values here: where the source changes an extension or a branch in
 * place, the function returns the changed node.  An unset child pointer and a
 * nilNode are both Nil; every reader in the source treats them alike.
 */
module TrieNode {
  import opened Wrappers
  import opened Nibbles

  const ZEROS: Bytes := [
    0, 0, 0, 0, 0, 0, 0, 0, 0, 0, 0, 0, 0, 0, 0, 0,
    0, 0, 0, 0, 0, 0, 0, 0, 0, 0, 0, 0, 0, 0, 0, 0]

  type Hash = h: Bytes | |h| == 32 witness ZEROS

  /** EmptyNodeHash, the hash of an empty trie. */
  const EMPTY_HASH: Hash := ZEROS

  /** A value slot; None is Go's nil slice. */
  type Value = Option<Bytes>

  /** dirtyFlag, hashValid and hashCache of a leaf, extension or branch. */
  datatype Meta = Meta(dirty: bool, valid: bool, cache: Hash)

  const FRESH := Meta(true, false, EMPTY_HASH)

  /** Sets dirtyFlag and leaves the cached hash alone. */
  function Dirty(meta: Meta): Meta {
    Meta(true, meta.valid, meta.cache)
  }

  const LOADED := Meta(false, false, EMPTY_HASH)

  datatype Node =
    | Nil
    | Ref(hash: Hash)
    | Leaf(suffix: Path, value: Value, meta: Meta)
    | Ext(prefix: Path, next: Node, meta: Meta)
    | Branch(children: seq<Node>, value: Value, meta: Meta)

  /** Decoded view of the node database: what GetNode finds under each hash. */
  type NodeMap = map<Hash, Node>

  /** Shape invariant of nodes in memory: 16 children, and no empty extension. */
  ghost predicate WellFormed(n: Node) {
    match n
    case Nil | Ref(_) | Leaf(_, _, _) => true
    case Ext(prefix, next, _) => |prefix| > 0 && WellFormed(next)
    case Branch(children, _, _) =>
      |children| == 16 && forall i :: 0 <= i < 16 ==> WellFormed(children[i])
  }

  /** Decoding never yields a bare reference, and stored nodes are well formed. */
  ghost predicate WellFormedMap(db: NodeMap) {
    forall h :: h in db ==> WellFormed(db[h]) && !db[h].Ref?
  }

  /** A new branch node: no children, no value, dirty. */
  function NewBranch(): (r: Node)
    ensures r.Branch? && WellFormed(r) && r.value.None? && r.meta == FRESH
    ensures forall i :: 0 <= i < 16 ==> r.children[i].Nil?
  {
    Branch([Nil, Nil, Nil, Nil, Nil, Nil, Nil, Nil, Nil, Nil, Nil, Nil, Nil, Nil, Nil, Nil], None, FRESH)
  }

  /** GetNode: the empty hash is the nil node; None stands for its error. */
  function Resolve(db: NodeMap, h: Hash): (r: Option<Node>)
    requires WellFormedMap(db)
    ensures r.Some? ==> WellFormed(r.value) && !r.value.Ref?
  {
    if h == EMPTY_HASH then Some(Nil) else if h in db then Some(db[h]) else None
  }

  /** Termination measure: a reference is looked through without consuming the key. */
  function Weight(n: Node): nat {
    if n.Ref? then 1 else 0
  }

  /** Trie.get, on the part of the key that is still to be matched. */
  function Get(db: NodeMap, n: Node, key: Path): Value
    requires WellFormedMap(db) && WellFormed(n)
    decreases |key|, Weight(n)
  {
    match n
    case Nil => None
    case Ref(h) =>
      var resolved := Resolve(db, h);
      if resolved.None? then None else Get(db, resolved.value, key)
    case Leaf(suffix, value, _) => if suffix == key then value else None
    case Ext(prefix, next, _) =>
      if Common(prefix, key) != |prefix| then None else Get(db, next, key[|prefix|..])
    case Branch(children, value, _) =>
      if key == [] then value else Get(db, children[key[0]], key[1..])
  }

  /**
   * The node get hands back to its caller.  For an extension that matches, the
   * source hands back what it got for the node below, so the prefix is gone.
   */
  function Visit(db: NodeMap, n: Node, key: Path): (r: Node)
    requires WellFormedMap(db) && WellFormed(n)
    ensures WellFormed(r)
    decreases |key|, Weight(n)
  {
    match n
    case Nil | Leaf(_, _, _) => n
    case Ref(h) =>
      var resolved := Resolve(db, h);
      if resolved.None? then n else Visit(db, resolved.value, key)
    case Ext(prefix, next, _) =>
      if Common(prefix, key) != |prefix| then n else Visit(db, next, key[|prefix|..])
    case Branch(children, value, meta) =>
      if key == [] then n
      else Branch(children[key[0] := Visit(db, children[key[0]], key[1..])], value, meta)
  }

  /**
   * The node itself after get: a branch stores what it was handed for its child.
   * A reference stays, but from then on it leads to the node that the database
   * has cached for it, which is the one get has changed; so here that node takes
   * its place.
   */
  function AfterGet(db: NodeMap, n: Node, key: Path): (r: Node)
    requires WellFormedMap(db) && WellFormed(n)
    ensures WellFormed(r)
    decreases |key|, Weight(n)
  {
    match n
    case Nil | Leaf(_, _, _) => n
    case Ref(h) =>
      var resolved := Resolve(db, h);
      if resolved.None? then n else AfterGet(db, resolved.value, key)
    case Ext(prefix, next, meta) =>
      if Common(prefix, key) != |prefix| then n else Ext(prefix, AfterGet(db, next, key[|prefix|..]), meta)
    case Branch(_, _, _) => Visit(db, n, key)
  }

  /** Puts a value below a branch, at a path that leaves the branch by a leaf. */
  function Hang(branch: Node, rest: Path, value: Value): (r: Node)
    requires branch.Branch? && WellFormed(branch)
    ensures r.Branch? && WellFormed(r) && r.meta == branch.meta
  {
    if rest == [] then Branch(branch.children, value, branch.meta)
    else Branch(branch.children[rest[0] := Leaf(rest[1..], value, FRESH)], branch.value, branch.meta)
  }

  /** Puts the unmatched rest of an extension below a branch. */
  function HangExt(branch: Node, rest: Path, next: Node): (r: Node)
    requires branch.Branch? && WellFormed(branch) && WellFormed(next) && rest != []
    ensures r.Branch? && WellFormed(r) && r.meta == branch.meta
  {
    var child := if |rest| == 1 then next else Ext(rest[1..], next, FRESH);
    Branch(branch.children[rest[0] := child], branch.value, branch.meta)
  }

  /** Wraps a branch in the extension for the common prefix, if there is one. */
  function Extend(prefix: Path, branch: Node): (r: Node)
    requires WellFormed(branch) && !branch.Ref?
    ensures WellFormed(r) && !r.Ref?
  {
    if prefix == [] then branch else Ext(prefix, branch, FRESH)
  }

  /** Trie.insert. */
  function Insert(db: NodeMap, n: Node, key: Path, value: Value): (r: Node)
    requires WellFormedMap(db) && WellFormed(n)
    ensures WellFormed(r) && !r.Ref? && !r.Nil?
    decreases |key|, Weight(n)
  {
    match n
    case Nil => Leaf(key, value, FRESH)
    case Ref(h) =>
      var resolved := Resolve(db, h);
      if resolved.None? then Insert(db, Nil, key, value) else Insert(db, resolved.value, key, value)
    case Leaf(suffix, was, _) =>
      if suffix == key then Leaf(suffix, value, FRESH)
      else
        var p := Common(suffix, key);
        var branch := Hang(NewBranch(), suffix[p..], was);
        Extend(key[..p], Hang(branch, key[p..], value))
    case Ext(prefix, next, meta) =>
      var p := Common(prefix, key);
      if p == |prefix| then
        Ext(prefix, Insert(db, next, key[p..], value), Dirty(meta))
      else
        var branch := HangExt(NewBranch(), prefix[p..], next);
        Extend(prefix[..p], Hang(branch, key[p..], value))
    case Branch(children, was, meta) =>
      if key == [] then Branch(children, value, Dirty(meta))
      else
        var child := Insert(db, children[key[0]], key[1..], value);
        Branch(children[key[0] := child], was, Dirty(meta))
  }

  /** hasChildren: how many children are not nil. */
  function Live(children: seq<Node>): (n: nat)
    ensures n <= |children|
  {
    if children == [] then 0 else (if children[0].Nil? then 0 else 1) + Live(children[1..])
  }

  /** Index of the first child that is not nil. */
  function FirstLive(children: seq<Node>): (i: nat)
    requires Live(children) > 0
    ensures i < |children| && !children[i].Nil?
    ensures forall j :: 0 <= j < i ==> children[j].Nil?
  {
    if !children[0].Nil? then 0 else 1 + FirstLive(children[1..])
  }

  /** The compaction at the end of delete's branch case. */
  function Compact(n: Node): (r: Node)
    requires n.Branch? && WellFormed(n)
    ensures WellFormed(r) && !r.Ref?
  {
    var count := Live(n.children);
    if n.value.Some? || count > 1 then n
    else if count == 0 then Nil
    else
      var i := FirstLive(n.children);
      assert WellFormed(n.children[i]);
      match n.children[i]
      case Leaf(suffix, value, _) => Leaf([i] + suffix, value, FRESH)
      case Ext(prefix, next, _) => Ext([i] + prefix, next, FRESH)
      case Branch(_, _, _) => Ext([i], n.children[i], FRESH)
      case Ref(_) => n
  }

  /** The prefix merge at the end of delete's extension case. */
  function Merge(n: Node): (r: Node)
    requires n.Ext? && WellFormed(n)
    ensures WellFormed(r) && !r.Ref?
  {
    assert WellFormed(n.next);
    match n.next
    case Nil => Nil
    case Ref(_) => n
    case Leaf(suffix, value, _) => Leaf(n.prefix + suffix, value, FRESH)
    case Ext(prefix, next, _) => Ext(n.prefix + prefix, next, n.meta)
    case Branch(_, _, _) => n
  }

  /** Trie.delete. */
  function Delete(db: NodeMap, n: Node, key: Path): (r: Node)
    requires WellFormedMap(db) && WellFormed(n)
    ensures WellFormed(r)
    decreases |key|, Weight(n)
  {
    match n
    case Nil => Nil
    case Ref(h) =>
      var resolved := Resolve(db, h);
      if resolved.None? then n else Delete(db, resolved.value, key)
    case Leaf(suffix, _, _) => if suffix == key then Nil else n
    case Ext(prefix, next, meta) =>
      if Common(prefix, key) == |prefix| then
        Merge(Ext(prefix, Delete(db, next, key[|prefix|..]), Dirty(meta)))
      else n
    case Branch(children, was, meta) =>
      if key == [] then Compact(Branch(children, None, Dirty(meta)))
      else
        var child := Delete(db, children[key[0]], key[1..]);
        Compact(Branch(children[key[0] := child], was, Dirty(meta)))
  }
}
