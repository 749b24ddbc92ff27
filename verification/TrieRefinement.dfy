/** The trie refines a map from paths to values, with or without unloaded nodes. */
module TrieRefinement {
  import opened Wrappers
  import opened Nibbles
  import opened TrieNode

  /** The prefix test of get, delete and insert is sequence prefix. */
  lemma CommonIsPrefix(p: Path, q: Path)
    ensures Common(p, q) == |p| <==> p <= q
  {
    if p <= q {
      CommonUnique(p, q, |p|);
    }
  }

  /** Reading through an extension. */
  lemma ExtGet(db: NodeMap, prefix: Path, next: Node, meta: Meta, q: Path)
    requires WellFormedMap(db) && WellFormed(next) && prefix != []
    ensures Get(db, Ext(prefix, next, meta), q) == if prefix <= q then Get(db, next, q[|prefix|..]) else None
  {
    CommonIsPrefix(prefix, q);
  }

  lemma ExtendGet(db: NodeMap, prefix: Path, branch: Node, q: Path)
    requires WellFormedMap(db) && WellFormed(branch) && !branch.Ref?
    ensures Get(db, Extend(prefix, branch), q) == if prefix <= q then Get(db, branch, q[|prefix|..]) else None
  {
    if prefix == [] {
      assert q[0..] == q;
    } else {
      ExtGet(db, prefix, branch, FRESH, q);
    }
  }

  /** True when hanging something at a path overwrites nothing. */
  ghost predicate Free(branch: Node, rest: Path)
    requires branch.Branch? && WellFormed(branch)
  {
    rest != [] ==> branch.children[rest[0]].Nil?
  }

  lemma HangGet(db: NodeMap, branch: Node, rest: Path, value: Value, q: Path)
    requires WellFormedMap(db) && branch.Branch? && WellFormed(branch) && Free(branch, rest)
    ensures Get(db, Hang(branch, rest, value), q) == if q == rest then value else Get(db, branch, q)
  {
    if q != [] && rest != [] {
      assert q == [q[0]] + q[1..] && rest == [rest[0]] + rest[1..];
    }
  }

  lemma HangExtGet(db: NodeMap, branch: Node, rest: Path, next: Node, q: Path)
    requires WellFormedMap(db) && branch.Branch? && WellFormed(branch) && WellFormed(next)
    requires rest != [] && Free(branch, rest)
    ensures Get(db, HangExt(branch, rest, next), q)
         == if rest <= q then Get(db, next, q[|rest|..]) else Get(db, branch, q)
  {
    if q != [] && q[0] == rest[0] {
      assert q == [q[0]] + q[1..] && rest == [rest[0]] + rest[1..];
      assert rest <= q <==> rest[1..] <= q[1..];
      if |rest| > 1 {
        ExtGet(db, rest[1..], next, FRESH, q[1..]);
        if rest <= q {
          assert q[1..][|rest| - 1..] == q[|rest|..];
        }
      }
    }
  }

  lemma NewBranchGet(db: NodeMap, q: Path)
    requires WellFormedMap(db)
    ensures Get(db, NewBranch(), q) == None
  {
  }

  /** Splits a path at the length of a prefix it starts with. */
  lemma SplitAt(q: Path, p: Path)
    requires p <= q
    ensures q == p + q[|p|..]
  {
  }

  /** Splitting a leaf keeps its entry and adds the new one. */
  lemma SplitLeafGet(db: NodeMap, suffix: Path, was: Value, meta: Meta, key: Path, value: Value, q: Path)
    requires WellFormedMap(db) && suffix != key
    ensures Get(db, Insert(db, Leaf(suffix, was, meta), key, value), q)
         == if q == key then value else if q == suffix then was else None
  {
    var p := Common(suffix, key);
    var pre := key[..p];
    SplitAt(key, pre);
    SplitAt(suffix, pre);
    var branch := Hang(NewBranch(), suffix[p..], was);
    var full := Hang(branch, key[p..], value);
    ExtendGet(db, pre, full, q);
    if pre <= q {
      SplitAt(q, pre);
      HangGet(db, branch, key[p..], value, q[p..]);
      HangGet(db, NewBranch(), suffix[p..], was, q[p..]);
      NewBranchGet(db, q[p..]);
    }
  }

  /** The branch at which an extension splits reads as the rest of the extension and the new entry. */
  lemma SplitBranchGet(db: NodeMap, branch: Node, rest: Path, next: Node, tail: Path, value: Value, q: Path)
    requires WellFormedMap(db) && WellFormed(next) && rest != [] && (tail == [] || tail[0] != rest[0])
    requires branch == HangExt(NewBranch(), rest, next)
    ensures Get(db, Hang(branch, tail, value), q)
         == if q == tail then value else if rest <= q then Get(db, next, q[|rest|..]) else None
  {
    HangGet(db, branch, tail, value, q);
    HangExtGet(db, NewBranch(), rest, next, q);
    NewBranchGet(db, q);
  }

  /** The same below the common prefix. */
  lemma SplitReads(db: NodeMap, r: Node, pre: Path, branch: Node, rest: Path, next: Node, tail: Path, value: Value,
                   q: Path)
    requires WellFormedMap(db) && WellFormed(next) && rest != [] && (tail == [] || tail[0] != rest[0])
    requires branch == HangExt(NewBranch(), rest, next) && r == Extend(pre, Hang(branch, tail, value))
    ensures Get(db, r, q)
         == if q == pre + tail then value else if pre + rest <= q then Get(db, next, q[|pre + rest|..]) else None
  {
    ExtendGet(db, pre, Hang(branch, tail, value), q);
    if pre + rest <= q {
      SplitAt(q, pre + rest);
    }
    if pre <= q {
      SplitAt(q, pre);
      SplitBranchGet(db, branch, rest, next, tail, value, q[|pre|..]);
      PrefixPast(pre, rest, q);
    }
  }

  lemma PrefixPast(pre: Path, rest: Path, q: Path)
    requires pre <= q
    ensures pre + rest <= q <==> rest <= q[|pre|..]
    ensures rest <= q[|pre|..] ==> q[|pre + rest|..] == q[|pre|..][|rest|..]
  {
    assert q == pre + q[|pre|..];
  }

  /** Splitting an extension keeps everything below it and adds the new entry. */
  lemma SplitExtGet(db: NodeMap, prefix: Path, next: Node, meta: Meta, key: Path, value: Value, q: Path)
    requires WellFormedMap(db) && WellFormed(next) && prefix != [] && !(prefix <= key)
    ensures Get(db, Insert(db, Ext(prefix, next, meta), key, value), q)
         == if q == key then value else Get(db, Ext(prefix, next, meta), q)
  {
    CommonIsPrefix(prefix, key);
    var p := Common(prefix, key);
    SplitAt(key, prefix[..p]);
    SplitAt(prefix, prefix[..p]);
    ExtGet(db, prefix, next, meta, q);
    var branch := HangExt(NewBranch(), prefix[p..], next);
    SplitReads(db, Insert(db, Ext(prefix, next, meta), key, value), prefix[..p], branch, prefix[p..], next,
               key[p..], value, q);
  }

  /** get after insert is lookup after map update, for every key, value and tree. */
  lemma {:induction false} InsertGet(db: NodeMap, n: Node, key: Path, value: Value, q: Path)
    requires WellFormedMap(db) && WellFormed(n)
    ensures Get(db, Insert(db, n, key, value), q) == if q == key then value else Get(db, n, q)
    decreases |key|, Weight(n)
  {
    match n
    case Nil =>
    case Ref(h) =>
      var resolved := Resolve(db, h);
      InsertGet(db, if resolved.None? then Nil else resolved.value, key, value, q);
    case Leaf(suffix, was, meta) =>
      if suffix != key {
        SplitLeafGet(db, suffix, was, meta, key, value, q);
      }
    case Ext(prefix, next, meta) =>
      CommonIsPrefix(prefix, key);
      if prefix <= key {
        SplitAt(key, prefix);
        ExtGet(db, prefix, Insert(db, next, key[|prefix|..], value), Dirty(meta), q);
        ExtGet(db, prefix, next, meta, q);
        if prefix <= q {
          SplitAt(q, prefix);
          InsertGet(db, next, key[|prefix|..], value, q[|prefix|..]);
        }
      } else {
        SplitExtGet(db, prefix, next, meta, key, value, q);
      }
    case Branch(children, was, meta) =>
      if key != [] && q != [] {
        assert key == [key[0]] + key[1..] && q == [q[0]] + q[1..];
        InsertGet(db, children[key[0]], key[1..], value, q[1..]);
      }
  }

  /** Live is zero exactly when every child is nil. */
  lemma {:induction false} LiveZero(children: seq<Node>)
    ensures Live(children) == 0 <==> forall i :: 0 <= i < |children| ==> children[i].Nil?
  {
    if children != [] {
      LiveZero(children[1..]);
      assert forall i :: 1 <= i < |children| ==> children[i] == children[1..][i - 1];
      assert forall i :: 0 <= i < |children| - 1 ==> children[1..][i] == children[i + 1];
    }
  }

  /** With one child left, FirstLive is that child. */
  lemma {:induction false} LiveOne(children: seq<Node>)
    requires Live(children) == 1
    ensures forall i :: 0 <= i < |children| && i != FirstLive(children) ==> children[i].Nil?
  {
    assert forall i :: 1 <= i < |children| ==> children[i] == children[1..][i - 1];
    if children[0].Nil? {
      LiveOne(children[1..]);
    } else {
      LiveZero(children[1..]);
    }
  }

  /** Branch compaction changes no lookup. */
  lemma CompactGet(db: NodeMap, n: Node, q: Path)
    requires WellFormedMap(db) && n.Branch? && WellFormed(n)
    ensures Get(db, Compact(n), q) == Get(db, n, q)
  {
    if n.value.None? && Live(n.children) == 0 {
      LiveZero(n.children);
    } else if n.value.None? && Live(n.children) == 1 {
      LiveOne(n.children);
      var i := FirstLive(n.children);
      assert WellFormed(n.children[i]);
      assert q != [] ==> q == [q[0]] + q[1..];
      match n.children[i] {
        case Leaf(suffix, value, _) =>
          assert ([i] + suffix)[1..] == suffix;
        case Ext(prefix, next, meta) =>
          ExtGet(db, [i] + prefix, next, FRESH, q);
          if q != [] {
            ExtGet(db, prefix, next, meta, q[1..]);
            assert ([i] + prefix)[1..] == prefix;
            assert [i] + prefix <= q <==> i == q[0] && prefix <= q[1..];
            if [i] + prefix <= q {
              assert q[1..][|prefix|..] == q[|prefix| + 1..];
            }
          }
        case Branch(_, _, _) =>
          ExtGet(db, [i], n.children[i], FRESH, q);
        case Ref(_) =>
      }
    }
  }

  /** Prefix merging changes no lookup. */
  lemma MergeGet(db: NodeMap, n: Node, q: Path)
    requires WellFormedMap(db) && n.Ext? && WellFormed(n)
    ensures Get(db, Merge(n), q) == Get(db, n, q)
  {
    var p := n.prefix;
    ExtGet(db, p, n.next, n.meta, q);
    if p <= q {
      SplitAt(q, p);
    }
    assert WellFormed(n.next);
    match n.next
    case Nil =>
    case Ref(_) =>
    case Leaf(suffix, value, _) =>
      assert (p + suffix)[|p|..] == suffix;
    case Ext(prefix, next, meta) =>
      ExtGet(db, p + prefix, next, n.meta, q);
      if p <= q {
        ExtGet(db, prefix, next, meta, q[|p|..]);
        assert (p + prefix)[|p|..] == prefix;
        assert p + prefix <= q <==> prefix <= q[|p|..];
        if p + prefix <= q {
          assert q[|p|..][|prefix|..] == q[|p + prefix|..];
        }
      }
    case Branch(_, _, _) =>
  }

  /** get after delete is lookup after removal, for every key and tree. */
  lemma {:induction false} DeleteGet(db: NodeMap, n: Node, key: Path, q: Path)
    requires WellFormedMap(db) && WellFormed(n)
    ensures Get(db, Delete(db, n, key), q) == if q == key then None else Get(db, n, q)
    decreases |key|, Weight(n)
  {
    match n
    case Nil =>
    case Ref(h) =>
      var resolved := Resolve(db, h);
      if resolved.Some? {
        DeleteGet(db, resolved.value, key, q);
      }
    case Leaf(_, _, _) =>
    case Ext(prefix, next, meta) =>
      CommonIsPrefix(prefix, key);
      ExtGet(db, prefix, next, meta, q);
      if prefix <= key {
        SplitAt(key, prefix);
        var rest := Delete(db, next, key[|prefix|..]);
        MergeGet(db, Ext(prefix, rest, Dirty(meta)), q);
        ExtGet(db, prefix, rest, Dirty(meta), q);
        if prefix <= q {
          SplitAt(q, prefix);
          DeleteGet(db, next, key[|prefix|..], q[|prefix|..]);
        }
      }
    case Branch(children, was, meta) =>
      if key == [] {
        CompactGet(db, Branch(children, None, Dirty(meta)), q);
      } else {
        var child := Delete(db, children[key[0]], key[1..]);
        CompactGet(db, Branch(children[key[0] := child], was, Dirty(meta)), q);
        if q != [] {
          assert key == [key[0]] + key[1..] && q == [q[0]] + q[1..];
          DeleteGet(db, children[key[0]], key[1..], q[1..]);
        }
      }
  }
}
