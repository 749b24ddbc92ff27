/**
 * Committing the account state and opening it again at the returned root
 * (internal/state/account/statedb.go:46-59, 78-95, 306-351), over sessions of
 * calls, flushes and commits whose reads go through the trie.
 */
module StateReopen {
  import opened Wrappers
  import opened Nibbles
  import opened TrieNode
  import opened TrieRefinement
  import opened TrieCanonical
  import opened TrieReads
  import opened TriePages
  import opened NodeCodec
  import opened TrieCommit
  import opened TrieStore
  import opened BigInt
  import AccountCodec
  import opened StateDB
  import StateRollback

  type Account = AccountCodec.Account

  // ---- Sizes stay within the length fields ----

  lemma {:induction false} BigEndianBelow(b: Bytes)
    ensures BigEndian(b) < Power256(|b|)
  {
    if b != [] {
      BigEndianBelow(b[..|b| - 1]);
    }
  }

  lemma FieldPowers()
    ensures Power256(2) == 0x1_0000 && Power256(4) == 0x1_0000_0000
  {
    assert Power256(2) == 256 * Power256(1) && Power256(3) == 256 * Power256(2);
  }

  /** Whatever decodes was read through the length fields, so it fits them. */
  lemma LeafSized(data: Bytes)
    requires DecodeLeaf(data).Some?
    ensures Sized(DecodeLeaf(data).value)
  {
    FieldPowers();
    var keyLen := data[..2];
    BigEndianBelow(keyLen);
    var valLen := data[2..][BigEndian(keyLen)..][..4];
    BigEndianBelow(valLen);
  }

  lemma ExtSized(data: Bytes)
    requires DecodeExt(data).Some?
    ensures Sized(DecodeExt(data).value)
  {
    FieldPowers();
    BigEndianBelow(data[..2]);
  }

  lemma BranchSized(data: Bytes)
    requires DecodeBranch(data).Some?
    ensures Sized(DecodeBranch(data).value)
  {
    FieldPowers();
    if |data| >= 5 {
      BigEndianBelow(data[1..5]);
    }
  }

  lemma DecodedSized(b: Bytes)
    requires Decode(b).Some?
    ensures Sized(Decode(b).value)
  {
    if b != [] && b[0] == 1 {
      LeafSized(b[1..]);
    } else if b != [] && b[0] == 2 {
      ExtSized(b[1..]);
    } else if b != [] && b[0] == 3 {
      BranchSized(b[1..]);
    }
  }

  lemma HangSized(branch: Node, rest: Path, value: Value)
    requires branch.Branch? && WellFormed(branch) && Sized(branch)
    requires |rest| < 0x1_0000 && |ValueBytes(value)| < 0x1_0000_0000
    ensures Sized(Hang(branch, rest, value))
  {
  }

  lemma HangExtSized(branch: Node, rest: Path, next: Node)
    requires branch.Branch? && WellFormed(branch) && Sized(branch)
    requires 0 < |rest| < 0x1_0000 && WellFormed(next) && Sized(next)
    ensures Sized(HangExt(branch, rest, next))
  {
  }

  lemma SplitSized(db: NodeMap, n: Node, key: Path, value: Value)
    requires WellFormedMap(db) && WellFormed(n) && Sized(n)
    requires |key| < 0x1_0000 && |ValueBytes(value)| < 0x1_0000_0000
    requires (n.Leaf? && n.suffix != key) || (n.Ext? && Common(n.prefix, key) != |n.prefix|)
    ensures Sized(Insert(db, n, key, value))
  {
    assert Sized(NewBranch());
    match n
    case Leaf(suffix, was, _) =>
      var p := Common(suffix, key);
      HangSized(NewBranch(), suffix[p..], was);
      HangSized(Hang(NewBranch(), suffix[p..], was), key[p..], value);
    case Ext(prefix, next, _) =>
      var p := Common(prefix, key);
      HangExtSized(NewBranch(), prefix[p..], next);
      HangSized(HangExt(NewBranch(), prefix[p..], next), key[p..], value);
  }

  lemma {:induction false} InsertSized(s: Storage, n: Node, key: Path, value: Value)
    requires WellFormedMap(Decoded(s)) && WellFormed(n) && Sized(n)
    requires |key| < 0x1_0000 && |ValueBytes(value)| < 0x1_0000_0000
    ensures Sized(Insert(Decoded(s), n, key, value))
    decreases |key|, Weight(n)
  {
    var db := Decoded(s);
    match n
    case Nil =>
    case Leaf(suffix, _, _) =>
      if suffix != key {
        SplitSized(db, n, key, value);
      }
    case Ref(h) =>
      if Resolve(db, h).Some? {
        if h != EMPTY_HASH {
          DecodedSized(s[h]);
        }
        InsertSized(s, Resolve(db, h).value, key, value);
      }
    case Ext(prefix, next, _) =>
      if Common(prefix, key) == |prefix| {
        InsertSized(s, next, key[|prefix|..], value);
      } else {
        SplitSized(db, n, key, value);
      }
    case Branch(children, _, _) =>
      if key != [] {
        InsertSized(s, children[key[0]], key[1..], value);
      }
  }

  /** Reading keeps the sizes: what it loads was decoded. */
  lemma {:induction false} VisitSized(s: Storage, n: Node, key: Path)
    requires WellFormedMap(Decoded(s)) && WellFormed(n) && Sized(n)
    ensures Sized(Visit(Decoded(s), n, key))
    decreases |key|, Weight(n)
  {
    match n
    case Nil | Leaf(_, _, _) =>
    case Ref(h) =>
      if Resolve(Decoded(s), h).Some? {
        if h != EMPTY_HASH {
          DecodedSized(s[h]);
        }
        VisitSized(s, Resolve(Decoded(s), h).value, key);
      }
    case Ext(prefix, next, _) =>
      if Common(prefix, key) == |prefix| {
        VisitSized(s, next, key[|prefix|..]);
      }
    case Branch(children, _, _) =>
      if key != [] {
        VisitSized(s, children[key[0]], key[1..]);
      }
  }

  lemma {:induction false} ReadSized(s: Storage, n: Node, key: Path)
    requires WellFormedMap(Decoded(s)) && WellFormed(n) && Sized(n)
    ensures Sized(AfterGet(Decoded(s), n, key))
    decreases |key|, Weight(n)
  {
    match n
    case Nil | Leaf(_, _, _) =>
    case Ref(h) =>
      if Resolve(Decoded(s), h).Some? {
        if h != EMPTY_HASH {
          DecodedSized(s[h]);
        }
        ReadSized(s, Resolve(Decoded(s), h).value, key);
      }
    case Ext(prefix, next, _) =>
      if Common(prefix, key) == |prefix| {
        ReadSized(s, next, key[|prefix|..]);
      }
    case Branch(_, _, _) => VisitSized(s, n, key);
  }

  lemma {:induction false} CommitSized(H: Hasher, n: Node)
    requires Sized(n)
    ensures Sized(AfterCommit(H, n))
  {
    AfterCommitSameHash(H, n);
  }

  // ---- Accounts in the trie ----

  /** Balances of less than a gigabyte each. */
  predicate Compact(a: Account) {
    |ToBytes(a.apt)| < 0x4000_0000 && |ToBytes(a.npt)| < 0x4000_0000
  }

  /** What a trie of these accounts holds at a path: the encoded account at an address, nothing elsewhere. */
  function AccountValue(m: Accounts, q: Path): Value {
    if |q| == 40 && FromPath(q) in m then Some(AccountCodec.Encode(m[FromPath(q)])) else None
  }

  lemma AddressPath(a: Address, q: Path)
    ensures q == ToPath(a) <==> |q| == 40 && FromPath(q) == a
  {
    PathIsKey(a, q);
  }

  /** The tree, in memory and on disk together, is in normal form and holds exactly these accounts. */
  ghost predicate AccountTree(db: NodeMap, n: Node, m: Accounts)
    requires WellFormedMap(db) && WellFormed(n)
  {
    exists b :: Loaded(db, n, b, m)
  }

  ghost predicate Loaded(db: NodeMap, n: Node, b: Node, m: Accounts)
    requires WellFormedMap(db) && WellFormed(n)
  {
    && WellFormed(b) && Canonical(b) && Pages(db, n, b)
    && forall q :: Get(db, b, q) == AccountValue(m, q)
  }

  lemma TreeReads(db: NodeMap, n: Node, m: Accounts, q: Path)
    requires WellFormedMap(db) && WellFormed(n) && AccountTree(db, n, m)
    ensures Get(db, n, q) == AccountValue(m, q)
  {
    var b :| Loaded(db, n, b, m);
    PagedGet(db, n, b, q);
  }

  lemma TreeReadsAccount(db: NodeMap, n: Node, m: Accounts, a: Address)
    requires WellFormedMap(db) && WellFormed(n) && AccountTree(db, n, m)
    ensures Get(db, n, ToPath(a)) == if a in m then Some(AccountCodec.Encode(m[a])) else None
  {
    TreeReads(db, n, m, ToPath(a));
    AddressPath(a, ToPath(a));
  }

  lemma EmptyTree(db: NodeMap)
    requires WellFormedMap(db)
    ensures AccountTree(db, Nil, map[])
  {
    assert Loaded(db, Nil, Nil, map[]);
  }

  lemma PutTree(db: NodeMap, n: Node, m: Accounts, addr: Address, account: Account)
    requires WellFormedMap(db) && WellFormed(n) && AccountTree(db, n, m)
    ensures AccountTree(db, Insert(db, n, ToPath(addr), Some(AccountCodec.Encode(account))), m[addr := account])
  {
    var b :| Loaded(db, n, b, m);
    var path, v := ToPath(addr), Some(AccountCodec.Encode(account));
    InsertPages(db, n, b, path, v);
    InsertNormal(db, b, path, v);
    forall q ensures Get(db, Insert(db, b, path, v), q) == AccountValue(m[addr := account], q) {
      InsertGet(db, b, path, v, q);
      AddressPath(addr, q);
    }
    assert Loaded(db, Insert(db, n, path, v), Insert(db, b, path, v), m[addr := account]);
  }

  // ---- Reads of the account trie ----

  lemma LoadedUniform(db: NodeMap, n: Node, b: Node, m: Accounts)
    requires WellFormedMap(db) && WellFormed(n) && Loaded(db, n, b, m)
    ensures Uniform(b, 40)
  {
    ContentsUniform(db, b, 40);
  }

  /** A damaging read of an account trie loses an account. */
  lemma DamagingReadLosesAccount(db: NodeMap, n: Node, m: Accounts, key: Path) returns (lost: Address)
    requires WellFormedMap(db) && WellFormed(n) && AccountTree(db, n, m) && Damages(db, n, key)
    ensures lost in m && Get(db, AfterGet(db, n, key), ToPath(lost)) == None
  {
    var b :| Loaded(db, n, b, m);
    LoadedUniform(db, n, b, m);
    var q := DamageLoses(db, n, b, 40, key);
    PagedGet(db, n, b, q);
    lost := FromPath(q);
    ToPathFromPath(q);
  }

  /** Among these accounts, all whose address starts with the same four bits as this one share its first byte. */
  predicate AloneInByte(m: Accounts, a: Address) {
    forall x :: x in m && x[0] / 16 == a[0] / 16 ==> x[0] == a[0]
  }

  /**
   * Reading one account of a trie, opened or not, and then another one with the
   * same first byte, where the other addresses with the same first four bits
   * also have that byte and some address has others: the second reads as absent.
   */
  lemma SecondReadMisses(db: NodeMap, n: Node, m: Accounts, a: Address, other: Address, far: Address)
    requires WellFormedMap(db) && WellFormed(n) && AccountTree(db, n, m)
    requires a in m && other in m && far in m && a != other && AloneInByte(m, a)
    requires other[0] == a[0] && far[0] / 16 != a[0] / 16
    ensures Damages(db, n, ToPath(a)) && Get(db, AfterGet(db, n, ToPath(a)), ToPath(other)) == None
  {
    AddressNibbles(a);
    AddressNibbles(other);
    AddressNibbles(far);
    AddressPath(a, ToPath(a));
    AddressPath(other, ToPath(a));
    assert ToPath(a) != ToPath(other);
    var b := LoadedTree(db, n, m, a, other, far);
    SiblingIsLost(db, n, b, 40, ToPath(a), ToPath(other), ToPath(far));
  }

  /** The loaded tree behind it, as far as these accounts matter. */
  lemma LoadedTree(db: NodeMap, n: Node, m: Accounts, a: Address, other: Address, far: Address) returns (b: Node)
    requires WellFormedMap(db) && WellFormed(n) && AccountTree(db, n, m)
    requires a in m && other in m && far in m && AloneInByte(m, a)
    ensures WellFormed(b) && Canonical(b) && Pages(db, n, b) && Uniform(b, 40)
    ensures Only(db, b, a[0] / 16, a[0] % 16)
    ensures Get(db, b, ToPath(a)).Some? && Get(db, b, ToPath(other)).Some? && Get(db, b, ToPath(far)).Some?
  {
    b :| Loaded(db, n, b, m);
    LoadedUniform(db, n, b, m);
    OnlyInByte(db, n, b, m, a, a[0] / 16, a[0] % 16);
    LoadedHolds(db, n, b, m, a);
    LoadedHolds(db, n, b, m, other);
    LoadedHolds(db, n, b, m, far);
  }

  lemma OnlyInByte(db: NodeMap, n: Node, b: Node, m: Accounts, a: Address, x: nibble, y: nibble)
    requires WellFormedMap(db) && WellFormed(n) && Loaded(db, n, b, m) && AloneInByte(m, a)
    requires x == a[0] / 16 && y == a[0] % 16
    ensures Only(db, b, x, y)
  {
    forall q | Get(db, b, q).Some? && q != [] && q[0] == x ensures |q| >= 2 && q[1] == y {
      assert Get(db, b, q) == AccountValue(m, q);
      AddressNibbles(FromPath(q));
      ToPathFromPath(q);
    }
  }

  lemma LoadedHolds(db: NodeMap, n: Node, b: Node, m: Accounts, a: Address)
    requires WellFormedMap(db) && WellFormed(n) && Loaded(db, n, b, m) && a in m
    ensures Get(db, b, ToPath(a)).Some?
  {
    AddressPath(a, ToPath(a));
  }

  lemma AddressNibbles(a: Address)
    ensures |ToPath(a)| == 40 && ToPath(a)[0] == a[0] / 16 && ToPath(a)[1] == a[0] % 16
  {
    ToPathAt(a, 0);
  }

  /** A read keeps the account trie exactly when it does no damage. */
  lemma ReadKeepsAccounts(db: NodeMap, n: Node, m: Accounts, key: Path)
    requires WellFormedMap(db) && WellFormed(n) && AccountTree(db, n, m)
    ensures AccountTree(db, AfterGet(db, n, key), m) <==> !Damages(db, n, key)
  {
    if Damages(db, n, key) {
      var lost := DamagingReadLosesAccount(db, n, m, key);
      if AccountTree(db, AfterGet(db, n, key), m) {
        TreeReadsAccount(db, AfterGet(db, n, key), m, lost);
      }
    } else {
      var b :| Loaded(db, n, b, m);
      PagedDamages(db, n, b, key);
      PagedAfter(db, n, b, key);
      ReadLoaded(db, b, key);
      assert Loaded(db, AfterGet(db, n, key), b, m);
    }
  }

  // ---- Commits of the account trie ----

  lemma CommitTree(H: Hasher, s: Storage, t: Storage, n: Node, m: Accounts)
    requires WellFormedMap(Decoded(s)) && WellFormedMap(Decoded(t)) && Extends(s, t) && WellFormed(n)
    requires AccountTree(Decoded(s), n, m) && Stored(H, t, n) && Sized(n) && NonEmptyHashes(H, n)
    ensures WellFormed(AfterCommit(H, n)) && AccountTree(Decoded(t), AfterCommit(H, n), m)
    ensures AccountTree(Decoded(t), n, m) && AccountTree(Decoded(t), Ref(RootHash(H, n)), m)
  {
    AfterCommitSameHash(H, n);
    var b :| Loaded(Decoded(s), n, b, m);
    PagesGrow(s, t, n, b);
    PagesItself(Decoded(s), b);
    PagesGrow(s, t, b, b);
    forall q ensures Get(Decoded(t), b, q) == AccountValue(m, q) {
      LoadedGet(Decoded(s), Decoded(t), b, q);
    }
    StoredPages(H, t, n, b);
    AfterCommitPages(H, t, n, b);
    assert Loaded(Decoded(t), n, b, m);
    assert Loaded(Decoded(t), AfterCommit(H, n), b, m);
    assert Loaded(Decoded(t), Ref(RootHash(H, n)), b, m);
  }

  /** A loaded tree reads the same over any store. */
  lemma {:induction false} LoadedGet(db: NodeMap, other: NodeMap, b: Node, q: Path)
    requires WellFormedMap(db) && WellFormedMap(other) && WellFormed(b) && Canonical(b)
    ensures Get(other, b, q) == Get(db, b, q)
    decreases b
  {
    match b
    case Nil | Leaf(_, _, _) =>
    case Ext(prefix, next, _) =>
      if Common(prefix, q) == |prefix| {
        LoadedGet(db, other, next, q[|prefix|..]);
      }
    case Branch(children, _, _) =>
      if q != [] {
        LoadedGet(db, other, children[q[0]], q[1..]);
      }
  }

  // ---- What a flush and a commit write ----

  /** Commit of the storage trie puts its root into the account. */
  function WithStorageRoot(o: StateObject, rootOf: map<Slot, Bytes> -> Hash): Account {
    if o.storage == map[] then o.account
    else AccountCodec.Account(o.account.nonce, o.account.apt, o.account.npt, o.account.codeHash, rootOf(o.storage))
  }

  /** The accounts a commit writes. */
  function CommitAccounts(s: State, rootOf: map<Slot, Bytes> -> Hash): Accounts {
    map a | a in s.objects && IsDirty(s.objects[a]) :: WithStorageRoot(s.objects[a], rootOf)
  }

  /** The accounts the trie should hold after a commit. */
  ghost function Committed(s: State, rootOf: map<Slot, Bytes> -> Hash): Accounts {
    s.trie + CommitAccounts(s, rootOf)
  }

  function RootedObject(o: StateObject, rootOf: map<Slot, Bytes> -> Hash): StateObject {
    StateObject(WithStorageRoot(o, rootOf), o.dirty, o.storage)
  }

  /** The objects once all but the pending ones have their storage root. */
  ghost function Rooted(objects: Objects, pending: set<Address>, rootOf: map<Slot, Bytes> -> Hash): Objects {
    map a | a in objects :: if a in pending then objects[a] else RootedObject(objects[a], rootOf)
  }

  /** StateDB.Commit on the fields: storage roots go into the accounts, dirty accounts into the trie. */
  ghost function StateAfterCommit(s: State, rootOf: map<Slot, Bytes> -> Hash): State {
    State(Rooted(s.objects, {}, rootOf), Committed(s, rootOf), s.journal, s.revisions, s.nextRevision)
  }

  /** A commit puts the storage root into the account of an object with storage, and writes the changed accounts. */
  lemma CommitMeans(s: State, rootOf: map<Slot, Bytes> -> Hash, a: Address)
    ensures var t := StateAfterCommit(s, rootOf);
            && t.journal == s.journal && t.revisions == s.revisions && t.objects.Keys == s.objects.Keys
            && (a in s.objects ==>
                  var o, was, now := s.objects[a], s.objects[a].account, t.objects[a].account;
                  && now.storageRoot == (if o.storage == map[] then was.storageRoot else rootOf(o.storage))
                  && now.nonce == was.nonce && now.apt == was.apt && now.npt == was.npt && now.codeHash == was.codeHash
                  && t.objects[a].storage == o.storage && t.objects[a].dirty == o.dirty
                  && (o.dirty || o.storage != map[] ==> a in t.trie && t.trie[a] == now))
            && (!(a in s.objects && (s.objects[a].dirty || s.objects[a].storage != map[])) ==>
                  (a in t.trie <==> a in s.trie) && (a in s.trie ==> t.trie[a] == s.trie[a]))
  {
  }

  /** The trie's accounts after visiting the objects in an order; Go's map iteration may choose any. */
  ghost function Visited(trie: Accounts, accounts: Accounts, order: seq<Address>): Accounts {
    if order == [] then trie
    else
      var before, addr := Visited(trie, accounts, order[..|order| - 1]), order[|order| - 1];
      if addr in accounts then before[addr := accounts[addr]] else before
  }

  lemma {:induction false} VisitedAt(trie: Accounts, accounts: Accounts, order: seq<Address>, a: Address)
    ensures var m := Visited(trie, accounts, order);
            if a in order && a in accounts then a in m && m[a] == accounts[a]
            else (a in m <==> a in trie) && (a in m ==> m[a] == trie[a])
  {
    if order != [] {
      VisitedAt(trie, accounts, order[..|order| - 1], a);
      assert order == order[..|order| - 1] + [order[|order| - 1]];
    }
  }

  /** Whatever the order, the same accounts end up in the trie. */
  lemma VisitedAll(trie: Accounts, accounts: Accounts, order: seq<Address>)
    requires forall a :: a in accounts ==> a in order
    ensures Visited(trie, accounts, order) == trie + accounts
  {
    var m, c := Visited(trie, accounts, order), trie + accounts;
    forall a: Address ensures a in m <==> a in c {
      VisitedAt(trie, accounts, order, a);
    }
    forall a: Address | a in m ensures m[a] == c[a] {
      VisitedAt(trie, accounts, order, a);
    }
  }

  /** The trie root after the Puts of a flush or a commit, in the given order. */
  ghost function RootAfterPuts(db: NodeMap, n: Node, accounts: Accounts, order: seq<Address>): (r: Node)
    requires WellFormedMap(db) && WellFormed(n)
    ensures WellFormed(r)
  {
    if order == [] then n
    else
      var before, addr := RootAfterPuts(db, n, accounts, order[..|order| - 1]), order[|order| - 1];
      if addr in accounts then Insert(db, before, ToPath(addr), Some(AccountCodec.Encode(accounts[addr]))) else before
  }

  ghost predicate AllCompact(accounts: Accounts) {
    forall a :: a in accounts ==> Compact(accounts[a])
  }

  lemma {:induction false} PutsTree(s: Storage, n: Node, trie: Accounts, accounts: Accounts, order: seq<Address>)
    requires WellFormedMap(Decoded(s)) && WellFormed(n) && Sized(n) && AccountTree(Decoded(s), n, trie)
             && AllCompact(accounts)
    ensures Sized(RootAfterPuts(Decoded(s), n, accounts, order))
    ensures AccountTree(Decoded(s), RootAfterPuts(Decoded(s), n, accounts, order), Visited(trie, accounts, order))
  {
    if order != [] {
      var front, addr := order[..|order| - 1], order[|order| - 1];
      PutsTree(s, n, trie, accounts, front);
      if addr in accounts {
        var before := RootAfterPuts(Decoded(s), n, accounts, front);
        PutTree(Decoded(s), before, Visited(trie, accounts, front), addr, accounts[addr]);
        InsertSized(s, before, ToPath(addr), Some(AccountCodec.Encode(accounts[addr])));
      }
    }
  }

  // ---- The methods on a trie ----

  /** An account trie as the store keeps it: right accounts in normal form, sizes in range. */
  ghost predicate AccountTrie(t: Trie, m: Accounts)
    requires t.Valid()
    reads t, t.db
  {
    AccountTree(Decoded(t.db.storage), t.root, m) && Sized(t.root)
  }

  /** getStateObject's read of the trie: the account is found, and the trie is kept exactly if nothing is damaged. */
  method ReadAccount(t: Trie, addr: Address, ghost m: Accounts) returns (loaded: AccountCodec.Loaded)
    requires t.Valid() && AccountTrie(t, m)
    modifies t`root, t.db`cache
    ensures loaded == AccountCodec.Load(if addr in m then Some(AccountCodec.Encode(m[addr])) else None)
    ensures t.db.Valid() && WellFormed(t.root) && t.root == AfterGet(Decoded(t.db.storage), old(t.root), ToPath(addr))
    ensures AccountTree(Decoded(t.db.storage), t.root, m)
            <==> !Damages(Decoded(t.db.storage), old(t.root), ToPath(addr))
    ensures !Damages(Decoded(t.db.storage), old(t.root), ToPath(addr)) ==> t.Valid() && AccountTrie(t, m)
  {
    TreeReadsAccount(Decoded(t.db.storage), t.root, m, addr);
    ReadKeepsAccounts(Decoded(t.db.storage), t.root, m, ToPath(addr));
    ReadSized(t.db.storage, t.root, ToPath(addr));
    var data := t.Get(addr);
    loaded := AccountCodec.Load(data);
  }

  method PutAccount(t: Trie, addr: Address, account: Account, ghost m: Accounts)
    requires t.Valid() && AccountTrie(t, m) && Compact(account)
    modifies t, t.db`cache
    ensures t.Valid() && AccountTrie(t, m[addr := account])
    ensures t.root == Insert(Decoded(t.db.storage), old(t.root), ToPath(addr), Some(AccountCodec.Encode(account)))
  {
    var data := AccountCodec.Encode(account);
    PutTree(Decoded(t.db.storage), t.root, m, addr, account);
    InsertSized(t.db.storage, t.root, ToPath(addr), Some(data));
    t.Put(addr, Some(data));
  }

  /** The loop of a flush or a commit: every account to be written is encoded and put. */
  method WriteAccounts(accounts: Accounts, order: seq<Address>, t: Trie, ghost m: Accounts)
    requires t.Valid() && AccountTrie(t, m) && AllCompact(accounts)
    requires forall a :: a in accounts ==> a in order
    modifies t, t.db`cache
    ensures t.Valid() && AccountTrie(t, m + accounts)
    ensures t.root == RootAfterPuts(Decoded(t.db.storage), old(t.root), accounts, order)
  {
    ghost var was := t.root;
    for i := 0 to |order|
      invariant t.Valid() && AccountTrie(t, Visited(m, accounts, order[..i]))
      invariant t.root == RootAfterPuts(Decoded(t.db.storage), was, accounts, order[..i])
    {
      assert order[..i + 1][..i] == order[..i];
      var addr := order[i];
      if addr in accounts {
        PutAccount(t, addr, accounts[addr], Visited(m, accounts, order[..i]));
      }
    }
    assert order[..|order|] == order;
    VisitedAll(m, accounts, order);
  }

  /** What a commit that writes these accounts makes of the trie's root and of the node store. */
  ghost predicate Commits(H: Hasher, accounts: Accounts, order: seq<Address>, root: Node, s: Storage, after: Node,
                          t: Storage, hash: Hash)
    requires WellFormedMap(Decoded(s)) && WellFormed(root)
  {
    var written := RootAfterPuts(Decoded(s), root, accounts, order);
    && Extends(s, t) && Sound(H, t) && Stored(H, t, written) && NonEmptyHashes(H, written)
    && (after == AfterCommit(H, written) || after == written) && hash == RootHash(H, written)
  }

  /** StateDB.Commit: write the dirty accounts, then commit the trie. */
  method Commit(s: State, rootOf: map<Slot, Bytes> -> Hash, order: seq<Address>, t: Trie, ghost universe: set<Bytes>)
    returns (root: Hash)
    requires t.Valid() && AccountTrie(t, s.trie) && AllCompact(CommitAccounts(s, rootOf))
    requires forall a :: a in order <==> a in s.objects
    requires Within(t.db.storage, universe) && CollisionFree(t.db.hash, universe)
    requires Blobs(t.db.hash, RootAfterPuts(Decoded(t.db.storage), t.root, CommitAccounts(s, rootOf), order))
             <= universe
    modifies t, t.db`storage, t.db`cache
    ensures t.Valid() && Known(t.db.storage, Ref(root)) && AccountTrie(t, Committed(s, rootOf))
    ensures AccountTree(Decoded(t.db.storage), Ref(root), Committed(s, rootOf))
    ensures Commits(t.db.hash, CommitAccounts(s, rootOf), order, old(t.root), old(t.db.storage),
                    t.root, t.db.storage, root)
  {
    WriteAccounts(CommitAccounts(s, rootOf), order, t, s.trie);
    ghost var before, was := t.db.storage, t.root;
    root := t.Commit(universe);
    CommitTree(t.db.hash, before, t.db.storage, was, Committed(s, rootOf));
    CommitSized(t.db.hash, was);
  }

  // ---- Reading after reopening ----

  /** Invariant of the store: an object that is not dirty is as the trie has it, or new. */
  ghost predicate CleanObjects(s: State) {
    forall a :: a in s.objects && !IsDirty(s.objects[a]) ==> s.objects[a].account == AccountAt(s.trie, a)
  }

  lemma CleanAfterChange(s: State, addr: Address, account: Account, e: Entry)
    requires CleanObjects(s) && addr in s.objects
    ensures CleanObjects(Change(s, addr, account, e))
  {
  }

  lemma CleanAfterGetOrNew(s: State, addr: Address)
    requires CleanObjects(s)
    ensures CleanObjects(GetOrNew(s, addr))
  {
  }

  lemma {:induction false} CleanAfterUndo(s: State, journal: seq<Entry>, idx: nat)
    requires CleanObjects(s)
    ensures CleanObjects(State(UndoTo(s.objects, journal, idx), s.trie, s.journal, s.revisions, s.nextRevision))
    decreases |journal|
  {
    if |journal| > idx {
      var objects := UndoEntry(s.objects, journal[|journal| - 1]);
      var t := State(objects, s.trie, s.journal, s.revisions, s.nextRevision);
      assert CleanObjects(t);
      CleanAfterUndo(t, journal[..|journal| - 1], idx);
    }
  }

  /** Every call keeps it. */
  lemma StepClean(s: State, op: StateRollback.Op)
    requires Valid(s) && CleanObjects(s) && StateRollback.Step(s, op).Some?
    ensures CleanObjects(StateRollback.Step(s, op).value)
  {
    match op
    case OpRevert(id) => CleanAfterUndo(s, s.journal, s.revisions[id]);
    case OpSnapshot =>
    case _ => CleanAfterGetOrNew(s, op.addr);
  }

  /** getStateObject of a store opened at a root. */
  ghost function Reopened(storage: Storage, root: Hash, addr: Address): AccountCodec.Loaded
    requires WellFormedMap(Decoded(storage))
  {
    AccountCodec.Load(Get(Decoded(storage), Ref(root), ToPath(addr)))
  }

  /** What a read after reopening gives for an account, written or not, that was so before. */
  predicate ReadsBack(loaded: AccountCodec.Loaded, written: bool, before: Account) {
    match loaded
    case Missing => !written && before.nonce == 0 && before.apt == 0 && before.npt == 0
    case Found(after) =>
      && written && before.apt > 0 && before.npt > 0
      && after.nonce == before.nonce && after.apt == before.apt && after.npt == before.npt
    case Panic => written && (before.apt == 0 || before.npt == 0)
    case Broken(_) => false
  }

  lemma ReadsBackMeans(loaded: AccountCodec.Loaded, written: bool, before: Account)
    requires ReadsBack(loaded, written, before)
    ensures !loaded.Panic? <==> !written || (before.apt > 0 && before.npt > 0)
  {
  }

  /** A written account has the nonce and balances of the view; one not written has none. */
  lemma CommittedAt(s: State, rootOf: map<Slot, Bytes> -> Hash, addr: Address)
    requires CleanObjects(s)
    ensures var m, before := Committed(s, rootOf), AccountAt(View(s), addr);
            if addr in m
            then m[addr].nonce == before.nonce && m[addr].apt == before.apt && m[addr].npt == before.npt
            else before == NEW_ACCOUNT
  {
  }

  /**
   * After a commit, a store opened at the root reads: every written account
   * with the same nonce and balances if neither balance is zero, a panic if one
   * is, and nothing for an account that was never written, which had nothing.
   */
  lemma ReopenedRead(s: State, rootOf: map<Slot, Bytes> -> Hash, storage: Storage, root: Hash, addr: Address)
    requires WellFormedMap(Decoded(storage)) && CleanObjects(s)
    requires AccountTree(Decoded(storage), Ref(root), Committed(s, rootOf))
    requires addr in View(s) ==> Compact(View(s)[addr])
    ensures ReadsBack(Reopened(storage, root, addr), addr in Committed(s, rootOf), AccountAt(View(s), addr))
  {
    CommittedAt(s, rootOf, addr);
    TreeReadsAccount(Decoded(storage), Ref(root), Committed(s, rootOf), addr);
    if addr in Committed(s, rootOf) {
      AccountCodec.LoadEncoded(Committed(s, rootOf)[addr]);
    }
  }
}
