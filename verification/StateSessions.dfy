/**
 * Whole sessions of a StateDB on one trie: calls that load accounts through
 * Trie.get, flushes, commits, and opening again at a committed root
 * (internal/state/account/statedb.go).
 */
module StateSessions {
  import opened Wrappers
  import opened Nibbles
  import opened TrieNode
  import opened TrieRefinement
  import TrieCanonical
  import opened TrieReads
  import opened TriePages
  import opened NodeCodec
  import opened TrieCommit
  import opened TrieStore
  import TrieRoots
  import opened BigInt
  import AccountCodec
  import opened StateDB
  import opened StateRollback
  import opened StateReopen

  /** The hashes under which the database has cached a node, and those whose node a write has changed since. */
  datatype Cache = Cache(held: set<Hash>, stale: set<Hash>)

  /** The fields of the StateDB, the root node of its trie, and the node store below with its cache. */
  datatype Session = Session(state: State, root: Node, storage: Storage, cache: Cache)

  /** A call, which may only read, an intermediate root, a commit. */
  datatype Event =
    | Call(op: Op)
    | FlushAll(order: seq<Address>)
    | CommitAll(order: seq<Address>, rootOf: map<Slot, Bytes> -> Hash)

  /** The account an event has to load from the trie. */
  function Missed(s: State, e: Event): Option<Address> {
    match e
    case Call(op) => if op.OpSnapshot? || op.OpRevert? || op.addr in s.objects then None else Some(op.addr)
    case _ => None
  }

  /** Loading does not panic: an account in the trie has both balances. */
  predicate LoadsWhole(s: State, e: Event) {
    var a := Missed(s, e);
    a.Some? && a.value in s.trie ==> s.trie[a.value].apt > 0 && s.trie[a.value].npt > 0
  }

  // ---- What the cache holds ----

  /** The hashes that get and insert load nodes by on the way along a key. */
  ghost function Loads(db: NodeMap, n: Node, key: Path): set<Hash>
    requires WellFormedMap(db) && WellFormed(n)
    decreases |key|, Weight(n)
  {
    match n
    case Nil | Leaf(_, _, _) => {}
    case Ref(h) => {h} + if Resolve(db, h).Some? then Loads(db, Resolve(db, h).value, key) else {}
    case Ext(prefix, next, _) => if Common(prefix, key) == |prefix| then Loads(db, next, key[|prefix|..]) else {}
    case Branch(children, _, _) => if key == [] then {} else Loads(db, children[key[0]], key[1..])
  }

  /** The hash of a node, if a write of this value below it changes what it holds. */
  ghost function Differs(H: Hasher, db: NodeMap, n: Node, key: Path, value: Value): set<Hash>
    requires WellFormedMap(db) && WellFormed(n)
  {
    if RootHash(H, Insert(db, n, key, value)) == RootHash(H, n) then {} else {RootHash(H, n)}
  }

  /** The hashes, before the write, of the extensions and branches whose contents insert changes. */
  ghost function Changed(H: Hasher, db: NodeMap, n: Node, key: Path, value: Value): set<Hash>
    requires WellFormedMap(db) && WellFormed(n)
    decreases |key|, Weight(n)
  {
    match n
    case Nil | Leaf(_, _, _) => {}
    case Ref(h) => if Resolve(db, h).Some? then Changed(H, db, Resolve(db, h).value, key, value) else {}
    case Ext(prefix, next, _) =>
      Differs(H, db, n, key, value)
      + if Common(prefix, key) == |prefix| then Changed(H, db, next, key[|prefix|..], value) else {}
    case Branch(children, _, _) =>
      Differs(H, db, n, key, value) + if key == [] then {} else Changed(H, db, children[key[0]], key[1..], value)
  }

  /** The hashes of the extensions and branches in memory. */
  ghost function InMemory(H: Hasher, n: Node): set<Hash> {
    match n
    case Nil | Ref(_) | Leaf(_, _, _) => {}
    case Ext(_, next, _) => {RootHash(H, n)} + InMemory(H, next)
    case Branch(children, _, _) =>
      {RootHash(H, n)} + set i, h | 0 <= i < |children| && h in InMemory(H, children[i]) :: h
  }

  /** Those beside the way along a key. */
  ghost function Beside(H: Hasher, db: NodeMap, n: Node, key: Path): set<Hash>
    requires WellFormedMap(db) && WellFormed(n)
    decreases |key|, Weight(n)
  {
    match n
    case Nil | Leaf(_, _, _) => {}
    case Ref(h) => if Resolve(db, h).Some? then Beside(H, db, Resolve(db, h).value, key) else {}
    case Ext(prefix, next, _) =>
      if Common(prefix, key) == |prefix| then Beside(H, db, next, key[|prefix|..]) else InMemory(H, next)
    case Branch(children, _, _) =>
      (set i, h | 0 <= i < |children| && (key == [] || i != key[0]) && h in InMemory(H, children[i]) :: h)
      + if key == [] then {} else Beside(H, db, children[key[0]], key[1..])
  }

  /** A read caches what it loads. */
  ghost function AfterLoads(db: NodeMap, n: Node, key: Path, cache: Cache): Cache
    requires WellFormedMap(db) && WellFormed(n)
  {
    Cache(cache.held + Loads(db, n, key), cache.stale)
  }

  /** So does a write, and it changes the cached nodes themselves. */
  ghost function AfterPut(H: Hasher, db: NodeMap, n: Node, key: Path, value: Value, cache: Cache): Cache
    requires WellFormedMap(db) && WellFormed(n)
  {
    var held := cache.held + Loads(db, n, key);
    Cache(held, cache.stale + Changed(H, db, n, key, value) * held)
  }

  /**
   * The database caches a node when it is loaded and never drops it.  This write
   * loads only nodes that hold what they were stored with, and changes no cached
   * node that is in memory at a second place.
   */
  ghost predicate Alone(H: Hasher, db: NodeMap, n: Node, key: Path, value: Value, cache: Cache)
    requires WellFormedMap(db) && WellFormed(n)
  {
    && Loads(db, n, key) !! cache.stale
    && Changed(H, db, n, key, value) * AfterPut(H, db, n, key, value, cache).held !! Beside(H, db, n, key)
  }

  /** All the Puts of a flush or a commit, in the given order. */
  ghost predicate PutsAlone(H: Hasher, db: NodeMap, n: Node, accounts: Accounts, order: seq<Address>, cache: Cache)
    requires WellFormedMap(db) && WellFormed(n)
  {
    order != [] ==>
      var front, addr := order[..|order| - 1], order[|order| - 1];
      && PutsAlone(H, db, n, accounts, front, cache)
      && (addr in accounts ==>
            Alone(H, db, RootAfterPuts(db, n, accounts, front), ToPath(addr), Some(AccountCodec.Encode(accounts[addr])),
                  AfterPuts(H, db, n, accounts, front, cache)))
  }

  ghost function AfterPuts(H: Hasher, db: NodeMap, n: Node, accounts: Accounts, order: seq<Address>,
                           cache: Cache): Cache
    requires WellFormedMap(db) && WellFormed(n)
  {
    if order == [] then cache
    else
      var front, addr := order[..|order| - 1], order[|order| - 1];
      var before := AfterPuts(H, db, n, accounts, front, cache);
      if addr !in accounts then before
      else
        AfterPut(H, db, RootAfterPuts(db, n, accounts, front), ToPath(addr),
                 Some(AccountCodec.Encode(accounts[addr])), before)
  }

  // ---- Events ----

  ghost predicate Damaging(c: Session, e: Event)
    requires WellFormedMap(Decoded(c.storage)) && WellFormed(c.root)
  {
    var a := Missed(c.state, e);
    a.Some? && Damages(Decoded(c.storage), c.root, ToPath(a.value))
  }

  ghost function RootAfterLoad(c: Session, e: Event): (r: Node)
    requires WellFormedMap(Decoded(c.storage)) && WellFormed(c.root)
    ensures WellFormed(r)
  {
    var a := Missed(c.state, e);
    if a.None? then c.root else AfterGet(Decoded(c.storage), c.root, ToPath(a.value))
  }

  ghost function CacheAfterLoad(c: Session, e: Event): Cache
    requires WellFormedMap(Decoded(c.storage)) && WellFormed(c.root)
  {
    var a := Missed(c.state, e);
    if a.None? then c.cache else AfterLoads(Decoded(c.storage), c.root, ToPath(a.value), c.cache)
  }

  ghost predicate Readable(c: Session) {
    WellFormedMap(Decoded(c.storage)) && WellFormed(c.root) && Valid(c.state)
  }

  /** What holds between events. */
  ghost predicate Good(H: Hasher, c: Session) {
    && Readable(c) && Sound(H, c.storage) && CleanObjects(c.state)
    && AccountTree(Decoded(c.storage), c.root, c.state.trie) && Sized(c.root)
  }

  /** The order visits all objects. */
  ghost predicate Covers(order: seq<Address>, s: State) {
    forall a :: a in s.objects ==> a in order
  }

  /** One event, as ReadAccount, WriteAccounts and Commit do it to the trie and the store's methods to the fields. */
  ghost predicate Happens(H: Hasher, c: Session, e: Event, d: Session)
    requires Readable(c)
  {
    match e
    case Call(op) =>
      && LoadsWhole(c.state, e) && Step(c.state, op) == Some(d.state)
      && d.root == RootAfterLoad(c, e) && d.storage == c.storage && d.cache == CacheAfterLoad(c, e)
    case FlushAll(order) =>
      && Covers(order, c.state) && AllCompact(DirtyAccounts(c.state.objects))
      && d.state == Flush(c.state) && d.storage == c.storage
      && d.root == RootAfterPuts(Decoded(c.storage), c.root, DirtyAccounts(c.state.objects), order)
      && d.cache == AfterPuts(H, Decoded(c.storage), c.root, DirtyAccounts(c.state.objects), order, c.cache)
    case CommitAll(order, rootOf) =>
      && Covers(order, c.state) && AllCompact(CommitAccounts(c.state, rootOf))
      && Commits(H, CommitAccounts(c.state, rootOf), order, c.root, c.storage, d.root, d.storage, RootHash(H, d.root))
      && d.state == StateAfterCommit(c.state, rootOf)
      && d.cache == AfterPuts(H, Decoded(c.storage), c.root, CommitAccounts(c.state, rootOf), order, c.cache)
  }

  /** No read of this event damages the trie, and whatever it loads holds what it was stored with. */
  ghost predicate Harmless(H: Hasher, c: Session, e: Event)
    requires Readable(c)
  {
    match e
    case Call(_) =>
      var a := Missed(c.state, e);
      a.Some? ==> !Damaging(c, e) && Loads(Decoded(c.storage), c.root, ToPath(a.value)) !! c.cache.stale
    case FlushAll(order) => PutsAlone(H, Decoded(c.storage), c.root, DirtyAccounts(c.state.objects), order, c.cache)
    case CommitAll(order, rootOf) =>
      PutsAlone(H, Decoded(c.storage), c.root, CommitAccounts(c.state, rootOf), order, c.cache)
  }

  // ---- What every event keeps ----

  lemma CallKeeps(H: Hasher, c: Session, e: Event, d: Session)
    requires Good(H, c) && e.Call? && Happens(H, c, e, d) && !Damaging(c, e)
    ensures Good(H, d)
  {
    StepValid(c.state, e.op);
    StepClean(c.state, e.op);
    StepTrie(c.state, e.op);
    var a := Missed(c.state, e);
    if a.Some? {
      ReadKeepsAccounts(Decoded(c.storage), c.root, c.state.trie, ToPath(a.value));
      ReadSized(c.storage, c.root, ToPath(a.value));
    }
  }

  /** A call writes nothing to the trie. */
  lemma StepTrie(s: State, op: Op)
    requires Valid(s) && Step(s, op).Some?
    ensures Step(s, op).value.trie == s.trie
  {
  }

  lemma FlushKeeps(H: Hasher, c: Session, order: seq<Address>, d: Session)
    requires Good(H, c) && Happens(H, c, FlushAll(order), d)
    ensures Good(H, d)
  {
    var accounts := DirtyAccounts(c.state.objects);
    PutsTree(c.storage, c.root, c.state.trie, accounts, order);
    VisitedAll(c.state.trie, accounts, order);
  }

  lemma CommitKeeps(H: Hasher, c: Session, order: seq<Address>, rootOf: map<Slot, Bytes> -> Hash, d: Session)
    requires Good(H, c) && Happens(H, c, CommitAll(order, rootOf), d)
    ensures Good(H, d)
    ensures AccountTree(Decoded(d.storage), Ref(RootHash(H, d.root)), d.state.trie)
  {
    var accounts := CommitAccounts(c.state, rootOf);
    var written := RootAfterPuts(Decoded(c.storage), c.root, accounts, order);
    PutsTree(c.storage, c.root, c.state.trie, accounts, order);
    VisitedAll(c.state.trie, accounts, order);
    CommitTree(H, c.storage, d.storage, written, StateReopen.Committed(c.state, rootOf));
    CommitSized(H, written);
    AfterCommitSameHash(H, written);
    assert RootHash(H, d.root) == RootHash(H, written);
  }

  ghost predicate Passes(H: Hasher, c: Session, e: Event, d: Session) {
    Readable(c) && Happens(H, c, e, d) && Harmless(H, c, e)
  }

  lemma EventKeeps(H: Hasher, c: Session, e: Event, d: Session)
    requires Good(H, c) && Passes(H, c, e, d)
    ensures Good(H, d)
  {
    match e
    case Call(_) => CallKeeps(H, c, e, d);
    case FlushAll(order) => FlushKeeps(H, c, order, d);
    case CommitAll(order, rootOf) => CommitKeeps(H, c, order, rootOf, d);
  }

  // ---- Runs ----

  /** Sessions before, between and after a run of events, all of them harmless. */
  ghost predicate Undamaged(H: Hasher, cs: seq<Session>, es: seq<Event>) {
    && |cs| == |es| + 1
    && forall i, j :: 0 <= i < |es| && j == i + 1 ==> Passes(H, cs[i], es[i], cs[j])
  }

  lemma {:induction false} RunKeeps(H: Hasher, cs: seq<Session>, es: seq<Event>, k: nat)
    requires Undamaged(H, cs, es) && Good(H, cs[0]) && k <= |es|
    ensures Good(H, cs[k])
  {
    if k > 0 {
      var i := k - 1;
      RunKeeps(H, cs, es, i);
      EventKeeps(H, cs[i], es[i], cs[k]);
    }
  }

  /** A new StateDB. */
  function New(): Session {
    Session(State(map[], map[], [], [], 0), Nil, map[], Cache({}, {}))
  }

  /** NewStateDBWithRoot on a store, whose trie holds these accounts. */
  function Opened(root: Hash, accounts: Accounts, storage: Storage): Session {
    Session(State(map[], accounts, [], [], 0), Ref(root), storage, Cache({}, {}))
  }

  lemma NewIsGood(H: Hasher)
    ensures Good(H, New())
  {
    EmptyTree(Decoded(map[]));
  }

  /**
   * A session, from a new or an opened StateDB, ends with a commit.  If all its
   * events were harmless, then a StateDB opened at the committed root reads every
   * account as it stood before the commit: with the same nonce and balances if it
   * was written and has both balances, with a panic if it was written and one is
   * zero, as absent if it was never written.  And the next session starts where
   * this one ended.
   */
  lemma SessionReopens(H: Hasher, cs: seq<Session>, es: seq<Event>, addr: Address)
    requires Undamaged(H, cs, es) && Good(H, cs[0]) && es != [] && es[|es| - 1].CommitAll?
    requires var view := View(cs[|es| - 1].state); addr in view ==> StateReopen.Compact(view[addr])
    ensures var d := cs[|es|];
            var root := RootHash(H, d.root);
            && Good(H, Opened(root, d.state.trie, d.storage))
            && ReadsBack(Reopened(d.storage, root, addr), addr in d.state.trie,
                         AccountAt(View(cs[|es| - 1].state), addr))
  {
    var n := |es| - 1;
    var last := n + 1;
    RunKeeps(H, cs, es, n);
    assert Passes(H, cs[n], es[n], cs[last]);
    CommitReopens(H, cs[n], es[n], cs[last], RootHash(H, cs[last].root), addr);
  }

  lemma CommitReopens(H: Hasher, c: Session, e: Event, d: Session, root: Hash, addr: Address)
    requires Good(H, c) && e.CommitAll? && Happens(H, c, e, d) && root == RootHash(H, d.root)
    requires addr in View(c.state) ==> StateReopen.Compact(View(c.state)[addr])
    ensures Good(H, Opened(root, d.state.trie, d.storage))
    ensures ReadsBack(Reopened(d.storage, root, addr), addr in d.state.trie, AccountAt(View(c.state), addr))
  {
    CommitKeeps(H, c, e.order, e.rootOf, d);
    ReopenedRead(c.state, e.rootOf, d.storage, root, addr);
  }

  /** So it is for every session of a new StateDB. */
  lemma FirstSessionReopens(H: Hasher, cs: seq<Session>, es: seq<Event>, addr: Address)
    requires Undamaged(H, cs, es) && cs[0] == New() && es != [] && es[|es| - 1].CommitAll?
    requires var view := View(cs[|es| - 1].state); addr in view ==> StateReopen.Compact(view[addr])
    ensures var d := cs[|es|];
            var root := RootHash(H, d.root);
            && Good(H, Opened(root, d.state.trie, d.storage))
            && ReadsBack(Reopened(d.storage, root, addr), addr in d.state.trie,
                         AccountAt(View(cs[|es| - 1].state), addr))
  {
    NewIsGood(H);
    SessionReopens(H, cs, es, addr);
  }

  /** After an undamaged session an account survives reopening if never written or with both balances, and only then. */
  lemma SurvivesReopening(H: Hasher, cs: seq<Session>, es: seq<Event>, addr: Address)
    requires Undamaged(H, cs, es) && Good(H, cs[0]) && es != [] && es[|es| - 1].CommitAll?
    requires var view := View(cs[|es| - 1].state); addr in view ==> StateReopen.Compact(view[addr])
    ensures var d, before := cs[|es|], AccountAt(View(cs[|es| - 1].state), addr);
            !Reopened(d.storage, RootHash(H, d.root), addr).Panic? <==>
            addr !in d.state.trie || (before.apt > 0 && before.npt > 0)
  {
    SessionReopens(H, cs, es, addr);
    var d := cs[|es|];
    ReadsBackMeans(Reopened(d.storage, RootHash(H, d.root), addr), addr in d.state.trie,
                   AccountAt(View(cs[|es| - 1].state), addr));
  }

  /** A damaging call, a mere read too, loses an account from the trie, though the StateDB still counts on it. */
  lemma DamagingCallLoses(H: Hasher, c: Session, e: Event, d: Session) returns (lost: Address)
    requires Good(H, c) && Happens(H, c, e, d) && Damaging(c, e)
    ensures lost in d.state.trie && Get(Decoded(d.storage), d.root, ToPath(lost)) == None
  {
    StepTrie(c.state, e.op);
    lost := DamagingReadLosesAccount(Decoded(c.storage), c.root, c.state.trie, ToPath(Missed(c.state, e).value));
  }

  /**
   * A StateDB opened at a root whose first call reads one account: another
   * account with the same first byte, as SecondReadMisses has it, is absent from
   * the trie afterwards, though the StateDB counts on it.
   */
  lemma OpenedThenMissed(H: Hasher, root: Hash, m: Accounts, s: Storage, addr: Address, d: Session, other: Address,
                         far: Address)
    requires Good(H, Opened(root, m, s)) && Happens(H, Opened(root, m, s), Call(Read(addr)), d)
    requires addr in m && AloneInByte(m, addr) && other in m && other != addr && other[0] == addr[0]
    requires far in m && far[0] / 16 != addr[0] / 16
    ensures Damaging(Opened(root, m, s), Call(Read(addr)))
    ensures other in d.state.trie && Get(Decoded(d.storage), d.root, ToPath(other)) == None
  {
    StepTrie(Opened(root, m, s).state, Read(addr));
    SecondReadMisses(Decoded(s), Ref(root), m, addr, other, far);
  }

  // ---- A commit after an intermediate root ----

  /** Writing what is there already changes no node. */
  lemma {:induction false} RewriteChangesNothing(H: Hasher, s: Storage, n: Node, key: Path, value: Value)
    requires Sound(H, s) && WellFormed(n) && value.Some? && Get(Decoded(s), n, key) == value
    ensures RootHash(H, Insert(Decoded(s), n, key, value)) == RootHash(H, n)
    ensures Changed(H, Decoded(s), n, key, value) == {}
    decreases |key|, Weight(n)
  {
    var db := Decoded(s);
    match n
    case Leaf(_, _, _) =>
    case Ref(h) =>
      ResolvedAnchored(H, s, h);
      RewriteChangesNothing(H, s, Resolve(db, h).value, key, value);
    case Ext(prefix, next, _) =>
      RewriteChangesNothing(H, s, next, key[|prefix|..], value);
    case Branch(children, _, _) =>
      if key != [] {
        RewriteChangesNothing(H, s, children[key[0]], key[1..], value);
        var child := Insert(db, children[key[0]], key[1..], value);
        assert ChildHashes(H, children[key[0] := child]) == ChildHashes(H, children);
      }
  }

  lemma HangLoads(db: NodeMap, branch: Node, rest: Path, value: Value, q: Path)
    requires WellFormedMap(db) && branch.Branch? && WellFormed(branch)
    ensures Loads(db, Hang(branch, rest, value), q) <= Loads(db, branch, q)
    ensures q == rest ==> Loads(db, Hang(branch, rest, value), q) == {}
  {
  }

  lemma HangExtLoads(db: NodeMap, rest: Path, next: Node, q: Path)
    requires WellFormedMap(db) && WellFormed(next) && rest != []
    ensures Loads(db, HangExt(NewBranch(), rest, next), q) == if rest <= q then Loads(db, next, q[|rest|..]) else {}
  {
    if q != [] && q[0] == rest[0] && |rest| > 1 {
      CommonIsPrefix(rest[1..], q[1..]);
      assert rest[1..] <= q[1..] <==> rest <= q;
      assert rest <= q ==> q[1..][|rest[1..]|..] == q[|rest|..];
    }
  }

  lemma ExtendLoads(db: NodeMap, pre: Path, branch: Node, q: Path)
    requires WellFormedMap(db) && WellFormed(branch) && !branch.Ref?
    ensures Loads(db, Extend(pre, branch), q) == if pre <= q then Loads(db, branch, q[|pre|..]) else {}
  {
    if pre == [] {
      assert q[0..] == q;
    } else {
      CommonIsPrefix(pre, q);
    }
  }

  /** The split of a leaf or an extension loads nothing new. */
  lemma SplitLoads(db: NodeMap, n: Node, key: Path, value: Value, q: Path)
    requires WellFormedMap(db) && WellFormed(n)
    requires (n.Leaf? && n.suffix != key) || (n.Ext? && Common(n.prefix, key) != |n.prefix|)
    ensures Loads(db, Insert(db, n, key, value), q) <= Loads(db, n, q)
    ensures q == key ==> Loads(db, Insert(db, n, key, value), q) == {}
  {
    var split := if n.Leaf? then n.suffix else n.prefix;
    CommonIsPrefix(split, key);
    var p := Common(split, key);
    var branch := if n.Leaf? then Hang(NewBranch(), split[p..], n.value) else HangExt(NewBranch(), split[p..], n.next);
    ExtendLoads(db, key[..p], Hang(branch, key[p..], value), q);
    if key[..p] <= q {
      HangLoads(db, branch, key[p..], value, q[p..]);
      if n.Leaf? {
        HangLoads(db, NewBranch(), split[p..], n.value, q[p..]);
      } else {
        HangExtLoads(db, split[p..], n.next, q[p..]);
        CommonIsPrefix(split, q);
        PrefixPast(split[..p], split[p..], q);
        assert split == split[..p] + split[p..];
      }
    }
  }

  /** After a write the way along its key is in memory. */
  lemma {:induction false} PutIsLoaded(db: NodeMap, n: Node, key: Path, value: Value)
    requires WellFormedMap(db) && WellFormed(n)
    ensures Loads(db, Insert(db, n, key, value), key) == {}
    decreases |key|, Weight(n)
  {
    match n
    case Nil =>
    case Ref(h) =>
      var resolved := Resolve(db, h);
      PutIsLoaded(db, if resolved.None? then Nil else resolved.value, key, value);
    case Leaf(suffix, _, _) =>
      if suffix != key {
        SplitLoads(db, n, key, value, key);
      }
    case Ext(prefix, next, _) =>
      if Common(prefix, key) == |prefix| {
        PutIsLoaded(db, next, key[|prefix|..], value);
      } else {
        SplitLoads(db, n, key, value, key);
      }
    case Branch(children, _, _) =>
      if key != [] {
        PutIsLoaded(db, children[key[0]], key[1..], value);
      }
  }

  /** Ways that are in memory stay there. */
  lemma {:induction false} StaysLoaded(db: NodeMap, n: Node, key: Path, value: Value, q: Path)
    requires WellFormedMap(db) && WellFormed(n) && Loads(db, n, q) == {}
    ensures Loads(db, Insert(db, n, key, value), q) == {}
    decreases |key|, Weight(n)
  {
    match n
    case Nil =>
    case Ref(_) =>
    case Leaf(suffix, _, _) =>
      if suffix != key {
        SplitLoads(db, n, key, value, q);
      }
    case Ext(prefix, next, _) =>
      if Common(prefix, key) != |prefix| {
        SplitLoads(db, n, key, value, q);
      } else if Common(prefix, q) == |prefix| {
        StaysLoaded(db, next, key[|prefix|..], value, q[|prefix|..]);
      }
    case Branch(children, _, _) =>
      if key != [] && q != [] && key[0] == q[0] {
        StaysLoaded(db, children[key[0]], key[1..], value, q[1..]);
      }
  }

  /** After all the Puts the ways to their accounts are in memory. */
  lemma {:induction false} PutsAreLoaded(db: NodeMap, n: Node, accounts: Accounts, order: seq<Address>, addr: Address)
    requires WellFormedMap(db) && WellFormed(n) && addr in accounts && addr in order
    ensures Loads(db, RootAfterPuts(db, n, accounts, order), ToPath(addr)) == {}
  {
    var front, last := order[..|order| - 1], order[|order| - 1];
    assert order == front + [last];
    var before := RootAfterPuts(db, n, accounts, front);
    if last == addr {
      PutIsLoaded(db, before, ToPath(addr), Some(AccountCodec.Encode(accounts[addr])));
    } else {
      PutsAreLoaded(db, n, accounts, front, addr);
      if last in accounts {
        StaysLoaded(db, before, ToPath(last), Some(AccountCodec.Encode(accounts[last])), ToPath(addr));
      }
    }
  }

  /** The tree holds this account and has the way to it in memory. */
  ghost predicate Present(db: NodeMap, n: Node, accounts: Accounts, addr: Address)
    requires WellFormedMap(db) && WellFormed(n) && addr in accounts
  {
    Get(db, n, ToPath(addr)) == Some(AccountCodec.Encode(accounts[addr])) && Loads(db, n, ToPath(addr)) == {}
  }

  lemma StaysPresent(db: NodeMap, n: Node, accounts: Accounts, addr: Address, key: Path, v: Value, a: Address, r: Node)
    requires WellFormedMap(db) && WellFormed(n) && addr in accounts && a in accounts && Present(db, n, accounts, a)
    requires key == ToPath(addr) && v == Some(AccountCodec.Encode(accounts[addr])) && r == Insert(db, n, key, v)
    ensures WellFormed(r) && Present(db, r, accounts, a)
  {
    InsertGet(db, n, key, v, ToPath(a));
    StaysLoaded(db, n, key, v, ToPath(a));
    AddressPath(addr, key);
    AddressPath(a, key);
  }

  /** Putting such accounts again, in any order, loads nothing, changes nothing, and so is harmless. */
  lemma {:induction false} PutsAgain(H: Hasher, s: Storage, n: Node, accounts: Accounts, order: seq<Address>,
                                     cache: Cache)
    requires Sound(H, s) && WellFormed(n) && forall a :: a in accounts ==> Present(Decoded(s), n, accounts, a)
    ensures forall a ::
              a in accounts ==> Present(Decoded(s), RootAfterPuts(Decoded(s), n, accounts, order), accounts, a)
    ensures PutsAlone(H, Decoded(s), n, accounts, order, cache)
    ensures AfterPuts(H, Decoded(s), n, accounts, order, cache) == cache
  {
    if order != [] {
      var db, front, addr := Decoded(s), order[..|order| - 1], order[|order| - 1];
      PutsAgain(H, s, n, accounts, front, cache);
      if addr in accounts {
        PutAgain(H, s, RootAfterPuts(db, n, accounts, front), accounts, addr, cache);
      }
    }
  }

  lemma PutAgain(H: Hasher, s: Storage, n: Node, accounts: Accounts, addr: Address, cache: Cache)
    requires Sound(H, s) && WellFormed(n) && addr in accounts
    requires forall a :: a in accounts ==> Present(Decoded(s), n, accounts, a)
    ensures var db, key, v := Decoded(s), ToPath(addr), Some(AccountCodec.Encode(accounts[addr]));
            && (forall a :: a in accounts ==> Present(db, Insert(db, n, key, v), accounts, a))
            && Alone(H, db, n, key, v, cache) && AfterPut(H, db, n, key, v, cache) == cache
  {
    var db, key, v := Decoded(s), ToPath(addr), Some(AccountCodec.Encode(accounts[addr]));
    Unharmed(H, s, n, accounts, addr, key, v, cache);
    AllStayPresent(db, n, accounts, addr, key, v, Insert(db, n, key, v));
  }

  lemma Unharmed(H: Hasher, s: Storage, n: Node, accounts: Accounts, addr: Address, key: Path, v: Value, cache: Cache)
    requires Sound(H, s) && WellFormed(n) && addr in accounts && Present(Decoded(s), n, accounts, addr)
    requires key == ToPath(addr) && v == Some(AccountCodec.Encode(accounts[addr]))
    ensures Alone(H, Decoded(s), n, key, v, cache) && AfterPut(H, Decoded(s), n, key, v, cache) == cache
  {
    RewriteChangesNothing(H, s, n, key, v);
  }

  lemma AllStayPresent(db: NodeMap, n: Node, accounts: Accounts, addr: Address, key: Path, v: Value, r: Node)
    requires WellFormedMap(db) && WellFormed(n) && addr in accounts
    requires forall a :: a in accounts ==> Present(db, n, accounts, a)
    requires key == ToPath(addr) && v == Some(AccountCodec.Encode(accounts[addr])) && r == Insert(db, n, key, v)
    ensures WellFormed(r) && forall a :: a in accounts ==> Present(db, r, accounts, a)
  {
    forall a | a in accounts ensures Present(db, r, accounts, a) {
      StaysPresent(db, n, accounts, addr, key, v, a, r);
    }
  }

  /**
   * A commit right after an intermediate root, if it writes the same accounts,
   * is harmless and leaves the cache as it was.
   */
  lemma CommitAfterFlush(H: Hasher, c: Session, order: seq<Address>, d: Session, again: seq<Address>,
                         rootOf: map<Slot, Bytes> -> Hash, e: Session)
    requires Good(H, c) && Happens(H, c, FlushAll(order), d)
    requires Readable(d) && Happens(H, d, CommitAll(again, rootOf), e)
    requires CommitAccounts(d.state, rootOf) == DirtyAccounts(c.state.objects)
    ensures Harmless(H, d, CommitAll(again, rootOf)) && e.cache == d.cache
  {
    var accounts, db := DirtyAccounts(c.state.objects), Decoded(c.storage);
    PutsTree(c.storage, c.root, c.state.trie, accounts, order);
    VisitedAll(c.state.trie, accounts, order);
    forall a | a in accounts ensures Present(db, d.root, accounts, a) {
      TreeReadsAccount(db, d.root, c.state.trie + accounts, a);
      PutsAreLoaded(db, c.root, accounts, order, a);
    }
    PutsAgain(H, c.storage, d.root, accounts, again, d.cache);
  }

  // ---- Sessions that go on ----

  /** All of the trie is in memory, and nothing is cached, as in a new StateDB before its first commit. */
  ghost predicate AllInMemory(c: Session)
    requires Readable(c)
  {
    c.cache == Cache({}, {}) && forall q :: Loads(Decoded(c.storage), c.root, q) == {}
  }

  lemma NewIsInMemory()
    ensures Readable(New()) && AllInMemory(New())
  {
  }

  lemma {:induction false} PutsInMemory(H: Hasher, db: NodeMap, n: Node, accounts: Accounts, order: seq<Address>,
                                        q: Path)
    requires WellFormedMap(db) && WellFormed(n) && forall r :: Loads(db, n, r) == {}
    ensures Loads(db, RootAfterPuts(db, n, accounts, order), q) == {}
    ensures PutsAlone(H, db, n, accounts, order, Cache({}, {}))
    ensures AfterPuts(H, db, n, accounts, order, Cache({}, {})) == Cache({}, {})
  {
    if order != [] {
      var front, addr := order[..|order| - 1], order[|order| - 1];
      PutsInMemory(H, db, n, accounts, front, q);
      if addr in accounts {
        PutsInMemory(H, db, n, accounts, front, ToPath(addr));
        StaysLoaded(db, RootAfterPuts(db, n, accounts, front), ToPath(addr),
                    Some(AccountCodec.Encode(accounts[addr])), q);
      }
    }
  }

  /**
   * Until the first commit only a damaging read can do harm, intermediate roots
   * or not, and that commit leaves the cache empty; so it is for the next call.
   */
  lemma FirstBlockIsHarmless(H: Hasher, c: Session, e: Event, d: Session)
    requires Good(H, c) && AllInMemory(c) && Happens(H, c, e, d)
    ensures Harmless(H, c, e) <==> !(e.Call? && Damaging(c, e))
    ensures d.cache == Cache({}, {})
    ensures !e.CommitAll? && Harmless(H, c, e) ==> Readable(d) && AllInMemory(d)
    ensures e.CommitAll? && Readable(d) ==> forall op :: Harmless(H, d, Call(op)) <==> !Damaging(d, Call(op))
  {
    var db := Decoded(c.storage);
    match e
    case Call(op) =>
      var a := Missed(c.state, e);
      if Harmless(H, c, e) {
        EventKeeps(H, c, e, d);
        if a.Some? {
          forall q ensures Loads(db, d.root, q) == {} {
            ReadInMemory(db, c.root, ToPath(a.value), q);
          }
        }
      }
    case FlushAll(order) =>
      FlushKeeps(H, c, order, d);
      forall q ensures Loads(db, d.root, q) == {} {
        PutsInMemory(H, db, c.root, DirtyAccounts(c.state.objects), order, q);
      }
      PutsInMemory(H, db, c.root, DirtyAccounts(c.state.objects), order, []);
    case CommitAll(order, rootOf) =>
      PutsInMemory(H, db, c.root, CommitAccounts(c.state, rootOf), order, []);
  }

  /** A read that skips nothing, of a tree in memory, leaves it in memory. */
  lemma {:induction false} VisitInMemory(db: NodeMap, n: Node, key: Path, q: Path)
    requires WellFormedMap(db) && WellFormed(n) && !Skips(db, n, key) && Loads(db, n, q) == {}
    requires forall r :: Loads(db, n, r) == {}
    ensures Loads(db, Visit(db, n, key), q) == {}
    decreases |key|, Weight(n)
  {
    match n
    case Nil | Leaf(_, _, _) =>
    case Ref(_) =>
    case Ext(prefix, _, _) => CommonIsPrefix(prefix, key);
    case Branch(children, _, _) =>
      if key != [] && q != [] && q[0] == key[0] {
        ChildInMemory(db, n, key[0]);
        VisitInMemory(db, children[key[0]], key[1..], q[1..]);
      }
  }

  lemma ChildInMemory(db: NodeMap, n: Node, i: nibble)
    requires WellFormedMap(db) && WellFormed(n) && n.Branch? && forall r :: Loads(db, n, r) == {}
    ensures forall r :: Loads(db, n.children[i], r) == {}
  {
    forall r ensures Loads(db, n.children[i], r) == {} {
      assert ([i] + r)[1..] == r;
      assert Loads(db, n, [i] + r) == {};
    }
  }

  lemma {:induction false} ReadInMemory(db: NodeMap, n: Node, key: Path, q: Path)
    requires WellFormedMap(db) && WellFormed(n) && !Damages(db, n, key) && Loads(db, n, q) == {}
    requires forall r :: Loads(db, n, r) == {}
    ensures Loads(db, AfterGet(db, n, key), q) == {}
    decreases |key|, Weight(n)
  {
    match n
    case Nil | Leaf(_, _, _) =>
    case Ref(_) =>
    case Ext(prefix, next, _) =>
      CommonIsPrefix(prefix, key);
      if prefix <= key && Common(prefix, q) == |prefix| {
        NextInMemory(db, n);
        ReadInMemory(db, next, key[|prefix|..], q[|prefix|..]);
      }
    case Branch(_, _, _) => VisitInMemory(db, n, key, q);
  }

  lemma NextInMemory(db: NodeMap, n: Node)
    requires WellFormedMap(db) && WellFormed(n) && n.Ext? && forall r :: Loads(db, n, r) == {}
    ensures forall r :: Loads(db, n.next, r) == {}
  {
    forall r ensures Loads(db, n.next, r) == {} {
      CommonIsPrefix(n.prefix, n.prefix + r);
      assert (n.prefix + r)[|n.prefix|..] == r;
      assert Loads(db, n, n.prefix + r) == {};
    }
  }

  // ---- The state root ----

  /** The parts on disk stand under the hashes of what they are. */
  lemma {:induction false} PagedRootHash(H: Hasher, s: Storage, a: Node, b: Node)
    requires Sound(H, s) && WellFormed(a) && WellFormed(b) && Pages(Decoded(s), a, b) && TrieCanonical.Canonical(b)
    ensures RootHash(H, a) == RootHash(H, b)
    decreases b, Weight(a)
  {
    match a
    case Nil | Leaf(_, _, _) =>
    case Ref(h) =>
      ResolvedAnchored(H, s, h);
      PagedRootHash(H, s, Resolve(Decoded(s), h).value, b);
    case Ext(_, next, _) => PagedRootHash(H, s, next, b.next);
    case Branch(children, _, _) =>
      forall i | 0 <= i < 16 ensures RootHash(H, children[i]) == RootHash(H, b.children[i]) {
        PagedRootHash(H, s, children[i], b.children[i]);
      }
      assert ChildHashes(H, children) == ChildHashes(H, b.children);
  }

  /** Trees of the same accounts, loaded to any extent and from any store, have the same root hash. */
  lemma SameAccountsSameRoot(H: Hasher, s: Storage, a: Node, t: Storage, b: Node, m: Accounts)
    requires Sound(H, s) && WellFormed(a) && AccountTree(Decoded(s), a, m)
    requires Sound(H, t) && WellFormed(b) && AccountTree(Decoded(t), b, m)
    ensures RootHash(H, a) == RootHash(H, b)
  {
    var x :| Loaded(Decoded(s), a, x, m);
    var y :| Loaded(Decoded(t), b, y, m);
    PagedRootHash(H, s, a, x);
    PagedRootHash(H, t, b, y);
    forall q ensures Get(Decoded(s), x, q) == Get(Decoded(s), y, q) {
      LoadedGet(Decoded(t), Decoded(s), y, q);
    }
    TrieCanonical.ContentsDetermineShape(Decoded(s), x, y);
    TrieRoots.SameShapeSameHash(H, x, y);
  }

  /**
   * The state root that a commit returns is a function of the accounts
   * committed: two sessions that end with the same accounts, whatever they did
   * before, return the same root.
   */
  lemma RootIsOfAccounts(H: Hasher, cs: seq<Session>, es: seq<Event>, ds: seq<Session>, fs: seq<Event>)
    requires Undamaged(H, cs, es) && Good(H, cs[0]) && Undamaged(H, ds, fs) && Good(H, ds[0])
    requires cs[|es|].state.trie == ds[|fs|].state.trie
    ensures RootHash(H, cs[|es|].root) == RootHash(H, ds[|fs|].root)
  {
    RunKeeps(H, cs, es, |es|);
    RunKeeps(H, ds, fs, |fs|);
    var c, d := cs[|es|], ds[|fs|];
    SameAccountsSameRoot(H, c.storage, c.root, d.storage, d.root, c.state.trie);
  }
}
