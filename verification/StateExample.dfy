/** A session that goes on after an intermediate root and a commit (internal/state/account/statedb.go). */
module StateExample {
  import opened Wrappers
  import opened Nibbles
  import opened TrieNode
  import opened NodeCodec
  import opened TrieCommit
  import opened TrieStore
  import opened BigInt
  import AccountCodec
  import opened StateDB
  import StateRollback
  import opened StateReopen
  import opened StateSessions

  /** One account with this APT balance. */
  function One(addr: Address, apt: nat): Accounts {
    map[addr := WithBalances(NEW_ACCOUNT, apt, 0)]
  }

  function Object(addr: Address, apt: nat): Objects {
    map[addr := StateObject(WithBalances(NEW_ACCOUNT, apt, 0), true, map[])]
  }

  /** The trie of that account, before and after a commit. */
  function Tree(addr: Address, apt: nat, meta: Meta): Node {
    Leaf(ToPath(addr), Some(AccountCodec.Encode(One(addr, apt)[addr])), meta)
  }

  lemma TreeFits(addr: Address, apt: nat, meta: Meta)
    requires apt < 256
    ensures AllCompact(One(addr, apt)) && WellFormed(Tree(addr, apt, meta)) && Sized(Tree(addr, apt, meta))
  {
    assert Power256(1) == 256 * Power256(0);
    ToBytesLength(apt, 1);
    ToBytesLength(0, 1);
    ToPathAt(addr, 0);
  }

  /** What a commit finds and leaves when this account is all there is. */
  lemma CommitOne(H: Hasher, addr: Address, apt: nat, root: Node, s: Storage, universe: set<Bytes>)
    returns (t: Storage, after: Node)
    requires apt < 256 && Sound(H, s) && Within(s, universe) && CollisionFree(H, universe)
    requires Blob(H, Tree(addr, apt, FRESH)) in universe
    requires root.Nil? || (root.Leaf? && root.suffix == ToPath(addr))
    ensures Commits(H, One(addr, apt), [addr], root, s, after, t, RootHash(H, after)) && Within(t, universe)
    ensures after == Tree(addr, apt, TrieStore.Committed(RootHash(H, Tree(addr, apt, FRESH))))
  {
    var n := Tree(addr, apt, FRESH);
    TreeFits(addr, apt, FRESH);
    PutNodeSound(H, s, n, universe);
    t := s[RootHash(H, n) := Blob(H, n)];
    after := AfterCommit(H, n);
    PutOne(Decoded(s), addr, apt, root);
    assert Blobs(H, n) <= universe;
  }

  lemma PutOne(db: NodeMap, addr: Address, apt: nat, root: Node)
    requires WellFormedMap(db) && (root.Nil? || (root.Leaf? && root.suffix == ToPath(addr)))
    ensures RootAfterPuts(db, root, One(addr, apt), [addr]) == Tree(addr, apt, FRESH)
  {
    assert [addr][..0] == [];
    assert RootAfterPuts(db, root, One(addr, apt), []) == root;
  }

  /** With a single leaf in memory no write is beside another, and nothing is loaded. */
  lemma AloneOne(H: Hasher, db: NodeMap, addr: Address, apt: nat, root: Node)
    requires WellFormedMap(db) && (root.Nil? || (root.Leaf? && root.suffix == ToPath(addr)))
    ensures PutsAlone(H, db, root, One(addr, apt), [addr], Cache({}, {}))
    ensures AfterPuts(H, db, root, One(addr, apt), [addr], Cache({}, {})) == Cache({}, {})
  {
    PutsInMemory(H, db, root, One(addr, apt), [addr], []);
  }

  /** A credit of one, in memory. */
  lemma CreditOne(s: State, addr: Address, apt: nat)
    requires Valid(s) && addr !in s.trie - s.objects.Keys
    requires s.objects == Object(addr, apt) || (apt == 0 && s.objects == map[])
    ensures var t := StateRollback.Step(s, StateRollback.OpAddAPT(addr, 1));
            t.Some? && t.value.objects == Object(addr, apt + 1) && t.value.trie == s.trie
  {
  }

  lemma WrittenOne(s: State, addr: Address, apt: nat, rootOf: map<Slot, Bytes> -> Hash)
    requires s.objects == Object(addr, apt)
    ensures DirtyAccounts(s.objects) == One(addr, apt) && CommitAccounts(s, rootOf) == One(addr, apt)
    ensures StateAfterCommit(s, rootOf).objects == s.objects
            && StateAfterCommit(s, rootOf).trie == s.trie + One(addr, apt)
  {
  }

  function Credit(addr: Address): Event { Call(StateRollback.OpAddAPT(addr, 1)) }

  function Events(addr: Address, rootOf: map<Slot, Bytes> -> Hash): seq<Event> {
    [Credit(addr), FlushAll([addr]), CommitAll([addr], rootOf), Credit(addr), CommitAll([addr], rootOf)]
  }

  /** The account is all there is, in memory and in the trie, and nothing is cached. */
  ghost predicate Only(c: Session, addr: Address, apt: nat) {
    && Readable(c) && c.cache == Cache({}, {})
    && (c.state.objects == Object(addr, apt) || (apt == 0 && c.state.objects == map[] && c.state.trie == map[]))
    && (c.root.Nil? || (c.root.Leaf? && c.root.suffix == ToPath(addr)))
  }

  lemma CreditPasses(H: Hasher, c: Session, addr: Address, apt: nat) returns (d: Session)
    requires Only(c, addr, apt)
    ensures Passes(H, c, Credit(addr), d) && Only(d, addr, apt + 1)
    ensures d.root == c.root && d.storage == c.storage && d.state.objects == Object(addr, apt + 1)
    ensures d.state.trie == c.state.trie
  {
    var op := StateRollback.OpAddAPT(addr, 1);
    CreditOne(c.state, addr, apt);
    StateRollback.StepValid(c.state, op);
    d := Session(StateRollback.Step(c.state, op).value, c.root, c.storage, c.cache);
  }

  lemma FlushPasses(H: Hasher, c: Session, addr: Address, apt: nat) returns (d: Session)
    requires Only(c, addr, apt) && c.state.objects == Object(addr, apt) && apt < 256
    ensures Passes(H, c, FlushAll([addr]), d) && Only(d, addr, apt)
    ensures d.storage == c.storage && d.state.objects == c.state.objects
  {
    WrittenOne(c.state, addr, apt, _ => EMPTY_HASH);
    TreeFits(addr, apt, FRESH);
    PutOne(Decoded(c.storage), addr, apt, c.root);
    AloneOne(H, Decoded(c.storage), addr, apt, c.root);
    d := Session(Flush(c.state), Tree(addr, apt, FRESH), c.storage, c.cache);
  }

  lemma CommitPasses(H: Hasher, c: Session, addr: Address, apt: nat, rootOf: map<Slot, Bytes> -> Hash,
                     universe: set<Bytes>)
    returns (d: Session)
    requires Only(c, addr, apt) && c.state.objects == Object(addr, apt) && apt < 256
    requires Sound(H, c.storage) && Within(c.storage, universe) && CollisionFree(H, universe)
    requires Blob(H, Tree(addr, apt, FRESH)) in universe
    ensures Passes(H, c, CommitAll([addr], rootOf), d) && Only(d, addr, apt)
    ensures Sound(H, d.storage) && Within(d.storage, universe)
    ensures d.state.objects == c.state.objects && d.state.trie == c.state.trie + One(addr, apt)
  {
    WrittenOne(c.state, addr, apt, rootOf);
    TreeFits(addr, apt, FRESH);
    AloneOne(H, Decoded(c.storage), addr, apt, c.root);
    var s, n := CommitOne(H, addr, apt, c.root, c.storage, universe);
    d := Session(StateAfterCommit(c.state, rootOf), n, s, c.cache);
  }

  lemma NewIsOnly(addr: Address, c: Session)
    requires c == New()
    ensures Only(c, addr, 0) && c.storage == map[] && c.state.objects == map[]
  {
  }

  /** A harmless event after a run. */
  lemma OneMore(H: Hasher, cs: seq<Session>, es: seq<Event>, e: Event, d: Session)
    requires Undamaged(H, cs, es) && Passes(H, cs[|es|], e, d)
    ensures Undamaged(H, cs + [d], es + [e])
  {
    var ds, fs := cs + [d], es + [e];
    forall i, j | 0 <= i < |fs| && j == i + 1 ensures Passes(H, ds[i], fs[i], ds[j]) {
      if i < |es| {
        assert ds[i] == cs[i] && ds[j] == cs[j] && fs[i] == es[i];
      }
    }
  }

  lemma RunCredit(H: Hasher, cs: seq<Session>, es: seq<Event>, addr: Address, apt: nat) returns (d: Session)
    requires Undamaged(H, cs, es) && Only(cs[|es|], addr, apt)
    ensures Undamaged(H, cs + [d], es + [Credit(addr)])
    ensures Only(d, addr, apt + 1) && d.state.objects == Object(addr, apt + 1)
    ensures d.storage == cs[|es|].storage
  {
    d := CreditPasses(H, cs[|es|], addr, apt);
    OneMore(H, cs, es, Credit(addr), d);
  }

  lemma RunFlush(H: Hasher, cs: seq<Session>, es: seq<Event>, addr: Address, apt: nat) returns (d: Session)
    requires Undamaged(H, cs, es) && Only(cs[|es|], addr, apt)
    requires cs[|es|].state.objects == Object(addr, apt) && apt < 256
    ensures Undamaged(H, cs + [d], es + [FlushAll([addr])])
    ensures Only(d, addr, apt) && d.state.objects == Object(addr, apt)
    ensures d.storage == cs[|es|].storage
  {
    d := FlushPasses(H, cs[|es|], addr, apt);
    OneMore(H, cs, es, FlushAll([addr]), d);
  }

  lemma RunCommit(H: Hasher, cs: seq<Session>, es: seq<Event>, addr: Address, apt: nat,
                  rootOf: map<Slot, Bytes> -> Hash, universe: set<Bytes>)
    returns (d: Session)
    requires Undamaged(H, cs, es) && Only(cs[|es|], addr, apt)
    requires cs[|es|].state.objects == Object(addr, apt) && apt < 256
    requires Sound(H, cs[|es|].storage) && Within(cs[|es|].storage, universe) && CollisionFree(H, universe)
    requires Blob(H, Tree(addr, apt, FRESH)) in universe
    ensures Undamaged(H, cs + [d], es + [CommitAll([addr], rootOf)])
    ensures Only(d, addr, apt) && d.state.objects == Object(addr, apt)
    ensures Sound(H, d.storage) && Within(d.storage, universe)
  {
    d := CommitPasses(H, cs[|es|], addr, apt, rootOf, universe);
    OneMore(H, cs, es, CommitAll([addr], rootOf), d);
  }

  /** Credit, intermediate root, commit, after any run. */
  lemma RunBlock(H: Hasher, cs: seq<Session>, es: seq<Event>, addr: Address,
                 rootOf: map<Slot, Bytes> -> Hash, universe: set<Bytes>)
    returns (ds: seq<Session>, fs: seq<Event>)
    requires Undamaged(H, cs, es) && Only(cs[|es|], addr, 0)
    requires Sound(H, cs[|es|].storage) && Within(cs[|es|].storage, universe) && CollisionFree(H, universe)
    requires Blob(H, Tree(addr, 1, FRESH)) in universe
    ensures fs == es + [Credit(addr), FlushAll([addr]), CommitAll([addr], rootOf)]
    ensures Undamaged(H, ds, fs) && cs <= ds && Only(ds[|fs|], addr, 1)
    ensures ds[|fs|].state.objects == Object(addr, 1)
    ensures Sound(H, ds[|fs|].storage) && Within(ds[|fs|].storage, universe)
  {
    var d := RunCredit(H, cs, es, addr, 0);
    ds, fs := cs + [d], es + [Credit(addr)];
    d := RunFlush(H, ds, fs, addr, 1);
    ds, fs := ds + [d], fs + [FlushAll([addr])];
    d := RunCommit(H, ds, fs, addr, 1, rootOf, universe);
    ds, fs := ds + [d], fs + [CommitAll([addr], rootOf)];
  }

  /** Credit a new account, intermediate root, commit, credit it again, commit: a harmless session of a new StateDB. */
  lemma CreditCommitCredit(H: Hasher, addr: Address, rootOf: map<Slot, Bytes> -> Hash, universe: set<Bytes>)
    returns (cs: seq<Session>)
    requires CollisionFree(H, universe)
    requires Blob(H, Tree(addr, 1, FRESH)) in universe && Blob(H, Tree(addr, 2, FRESH)) in universe
    ensures Undamaged(H, cs, Events(addr, rootOf)) && |cs| == 6 && cs[0] == New()
    ensures cs[5].state.objects == Object(addr, 2) && cs[5].cache == Cache({}, {})
  {
    var c := New();
    NewIsOnly(addr, c);
    var es: seq<Event>;
    cs, es := RunBlock(H, [c], [], addr, rootOf, universe);
    var d := RunCredit(H, cs, es, addr, 1);
    cs, es := cs + [d], es + [Credit(addr)];
    d := RunCommit(H, cs, es, addr, 2, rootOf, universe);
    cs, es := cs + [d], es + [CommitAll([addr], rootOf)];
    assert es == Events(addr, rootOf);
  }
}
