/** The StateDB object: each method updates the fields in place as its function says. */
module StateStore {
  import opened Wrappers
  import opened Nibbles
  import opened TrieNode
  import opened AccountCodec
  import opened StateDB
  import opened StateRollback

  /** The dirty accounts other than those still to be written. */
  ghost function Written(objects: Objects, pending: set<Address>): Accounts {
    map a | a in objects && IsDirty(objects[a]) && a !in pending :: objects[a].account
  }

  lemma WrittenBounds(trie: Accounts, objects: Objects)
    ensures trie + Written(objects, objects.Keys) == trie
    ensures Written(objects, {}) == DirtyAccounts(objects)
  {
  }

  lemma WrittenStep(trie: Accounts, objects: Objects, pending: set<Address>, addr: Address)
    requires addr in pending && addr in objects
    ensures trie + Written(objects, pending - {addr})
         == if IsDirty(objects[addr]) then (trie + Written(objects, pending))[addr := objects[addr].account]
            else trie + Written(objects, pending)
  {
  }

  class Store {
    var objects: Objects
    var trie: Accounts
    var journal: seq<Entry>
    var revisions: seq<nat>
    var nextRevision: nat

    ghost function Value(): State
      reads this
    {
      State(objects, trie, journal, revisions, nextRevision)
    }

    /** NewStateDB over a trie with the given accounts. */
    constructor (accounts: Accounts)
      ensures Valid(Value()) && View(Value()) == accounts
      ensures journal == [] && revisions == [] && trie == accounts && objects == map[]
    {
      objects := map[];
      trie := accounts;
      journal := [];
      revisions := [];
      nextRevision := 0;
      new;
      assert AccountsOf(objects) == map[];
    }

    /** getStateObject. */
    method GetStateObject(addr: Address) returns (found: bool)
      modifies this`objects
      ensures Value() == Fetch(old(Value()), addr)
      ensures found <==> addr in View(Value())
      ensures found ==> addr in objects && objects[addr].account == View(Value())[addr]
    {
      if addr in objects {
        return true;
      }
      if addr !in trie {
        return false;
      }
      objects := objects[addr := StateObject(trie[addr], false, map[])];
      return true;
    }

    method GetOrNewStateObject(addr: Address)
      modifies this`objects, this`journal
      ensures Value() == GetOrNew(old(Value()), addr)
      ensures addr in objects && objects[addr].account == AccountAt(old(View(Value())), addr)
    {
      GetOrNewView(Value(), addr);
      var found := GetStateObject(addr);
      if !found {
        journal := journal + [Created(addr)];
        objects := objects[addr := StateObject(NEW_ACCOUNT, false, map[])];
      }
    }

    method AddBalanceAPT(addr: Address, amount: nat)
      modifies this`objects, this`journal
      ensures Value() == AddAPT(old(Value()), addr, amount)
    {
      GetOrNewStateObject(addr);
      var o := objects[addr];
      var a := o.account;
      objects := objects[addr := StateObject(WithBalances(a, a.apt + amount, a.npt), true, o.storage)];
      journal := journal + [Balance(addr, a.apt, a.npt)];
    }

    method AddBalanceNPT(addr: Address, amount: nat)
      modifies this`objects, this`journal
      ensures Value() == AddNPT(old(Value()), addr, amount)
    {
      GetOrNewStateObject(addr);
      var o := objects[addr];
      var a := o.account;
      objects := objects[addr := StateObject(WithBalances(a, a.apt, a.npt + amount), true, o.storage)];
      journal := journal + [Balance(addr, a.apt, a.npt)];
    }

    /** Panics on underflow, so callers must check the balance. */
    method SubBalanceAPT(addr: Address, amount: nat)
      requires AccountAt(View(Value()), addr).apt >= amount
      modifies this`objects, this`journal
      ensures Some(Value()) == SubAPT(old(Value()), addr, amount)
    {
      GetOrNewView(Value(), addr);
      GetOrNewStateObject(addr);
      var o := objects[addr];
      var a := o.account;
      objects := objects[addr := StateObject(WithBalances(a, a.apt - amount, a.npt), true, o.storage)];
      journal := journal + [Balance(addr, a.apt, a.npt)];
    }

    method SubBalanceNPT(addr: Address, amount: nat)
      requires AccountAt(View(Value()), addr).npt >= amount
      modifies this`objects, this`journal
      ensures Some(Value()) == SubNPT(old(Value()), addr, amount)
    {
      GetOrNewView(Value(), addr);
      GetOrNewStateObject(addr);
      var o := objects[addr];
      var a := o.account;
      objects := objects[addr := StateObject(WithBalances(a, a.apt, a.npt - amount), true, o.storage)];
      journal := journal + [Balance(addr, a.apt, a.npt)];
    }

    method SetAccountNonce(addr: Address, nonce: uint64)
      modifies this`objects, this`journal
      ensures Value() == SetNonce(old(Value()), addr, nonce)
    {
      GetOrNewStateObject(addr);
      var o := objects[addr];
      var a := o.account;
      objects := objects[addr := StateObject(WithNonce(a, nonce), true, o.storage)];
      journal := journal + [Nonce(addr, a.nonce)];
    }

    /** GetBalanceAPT, GetBalanceNPT and GetNonce: zero for an account that does not exist. */
    method GetAccount(addr: Address) returns (apt: nat, npt: nat, nonce: uint64)
      modifies this`objects
      ensures Value() == Fetch(old(Value()), addr)
      ensures var a := AccountAt(old(View(Value())), addr); apt == a.apt && npt == a.npt && nonce == a.nonce
    {
      FetchView(Value(), addr);
      var found := GetStateObject(addr);
      if found {
        var a := objects[addr].account;
        return a.apt, a.npt, a.nonce;
      }
      return 0, 0, 0;
    }

    method TakeSnapshot() returns (id: nat)
      requires Ordered(Value())
      modifies this`revisions, this`nextRevision
      ensures Value() == Snapshot(old(Value())) && id == old(nextRevision)
    {
      id := nextRevision;
      nextRevision := nextRevision + 1;
      revisions := revisions + [|journal|];
    }

    /** RevertToSnapshot: undoes the journal from its end; an unknown id panics. */
    method RevertToSnapshot(id: nat)
      requires Valid(Value()) && id < |revisions|
      modifies this
      ensures Some(Value()) == Revert(old(Value()), id)
      ensures Valid(Value()) && View(Value()) == Past(old(Value()), old(revisions[id]))
    {
      var idx := revisions[id];
      var i := |journal|;
      assert journal[..i] == journal;
      while i > idx
        invariant idx <= i <= |journal|
        invariant journal == old(journal) && trie == old(trie) && revisions == old(revisions)
        invariant UndoTo(objects, journal[..i], idx) == UndoTo(old(objects), old(journal), idx)
      {
        i := i - 1;
        assert journal[..i + 1][..i] == journal[..i];
        objects := UndoEntry(objects, journal[i]);
      }
      journal := journal[..idx];
      revisions := revisions[..id];
      nextRevision := id;
      RevertRestores(old(Value()), id);
    }

    /** IntermediateRoot's writes: every dirty account goes to the trie. */
    method FlushDirty()
      modifies this`trie
      ensures Value() == Flush(old(Value())) && View(Value()) == old(View(Value()))
    {
      FlushView(Value());
      var pending := objects.Keys;
      WrittenBounds(trie, objects);
      while pending != {}
        invariant pending <= objects.Keys
        invariant trie == old(trie) + Written(objects, pending)
        decreases pending
      {
        var addr :| addr in pending;
        WrittenStep(old(trie), objects, pending, addr);
        if IsDirty(objects[addr]) {
          trie := trie[addr := objects[addr].account];
        }
        pending := pending - {addr};
      }
    }
  }
}
