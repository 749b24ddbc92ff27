/**
 * The account store with its journal and nested snapshots
 * (internal/state/account/statedb.go, journal.go, state_object.go).
 *
 * Amounts are values, copied into the journal; the module SharedAmounts shows
 * what follows from the pointers the source keeps instead.  The trie field is
 * the decoded contents of the account trie.
 */
module StateDB {
  import opened Wrappers
  import opened Nibbles
  import opened TrieNode
  import opened AccountCodec

  const ZERO20: Bytes := [0, 0, 0, 0, 0, 0, 0, 0, 0, 0, 0, 0, 0, 0, 0, 0, 0, 0, 0, 0]

  type Address = a: Bytes | |a| == 20 witness ZERO20

  const ZERO_ADDRESS: Address := ZERO20
  const AMM_POOL_ADDRESS: Address := [0, 0, 0, 0, 0, 0, 0, 0, 0, 0, 0, 0, 0, 0, 0, 0, 0, 0, 0, 1]

  /** A storage slot key, before hashing. */
  type Slot = string

  datatype StateObject = StateObject(account: Account, dirty: bool, storage: map<Slot, Bytes>)

  datatype Entry =
    | Created(addr: Address)
    | Balance(addr: Address, prevAPT: nat, prevNPT: nat)
    | Nonce(addr: Address, prevNonce: uint64)

  type Objects = map<Address, StateObject>
  type Accounts = map<Address, Account>

  datatype State = State(objects: Objects, trie: Accounts, journal: seq<Entry>, revisions: seq<nat>, nextRevision: nat)

  /** EmptyCodeHash, the SHA-256 of no bytes. */
  const EMPTY_CODE_HASH: Hash := [
    0xE3, 0xB0, 0xC4, 0x42, 0x98, 0xFC, 0x1C, 0x14, 0x9A, 0xFB, 0xF4, 0xC8, 0x99, 0x6F, 0xB9, 0x24,
    0x27, 0xAE, 0x41, 0xE4, 0x64, 0x9B, 0x93, 0x4C, 0xA4, 0x95, 0x99, 0x1B, 0x78, 0x52, 0xB8, 0x55]

  const NEW_ACCOUNT := Account(0, 0, 0, EMPTY_CODE_HASH, EMPTY_HASH)

  function WithBalances(a: Account, apt: nat, npt: nat): Account {
    Account(a.nonce, apt, npt, a.codeHash, a.storageRoot)
  }

  function WithNonce(a: Account, nonce: uint64): Account {
    Account(nonce, a.apt, a.npt, a.codeHash, a.storageRoot)
  }

  // ---- What a reader sees ----

  function AccountsOf(objects: Objects): Accounts {
    map a | a in objects :: objects[a].account
  }

  /** Every account that exists: the loaded objects over the contents of the trie. */
  function View(s: State): Accounts {
    s.trie + AccountsOf(s.objects)
  }

  // ---- The operations, as functions on the state ----

  /** getStateObject: loads an account of the trie into memory. */
  function Fetch(s: State, addr: Address): State {
    if addr !in s.objects && addr in s.trie
    then s.(objects := s.objects[addr := StateObject(s.trie[addr], false, map[])])
    else s
  }

  /** GetOrNewStateObject and CreateAccount. */
  function GetOrNew(s: State, addr: Address): (r: State)
    ensures addr in r.objects
  {
    var loaded := Fetch(s, addr);
    if addr in loaded.objects then loaded
    else loaded.(objects := loaded.objects[addr := StateObject(NEW_ACCOUNT, false, map[])],
                 journal := loaded.journal + [Created(addr)])
  }

  /** Changes one account of a loaded object and journals how to undo it. */
  function Change(s: State, addr: Address, account: Account, entry: Entry): State
    requires addr in s.objects
  {
    s.(objects := s.objects[addr := StateObject(account, true, s.objects[addr].storage)],
       journal := s.journal + [entry])
  }

  function SetBalances(s: State, addr: Address, apt: nat, npt: nat): State
    requires addr in s.objects
  {
    var a := s.objects[addr].account;
    Change(s, addr, WithBalances(a, apt, npt), Balance(addr, a.apt, a.npt))
  }

  function AddAPT(s: State, addr: Address, amount: nat): State {
    var t := GetOrNew(s, addr);
    var a := t.objects[addr].account;
    SetBalances(t, addr, a.apt + amount, a.npt)
  }

  function AddNPT(s: State, addr: Address, amount: nat): State {
    var t := GetOrNew(s, addr);
    var a := t.objects[addr].account;
    SetBalances(t, addr, a.apt, a.npt + amount)
  }

  /** SubBalanceAPT; None is the panic of an underflow. */
  function SubAPT(s: State, addr: Address, amount: nat): Option<State> {
    var t := GetOrNew(s, addr);
    var a := t.objects[addr].account;
    if a.apt < amount then None else Some(SetBalances(t, addr, a.apt - amount, a.npt))
  }

  function SubNPT(s: State, addr: Address, amount: nat): Option<State> {
    var t := GetOrNew(s, addr);
    var a := t.objects[addr].account;
    if a.npt < amount then None else Some(SetBalances(t, addr, a.apt, a.npt - amount))
  }

  function SetNonce(s: State, addr: Address, nonce: uint64): State {
    var t := GetOrNew(s, addr);
    var a := t.objects[addr].account;
    Change(t, addr, WithNonce(a, nonce), Nonce(addr, a.nonce))
  }

  function Snapshot(s: State): State {
    s.(revisions := s.revisions + [|s.journal|], nextRevision := s.nextRevision + 1)
  }

  /** The revert method of one journal entry. */
  function UndoEntry(objects: Objects, e: Entry): Objects {
    if e.addr !in objects then objects
    else
      var o := objects[e.addr];
      match e
      case Created(addr) => objects - {addr}
      case Balance(addr, apt, npt) => objects[addr := StateObject(WithBalances(o.account, apt, npt), true, o.storage)]
      case Nonce(addr, nonce) => objects[addr := StateObject(WithNonce(o.account, nonce), true, o.storage)]
  }

  /** Reverts the entries from the last down to the given index. */
  function UndoTo(objects: Objects, journal: seq<Entry>, idx: nat): Objects
    decreases |journal|
  {
    if |journal| <= idx then objects
    else UndoTo(UndoEntry(objects, journal[|journal| - 1]), journal[..|journal| - 1], idx)
  }

  /** RevertToSnapshot; None is the panic on an unknown revision. */
  function Revert(s: State, id: nat): Option<State>
    requires Ordered(s)
  {
    if id >= |s.revisions| then None
    else
      var idx := s.revisions[id];
      Some(State(UndoTo(s.objects, s.journal, idx), s.trie, s.journal[..idx], s.revisions[..id], id))
  }

  /** The revision stack is sorted, within the journal, and in step with the next id. */
  ghost predicate Ordered(s: State) {
    && s.nextRevision == |s.revisions|
    && (forall i :: 0 <= i < |s.revisions| ==> s.revisions[i] <= |s.journal|)
    && (forall i, j :: 0 <= i < j < |s.revisions| ==> s.revisions[i] <= s.revisions[j])
  }

  /** Every journaled address is loaded, and a creation is the first entry for its address. */
  ghost predicate Journaled(objects: Objects, journal: seq<Entry>) {
    && (forall i :: 0 <= i < |journal| ==> journal[i].addr in objects)
    && (forall i, j :: 0 <= j < i < |journal| && journal[i].Created? ==> journal[j].addr != journal[i].addr)
  }

  ghost predicate Valid(s: State) {
    Ordered(s) && Journaled(s.objects, s.journal)
  }

  /** IntermediateRoot: dirty accounts go to the trie. */
  function Flush(s: State): State {
    State(s.objects, s.trie + DirtyAccounts(s.objects), s.journal, s.revisions, s.nextRevision)
  }

  /** Dirty: the account changed, or a storage slot was set. */
  predicate IsDirty(o: StateObject) {
    o.dirty || o.storage != map[]
  }

  function DirtyAccounts(objects: Objects): Accounts {
    map a | a in objects && IsDirty(objects[a]) :: objects[a].account
  }

  // ---- What the operations do to the view ----

  /** The account a change starts from. */
  function AccountAt(view: Accounts, addr: Address): Account {
    if addr in view then view[addr] else NEW_ACCOUNT
  }

  lemma FetchView(s: State, addr: Address)
    ensures View(Fetch(s, addr)) == View(s)
  {
  }

  lemma GetOrNewView(s: State, addr: Address)
    ensures View(GetOrNew(s, addr)) == View(s)[addr := AccountAt(View(s), addr)]
    ensures GetOrNew(s, addr).objects[addr].account == AccountAt(View(s), addr)
  {
    FetchView(s, addr);
  }

  lemma ChangeView(s: State, addr: Address, account: Account, entry: Entry)
    requires addr in s.objects
    ensures View(Change(s, addr, account, entry)) == View(s)[addr := account]
  {
  }

  lemma SetBalancesView(s: State, addr: Address, apt: nat, npt: nat)
    ensures View(SetBalances(GetOrNew(s, addr), addr, apt, npt))
         == View(s)[addr := WithBalances(AccountAt(View(s), addr), apt, npt)]
  {
    GetOrNewView(s, addr);
    var t := GetOrNew(s, addr);
    var a := AccountAt(View(s), addr);
    ChangeView(t, addr, WithBalances(a, apt, npt), Balance(addr, a.apt, a.npt));
    Overwrite(View(s), addr, a, WithBalances(a, apt, npt));
  }

  lemma Overwrite(view: Accounts, addr: Address, a: Account, b: Account)
    ensures view[addr := a][addr := b] == view[addr := b]
  {
  }

  /** The view after an operation that comes down to setting both balances. */
  lemma BalancesSetView(s: State, r: State, addr: Address, apt: nat, npt: nat)
    requires r == SetBalances(GetOrNew(s, addr), addr, apt, npt)
    ensures View(r) == View(s)[addr := WithBalances(AccountAt(View(s), addr), apt, npt)]
  {
    SetBalancesView(s, addr, apt, npt);
  }

  lemma LoadedAccount(s: State, addr: Address)
    ensures GetOrNew(s, addr).objects[addr].account == AccountAt(View(s), addr)
  {
  }

  lemma AddAPTView(s: State, addr: Address, amount: nat)
    ensures var a := AccountAt(View(s), addr);
            View(AddAPT(s, addr, amount)) == View(s)[addr := WithBalances(a, a.apt + amount, a.npt)]
  {
    LoadedAccount(s, addr);
    var b := GetOrNew(s, addr).objects[addr].account;
    BalancesSetView(s, AddAPT(s, addr, amount), addr, b.apt + amount, b.npt);
  }

  lemma AddNPTView(s: State, addr: Address, amount: nat)
    ensures var a := AccountAt(View(s), addr);
            View(AddNPT(s, addr, amount)) == View(s)[addr := WithBalances(a, a.apt, a.npt + amount)]
  {
    LoadedAccount(s, addr);
    var b := GetOrNew(s, addr).objects[addr].account;
    BalancesSetView(s, AddNPT(s, addr, amount), addr, b.apt, b.npt + amount);
  }

  lemma SubAPTView(s: State, addr: Address, amount: nat)
    ensures var a := AccountAt(View(s), addr);
            if a.apt < amount then SubAPT(s, addr, amount).None?
            else SubAPT(s, addr, amount).Some?
                 && View(SubAPT(s, addr, amount).value) == View(s)[addr := WithBalances(a, a.apt - amount, a.npt)]
  {
    LoadedAccount(s, addr);
    var b := GetOrNew(s, addr).objects[addr].account;
    if b.apt >= amount {
      SetBalancesView(s, addr, b.apt - amount, b.npt);
    }
  }

  lemma SubNPTView(s: State, addr: Address, amount: nat)
    ensures var a := AccountAt(View(s), addr);
            if a.npt < amount then SubNPT(s, addr, amount).None?
            else SubNPT(s, addr, amount).Some?
                 && View(SubNPT(s, addr, amount).value) == View(s)[addr := WithBalances(a, a.apt, a.npt - amount)]
  {
    LoadedAccount(s, addr);
    var b := GetOrNew(s, addr).objects[addr].account;
    if b.npt >= amount {
      SetBalancesView(s, addr, b.apt, b.npt - amount);
    }
  }

  lemma SetNonceView(s: State, addr: Address, nonce: uint64)
    ensures View(SetNonce(s, addr, nonce)) == View(s)[addr := WithNonce(AccountAt(View(s), addr), nonce)]
  {
    GetOrNewView(s, addr);
    var t := GetOrNew(s, addr);
    var a := t.objects[addr].account;
    ChangeView(t, addr, WithNonce(a, nonce), Nonce(addr, a.nonce));
    Overwrite(View(s), addr, a, WithNonce(a, nonce));
  }

  lemma FlushView(s: State)
    ensures View(Flush(s)) == View(s)
  {
  }

  /** An intermediate root writes an object if it is marked dirty or has storage, and no other account. */
  lemma FlushMeans(s: State, a: Address)
    ensures var t := Flush(s);
            && t.objects == s.objects && t.journal == s.journal && t.revisions == s.revisions
            && if a in s.objects && (s.objects[a].dirty || s.objects[a].storage != map[])
               then a in t.trie && t.trie[a] == s.objects[a].account
               else (a in t.trie <==> a in s.trie) && (a in s.trie ==> t.trie[a] == s.trie[a])
  {
  }
}
