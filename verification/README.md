# A verified model of the chain node

This project models the parts of an AI-compute blockchain node whose
correctness rests on long arguments, and proves what their documentation, tests
or callers rely on.  `dafny verify dfyconfig.toml` checks everything.

- **Merkle-Patricia trie** (`Nibbles`, `TrieNode`, `TrieRefinement`,
  `TrieCanonical`, `TrieReads`, `TriePages`, `NodeCodec`, `TrieCommit`,
  `TrieStore`, `TrieRoots`, `TrieCache`).  `insert`, `get` and `delete` over nil, leaf, extension, branch
  and hash nodes; the byte encoding; commit into a content-addressed store.
  Main results: insert and delete refine a map for every key, prefixes of other
  keys included; two normal-form trees with the same contents are the same tree,
  so a put/delete history matters only through the map it reaches, and root
  hashes are equal exactly when the maps are; commit then reopen answers every
  lookup as before exactly when no leaf holds a nil value; a read of a tree that is
  loaded, stored, or partly either keeps the contents exactly when no branch on its
  path has a matching extension below it.
- **StateDB** (`BigInt`, `AccountCodec`, `StateDB`, `StateRollback`,
  `StateStore`, `SharedAmounts`, `StateReopen`, `StateSessions`, `StateExample`).  The
  cached account store with its journal and nested snapshots.  Main results: `RevertToSnapshot` restores
  every account over any interleaving of calls and nested snapshots, where amounts
  are values, and what it gives instead where they are the shared integers of the
  code; what every account reads as after a session of calls, intermediate roots
  and commits, new or opened at a root, whose events are harmless to the trie; the
  root depends on the accounts alone.
- **Executor, tokens and AMM** (`Amm`, `Ledger`, `Executor`, `TxOutcome`, `Processor`).
  Functions say what a transaction and a block do to the accounts and the pool;
  the methods of `Processor` change a StateDB and a gas pool step by step and are
  proved equal to them.  Main results: who pays and who receives how much, and when, in
  every transaction and block, in plain numbers; supply changes by exactly rewards, fees,
  burns and stakes; a failed transaction costs its sender the fee and a nonce; no
  (sender, nonce) runs twice as long as no last nonce has run; splitting a swap
  never pays, and no run of swaps takes value from the pool for free.
- **Blockchain** (`Blockchain`).  Genesis and block insertion.  Over every
  history of successful and failing insertions the chain stays linked, nothing is
  replayed short of the last nonce, and supply is accounted for.
- **Task graphs** (`TaskDag`), **ring reduce-scatter** (`RingReduce`), **bytecode
  interpreter** (`Vm`), **task pool** (`TaskHeap`, `TaskPool`), **result
  verifier** (`ResultVerifier`), **validators and votes** (`Validators`).

Objects whose methods update fields are classes (`TrieStore.Database`,
`TrieStore.Trie`, `StateStore.Store`, `Processor.GasPool`, `TaskDag.DAGBuilder`,
`Vm.Interpreter`, `TaskPool.Pool`, `ResultVerifier.Verifier`,
`Validators.ValidatorSet`, `Validators.Tally`, `Blockchain.Blockchain`); each
method's contract ties the new state to a function of the old one, and the
lemmas are about those functions.  SHA-256 is an abstract function; where a
result needs it, no two blobs of a given set collide.

## Where the code does not do what is expected of it

Each of these is a property that fails; the lemmas named give an input and, but
for the second, the exact condition.

- Reading a trie can damage it: a branch above an extension that matches the key
  is left pointing below the extension, so a later read fails.  This also happens
  below a reference, in the node that the database has cached, so a trie that has
  just been opened is damaged by its first read.  Inputs:
  `TriePages.SecondReadOfHistoryFails`, `StateReopen.SecondReadMisses`,
  `StateSessions.OpenedThenMissed`; condition: `TrieReads.ReadKeepsContents`,
  `TriePages.PagedReadKeepsContents`, `TrieStore.CommittedReadKeepsContents`.  In
  the account trie such a read always loses an account
  (`StateReopen.DamagingReadLosesAccount`, `StateReopen.ReadKeepsAccounts`).
- A write changes the node that the database has cached, and leaves it under its
  old hash.  When later contents have that hash again, the trie finds the changed
  node: after a value is overwritten, committed, written back and committed, the
  root is the first one again and the value read is the one in between
  (`TrieCache.WriteBackReadsTheMiddle`).  Runs that load no such node are right
  (`StateSessions.RunKeeps`); a commit right after an intermediate root,
  of the same accounts, makes none (`StateSessions.CommitAfterFlush`).
- A leaf with a nil value reads as empty after reopening
  (`TrieCommit.NilLeafShows`, `TrieCommit.ReopenFaithful`).
- Deleting the only longer key under a stored key leaves a branch that is not
  collapsed, so shape and root hash depend on the history
  (`TrieCanonical.UntidyHistoryDiffers`, `TrieRoots.UntidyRootsDiffer`,
  `TrieCanonical.DeleteKeepsNormalForm`).
- A leaf, extension or branch whose lengths exceed their fields is not decoded as
  it was encoded (`NodeCodec.LeafRoundTrip`, `NodeCodec.ExtRoundTrip`,
  `NodeCodec.BranchRoundTrip`).
- The journal shares the `*big.Int` of the balance it should remember, because
  `AddTo` changes it in place; without inner reverts a revert restores no balance,
  and with them it gives what the account had at the first of these
  (`SharedAmounts.CreditSurvivesRevert`, `SharedAmounts.OuterRevertGivesEight`,
  `SharedAmounts.RevertKeepsBalances`, `SharedAmounts.RevertGives`).  `StateDB`
  models the intent instead: amounts are values, copied into the journal.
- An account with a zero balance panics when it is loaded after reopening
  (`AccountCodec.LoadEncoded`, `StateSessions.SurvivesReopening`).
- A transaction with nonce 2^64-1 resets its sender's nonce to zero and lets old
  transactions in again.  It is in time only at nonce 2^64-17, and runs there
  (`Executor.LastNonceInTime`, `Executor.LastNonceRuns`,
  `Executor.LastNonceReopens`, `Executor.NonceRises`).
- `reduceScatter` returns the node's own unreduced chunk, not the one it has
  reduced (`RingReduce.TwoNodesDiffer`, `RingReduce.ReturnedChunk`), and may slice
  with inverted bounds on uneven sizes (`RingReduce.FiveOverFour`,
  `RingReduce.SliceableMeans`).
- From a gas limit of 2^64-5000 on, the interpreter's counter can wrap and a run
  never end, with a code of 1598 bytes (`Vm.SpinNeverEnds`, `Vm.EveryRunEnds`); from 2^64-100000 on an
  instruction can lower the counter (`Vm.CounterNeverFalls`).
- Evicting from a full task pool removes the best paid task; it removes the lowest
  paid only if all rates are equal (`TaskPool.BetterPaidGoes`,
  `TaskPool.TrimIsFair`).
- A result accepted and returned at the last height of its window can still be
  challenged and rejected at that height (`ResultVerifier.ReturnedThenRejected`,
  `ResultVerifier.FinalIffClosed`).
- The stages of a pipeline wait for one another only if the builder held no
  subtasks before; otherwise they wait for the earliest subtasks of the builder
  (`TaskDag.StagesWait`, `TaskDag.PipelineEdges`).
- Across the wrap of height plus round, a validator can propose twice in a
  rotation (`Validators.RotationBreaks`, `Validators.ProposersDiffer`).
- `HasQuorum` accepts less than two thirds once the total power reaches 2^63
  (`Validators.QuorumIsTwoThirds`), and a vote from an unknown address
  dereferences nil (`Validators.Tally.HandleVote`).

## Model

| member | source | states |
|---|---|---|
| `Nibbles.FromPathToPath` | internal/state/mpt/encoding.go:7-33 | splitting a key into nibbles and packing them again gives the key back |
| `Nibbles.ToPathFromPath` | internal/state/mpt/encoding.go:7-33 | packing an even nibble path and splitting it again gives the path back |
| `Nibbles.ToPathAt` | internal/state/mpt/encoding.go:7-17 | nibble 2i is the high half of byte i, nibble 2i+1 its low half |
| `Nibbles.KeyToNibbles` | internal/state/mpt/encoding.go:7-17 | the loop computes the path of the key |
| `Nibbles.NibblesToKey` | internal/state/mpt/encoding.go:21-33 | the loop computes the key whose path this is |
| `Nibbles.CommonUnique` | internal/state/mpt/encoding.go:109-120 | the common length is the only one up to which two paths agree and past which they do not |
| `Nibbles.CommonPrefix` | internal/state/mpt/encoding.go:109-120 | the index scan computes that length |
| `TrieRefinement.InsertGet` | internal/state/mpt/trie.go:134-288 | after insert a lookup gives the new value at the inserted path and the old answer everywhere else, for every tree, store and pair of paths |
| `TrieRefinement.SplitLeafGet` | internal/state/mpt/trie.go:153-219 | the same through the split of a leaf, with either path ending at the branch |
| `TrieRefinement.SplitExtGet` | internal/state/mpt/trie.go:221-271 | the same through the split of an extension |
| `TrieRefinement.DeleteGet` | internal/state/mpt/trie.go:338-426 | after delete a lookup gives nothing at the deleted path and the old answer everywhere else |
| `TrieRefinement.CompactGet` | internal/state/mpt/trie.go:390-422 | collapsing a branch with one or no child left changes no lookup |
| `TrieRefinement.MergeGet` | internal/state/mpt/trie.go:356-377 | joining an extension with what is below it changes no lookup |
| `TrieCanonical.ContentsDetermineShape` | internal/state/mpt/trie.go:134-288 | two trees in normal form with the same answers to every lookup have the same shape |
| `TrieCanonical.InsertNormal` | internal/state/mpt/trie.go:134-288 | inserting a non-nil value keeps the normal form, for keys of any length |
| `TrieCanonical.DeleteCanonical` | internal/state/mpt/trie.go:338-426 | delete keeps the normal form if and only if it strands no branch |
| `TrieCanonical.DeleteKeepsNormalForm` | internal/state/mpt/trie.go:379-422 | delete keeps the normal form if and only if the key is not the last stored extension of a stored key |
| `TrieCanonical.HistoryGet` | internal/state/mpt/trie.go:57-86 | after any history of puts and deletes every path reads as the map built by it |
| `TrieCanonical.HistoryRefinesMap` | internal/state/mpt/trie.go:57-86 | the same for keys |
| `TrieCanonical.TidyCanonical` | internal/state/mpt/trie.go:57-86 | a history that never deletes a last extension ends in normal form |
| `TrieCanonical.HistoryIndependent` | internal/state/mpt/trie.go:57-86 | two such histories reaching the same map end in the same tree |
| `TrieCanonical.UniformIsTidy` | internal/state/mpt/trie.go:57-86 | histories over keys of one length are such histories |
| `TrieCanonical.UniformHistoryIndependent` | internal/state/mpt/trie.go:57-86 | with keys of one length, as the account trie uses, histories reaching the same map end in the same tree |
| `TrieCanonical.UntidyHistoryDiffers` | internal/state/mpt/trie.go:379-422 | put, put of an extension and its delete reach the same map as one put but another tree |
| `TrieReads.VisitGet` | internal/state/mpt/trie.go:291-335 | a descent that skips no extension hands back a node with the same contents |
| `TrieReads.UndamagedGet` | internal/state/mpt/trie.go:68-75 | a read that damages nothing, in memory or in the cached nodes that references lead to, changes no later lookup |
| `TrieReads.ReadKeepsContents` | internal/state/mpt/trie.go:291-335 | a read of a loaded tree in normal form keeps the contents if and only if no branch on its path has a matching extension below it |
| `TrieReads.SecondReadFails` | internal/state/mpt/trie.go:291-335 | a tree in which reading one key makes the next read of the same key fail |
| `TriePages.PagedReadKeepsContents` | internal/state/mpt/trie.go:291-335 | the same for a tree of which any parts, the root too, are references to stored nodes |
| `TriePages.PagedGet` | internal/state/mpt/trie.go:125-131 | a partly stored tree answers every lookup like the loaded one |
| `TriePages.InsertPages` | internal/state/mpt/trie.go:134-288 | insert works on a partly stored tree as on the loaded one |
| `TriePages.DamageLoses` | internal/state/mpt/trie.go:291-335 | with keys of one length, a damaging read makes some stored key read as absent |
| `TriePages.PagedDamages` | internal/state/mpt/trie.go:291-335 | whether a read does damage does not depend on what is loaded |
| `TriePages.SiblingIsLost` | internal/state/mpt/trie.go:291-335 | of two keys that alone share their first two nibbles, in a tree with another first nibble, reading one makes the other read as absent |
| `TriePages.ExampleIsHistory` | internal/state/mpt/trie.go:57-65 | three calls of Put build a tree of that shape |
| `TriePages.SecondReadOfHistoryFails` | internal/state/mpt/trie.go:68-75 | after those calls, reading one key makes the next read of it fail |
| `NodeCodec.U16RoundTrip` | internal/state/mpt/trie.go:565-586 | a length read back from two bytes is the length modulo 2^16 |
| `NodeCodec.U32RoundTrip` | internal/state/mpt/trie.go:565-616 | a length read back from four bytes is the length modulo 2^32 |
| `NodeCodec.LeafRoundTrip` | internal/state/mpt/trie.go:565-575 | decoding an encoded leaf gives it back, a nil value as an empty one, if and only if both lengths fit their fields |
| `NodeCodec.ExtRoundTrip` | internal/state/mpt/trie.go:577-586 | decoding an encoded extension gives its prefix and a reference to its child if and only if the length fits |
| `NodeCodec.BranchRoundTrip` | internal/state/mpt/trie.go:588-616 | decoding an encoded branch gives its value and sixteen child references, empty slots as nil, if and only if the value's length fits |
| `NodeCodec.ChildrenRoundTrip` | internal/state/mpt/database.go:172-210 | the child table read back has each hash in its slot |
| `NodeCodec.LeafLayout` | internal/state/mpt/trie.go:565-575 | where the parts of a leaf blob are, with the bytes of both length fields |
| `NodeCodec.ExtLayout` | internal/state/mpt/trie.go:577-586 | the same for an extension |
| `NodeCodec.BranchLayout` | internal/state/mpt/trie.go:588-616 | the same for a branch, with the hash of each child |
| `TrieCommit.ReopenGet` | internal/state/mpt/trie.go:429-497 | a tree without nil leaf values reads the same through the hash of its root once its nodes are stored |
| `TrieCommit.NilLeafShows` | internal/state/mpt/trie.go:429-497 | a tree with a nil leaf value has a key that read nothing and reads an empty value through the root hash |
| `TrieCommit.ReopenFaithful` | internal/state/mpt/trie.go:429-497 | reopening answers every lookup as before if and only if no leaf value is nil |
| `TrieCommit.GetGrows` | internal/state/mpt/database.go:27-62 | storing more nodes changes no answer of a tree whose nodes were stored |
| `TrieStore.InsertAnchored` | internal/state/mpt/trie.go:134-288 | insert keeps every cached hash right and every reference stored |
| `TrieStore.DeleteAnchored` | internal/state/mpt/trie.go:338-426 | so does delete |
| `TrieStore.ReadAnchored` | internal/state/mpt/trie.go:291-335 | so does an undamaging read, and the root hash stays the same |
| `TrieStore.FileSound` | internal/state/mpt/trie.go:429-497 | storing a node under its hash keeps the store closed, addressed by content and decodable, if no two blobs collide |
| `TrieStore.AfterCommitGet` | internal/state/mpt/trie.go:429-497 | in a tree without nil leaf values, replacing committed children by references changes no lookup |
| `TrieStore.CommitReads` | internal/state/mpt/trie.go:89-105 | without nil leaf values, the tree before, the tree after and the root hash answer every lookup alike |
| `TrieStore.CommittedReadKeepsContents` | internal/state/mpt/trie.go:291-335 | a read of a tree as a commit leaves it keeps the contents if and only if no branch on its path has a matching extension below it |
| `TrieStore.Database.GetNode` | internal/state/mpt/database.go:27-62 | the node decoded from storage, cached or not, and it is cached afterwards |
| `TrieStore.Database.FlushCache` | internal/state/mpt/database.go:88-92 | empties the cache and loses nothing |
| `TrieStore.Database.PutNode` | internal/state/mpt/trie.go:626-628 | adds one blob and keeps what was stored |
| `TrieStore.Trie.constructor` | internal/state/mpt/trie.go:21-32 | a trie opened at a stored root answers lookups as the stored nodes say |
| `TrieStore.Trie.InsertNode` | internal/state/mpt/trie.go:134-288 | the recursion, loading references through the database and its cache, computes the model function |
| `TrieStore.Trie.DeleteNode` | internal/state/mpt/trie.go:338-426 | so does the recursion of delete |
| `TrieStore.Trie.GetNodeAt` | internal/state/mpt/trie.go:291-335 | the recursion of get: the value, the node handed back, and the node as it is afterwards |
| `TrieStore.Trie.Put` | internal/state/mpt/trie.go:57-65 | updates the map at the key and nowhere else |
| `TrieStore.Trie.Delete` | internal/state/mpt/trie.go:78-86 | removes the key from the map and nothing else |
| `TrieStore.Trie.Get` | internal/state/mpt/trie.go:68-75 | returns what the map holds, and leaves the map alone when the read does no damage |
| `TrieStore.Trie.FileNode` | internal/state/mpt/trie.go:429-497 | encodes, hashes and stores one node whose children are stored |
| `TrieStore.Trie.CommitNode` | internal/state/mpt/trie.go:429-497 | stores the whole subtree, returns its hash, and leaves the tree with references to its children |
| `TrieStore.Trie.CommitChildren` | internal/state/mpt/trie.go:469-481 | commits the sixteen children in order |
| `TrieStore.Trie.Commit` | internal/state/mpt/trie.go:89-105 | returns the root hash, leaves every node stored, keeps what was stored, and without nil leaf values changes no lookup, here or at the root reopened |
| `TrieRoots.RunFits` | internal/state/mpt/trie.go:565-616 | after a history of encodable keys and values every length fits its field |
| `TrieRoots.SameShapeSameHash` | internal/state/mpt/trie.go:429-497 | trees of the same shape have the same root hash |
| `TrieRoots.RootDeterminesContents` | internal/state/mpt/trie_test.go:67-81 | trees with the same root hash answer every lookup alike, if no two blobs collide |
| `TrieRoots.RootHashIsContents` | internal/state/mpt/trie_test.go:67-81 | two histories have equal root hashes if and only if they reach the same map |
| `TrieRoots.UntidyRootsDiffer` | internal/state/mpt/trie.go:379-422 | put, put of an extension and its delete reach the same map as one put but another root hash, if no two blobs collide |
| `TrieCache.OneRound` | internal/state/mpt/trie.go:134-335 | with nodes as objects, a write below an opened root and a commit give the root hash of the new contents, and leave the changed branch in the cache under its old hash |
| `TrieCache.WriteBackReadsTheMiddle` | internal/state/mpt/database.go:28-62 | open, overwrite a value, commit, write it back, commit: the root is the first again, and reading it gives the value in between |
| `BigInt.RoundTrip` | internal/state/account/statedb.go:479-484 | the bytes of a number read back as the number |
| `BigInt.ToBytesLength` | internal/state/account/statedb.go:372-417 | a number below 256^k takes at most k bytes |
| `BigInt.FixedRoundTrip` | internal/state/account/statedb.go:372-417 | a number written in k bytes reads back modulo 256^k |
| `BigInt.FromBytesSplit` | internal/state/account/statedb.go:479-484 | big-endian: the number of two byte strings in a row is that of the first times 256 to the length of the second, plus that of the second |
| `AccountCodec.AmountRoundTrip` | internal/state/account/statedb.go:420-477 | an amount reads back from the front of any data, zero as nil |
| `AccountCodec.AccountRoundTrip` | internal/state/account/statedb.go:372-477 | decodeAccount undoes encodeAccount, except that a zero amount comes back nil |
| `AccountCodec.AccountLayout` | internal/state/account/statedb.go:372-417 | where the parts are: eight bytes of nonce, APT then NPT each after four bytes of length, code hash, storage root |
| `AccountCodec.LoadEncoded` | internal/state/account/statedb.go:78-95 | loading a stored account gives it back if and only if neither balance is zero, and panics otherwise |
| `StateDB.FetchView` | internal/state/account/statedb.go:78-95 | loading an account into memory changes nothing a reader sees |
| `StateDB.GetOrNewView` | internal/state/account/statedb.go:64-113 | creates the account if it is missing and changes no other |
| `StateDB.AddAPTView` | internal/state/account/statedb.go:165-178 | adds to one APT balance and changes nothing else |
| `StateDB.SubAPTView` | internal/state/account/statedb.go:181-194 | subtracts, or panics exactly when the balance is too small |
| `StateDB.AddNPTView` | internal/state/account/statedb.go:197-210 | adds to one NPT balance and changes nothing else |
| `StateDB.SubNPTView` | internal/state/account/statedb.go:213-226 | subtracts, or panics exactly when the balance is too small |
| `StateDB.SetNonceView` | internal/state/account/statedb.go:240-251 | sets one nonce and changes nothing else |
| `StateDB.FlushView` | internal/state/account/statedb.go:339-351 | writing the dirty accounts to the trie changes nothing a reader sees |
| `StateDB.FlushMeans` | internal/state/account/statedb.go:339-351 | an intermediate root writes exactly the accounts that are dirty or have storage |
| `StateRollback.UndoInStages` | internal/state/account/journal.go:124-129 | undoing the journal in two stages is undoing it in one |
| `StateRollback.StepMeans` | internal/state/account/statedb.go:73-251 | what each call does to every account a reader sees, field by field, and when it panics |
| `StateRollback.StepMarks` | internal/state/account/state_object.go:47-143 | loading and creating leave an object clean, changing it makes it dirty, storage and other objects stay |
| `StateRollback.RunLast` | internal/state/account/statedb.go:73-281 | a run is its calls one after another, and panics when one does |
| `StateRollback.ForwardStep` | internal/state/account/statedb.go:98-251 | every call but a revert keeps the view recorded for each earlier journal length and the front of the revision stack |
| `StateRollback.StepValid` | internal/state/account/statedb.go:256-281 | every call keeps the revision stack sorted, within the journal and in step with the next id |
| `StateRollback.RevertRestores` | internal/state/account/statedb.go:264-281 | a revert restores the view recorded for its revision, drops the later ones and leaves a valid store |
| `StateRollback.HoldsRun` | internal/state/account/statedb.go:256-281 | a snapshot keeps recording its view through any run that does not revert to it or below |
| `StateRollback.RollbackRestores` | internal/state/account/statedb.go:256-281 | snapshot, any calls with nested snapshots and reverts, then revert: every account, the journal and the revision stack are as before |
| `StateStore.Store.constructor` | internal/state/account/statedb.go:32-43 | an empty store over a trie shows the trie |
| `StateStore.Store.GetStateObject` | internal/state/account/statedb.go:73-95 | reports whether the account exists, loaded or in the trie |
| `StateStore.Store.GetOrNewStateObject` | internal/state/account/statedb.go:64-113 | the account exists afterwards with its old or a new content |
| `StateStore.Store.AddBalanceAPT` | internal/state/account/statedb.go:165-178 | credits the account in place, creating it if missing and journaling both balances before: the whole new state |
| `StateStore.Store.SubBalanceAPT` | internal/state/account/statedb.go:181-194 | debits the account in place where the balance suffices, journaling both balances before: the whole new state |
| `StateStore.Store.AddBalanceNPT` | internal/state/account/statedb.go:197-210 | the same for NPT |
| `StateStore.Store.SubBalanceNPT` | internal/state/account/statedb.go:213-226 | the same for NPT |
| `StateStore.Store.SetAccountNonce` | internal/state/account/statedb.go:240-251 | sets the nonce in place and journals the one before: the whole new state |
| `StateStore.Store.GetAccount` | internal/state/account/statedb.go:147-162 | reads balances and nonce, zero for an account that does not exist |
| `StateStore.Store.TakeSnapshot` | internal/state/account/statedb.go:256-261 | pushes the journal length and returns the next id |
| `StateStore.Store.RevertToSnapshot` | internal/state/account/statedb.go:264-281 | the loop over the journal ends in the view recorded at the snapshot |
| `StateStore.Store.FlushDirty` | internal/state/account/statedb.go:339-351 | writes exactly the dirty accounts, in any order |
| `SharedAmounts.RevertKeepsBalances` | internal/state/account/statedb.go:165-226 | with pointers as written: snapshot, any calls but reverts, revert leaves an account that was there with the balances it had last, so it is restored if and only if they had not changed |
| `SharedAmounts.RunMatches` | internal/state/account/statedb.go:165-281 | over any run of credits, debits, nonces, snapshots and reverts, a journal entry holds what its account had when it first let go of the integers they share |
| `SharedAmounts.ActPays` | internal/state/account/statedb.go:165-226 | in the book of values a credit or debit changes one amount of one account, and a debit is refused if and only if that is too small |
| `SharedAmounts.RunFirst` | internal/state/account/statedb.go:165-281 | the same for runs with pointers |
| `SharedAmounts.RevertGives` | internal/state/account/statedb.go:264-281 | after any such run a revert gives an account that was there what its first balance entry since the snapshot holds: what it had at the first inner revert past that entry, or what it has now |
| `SharedAmounts.CreditSurvivesRevert` | internal/types/token.go:138-140 | a credit that a revert leaves in place |
| `SharedAmounts.OuterRevertGivesEight` | internal/state/account/statedb.go:264-281 | credit 5, inner credit 3 reverted, credit 2, outer revert: 8 are left |
| `StateReopen.VisitedAll` | internal/state/account/statedb.go:306-336 | whatever the map order, a commit writes the same accounts |
| `StateReopen.PutAccount` | internal/state/account/statedb.go:359-366 | an undamaged account trie holds the account encoded and the others as before |
| `StateReopen.WriteAccounts` | internal/state/account/statedb.go:306-325 | the loop over the objects, in any order, leaves exactly the written accounts in the trie |
| `StateReopen.ReadAccount` | internal/state/account/statedb.go:78-95 | finds the account as it was stored, and keeps the trie, with the nodes cached for its references, if and only if the read does no damage |
| `StateReopen.ReadKeepsAccounts` | internal/state/account/statedb.go:78-95 | reading an account trie, loaded to any extent or just opened, keeps it if and only if no branch on the path has a matching extension below it |
| `StateReopen.DamagingReadLosesAccount` | internal/state/account/statedb.go:78-95 | otherwise some account reads as absent afterwards |
| `StateReopen.SecondReadMisses` | internal/state/account/statedb.go:78-95 | of two accounts that alone share their first byte, in a trie with another first nibble, opened or not, the second one read is absent |
| `StateReopen.Commit` | internal/state/account/statedb.go:306-336 | an undamaged account trie, and the trie opened at the returned root, hold exactly the committed accounts; root and store become what a session's commit makes of them |
| `StateReopen.CommitMeans` | internal/state/account/statedb.go:306-325 | a commit puts the storage root into each account with storage, writes exactly the dirty ones, and changes nothing else |
| `StateReopen.ReopenedRead` | internal/state/account/statedb.go:46-95 | over a trie that holds the committed accounts, a store opened at the root reads a written account with the same nonce and balances, or panics if one is zero, and an unwritten one as absent |
| `StateReopen.CleanAfterChange` | internal/state/account/statedb.go:165-251 | changing an account keeps: an object that is not dirty is as the trie has it |
| `StateReopen.CleanAfterUndo` | internal/state/account/journal.go:21-61 | undoing the journal keeps that too |
| `StateReopen.StepClean` | internal/state/account/statedb.go:98-281 | every call keeps it, reverts included |
| `StateSessions.CallKeeps` | internal/state/account/statedb.go:73-281 | a call, a mere read included, whose load from the trie does no damage keeps store, trie and accounts in agreement |
| `StateSessions.FlushKeeps` | internal/state/account/statedb.go:339-351 | so does an intermediate root |
| `StateSessions.CommitKeeps` | internal/state/account/statedb.go:306-336 | so does a commit, and the stored root then holds the accounts |
| `StateSessions.RunKeeps` | internal/state/account/statedb.go:32-351 | so does any run of calls, intermediate roots and commits that do no damage and load no node under whose hash the cache holds one that a write has changed |
| `StateSessions.RewriteChangesNothing` | internal/state/mpt/trie.go:134-288 | writing the value that is there keeps the root hash and changes no node, wherever the nodes are |
| `StateSessions.PutsAgain` | internal/state/account/statedb.go:339-351 | writing accounts that are in the trie and in memory again, in any order, loads nothing, changes nothing and so is harmless |
| `StateSessions.CommitAfterFlush` | internal/state/account/statedb.go:306-351 | a commit right after an intermediate root, of the same accounts in any order, is harmless and leaves the cache and its changed nodes as they were |
| `StateSessions.FirstBlockIsHarmless` | internal/state/account/statedb.go:32-351 | until its first commit an event of a new StateDB is harmless if and only if no load damages the trie, and the same holds for the next call after that commit |
| `StateExample.CreditCommitCredit` | internal/state/account/statedb.go:306-351 | a new StateDB, a credit, an intermediate root, a commit, another credit and a commit are such a run |
| `StateSessions.SessionReopens` | internal/state/account/statedb.go:46-95 | after any such session, new or opened, that ends with a commit, a StateDB opened at the root reads every account as before the commit, panics on a zero balance, and can start the next session |
| `StateSessions.FirstSessionReopens` | internal/state/account/statedb.go:32-43 | the same from a new StateDB |
| `StateSessions.SurvivesReopening` | internal/state/account/statedb.go:46-95 | so reading an account survives reopening if and only if it was never written or has both balances |
| `StateSessions.DamagingCallLoses` | internal/state/account/statedb.go:78-95 | a call with a damaging read makes an account of the trie read as absent |
| `StateSessions.OpenedThenMissed` | internal/state/account/statedb.go:46-95 | open, read one account: another one with the same first byte is absent from the trie |
| `StateSessions.SameAccountsSameRoot` | internal/state/mpt/trie.go:40-47 | account tries with the same accounts have the same root hash, wherever their nodes are |
| `StateSessions.RootIsOfAccounts` | internal/state/account/statedb.go:306-351 | the root hash after such a session is decided by the accounts in the trie, not by how they got there |
| `Amm.SwapKeepsProduct` | pkg/token/amm.go:28-59 | a swap pays less than the reserve it pays from and never lowers the product of the reserves |
| `Amm.QuoteMeans` | pkg/token/amm.go:28-47 | with f for the input times the multiplier over a million, rounded down, a swap pays o if and only if o is positive, the input is, and o(x+f) <= yf < (o+1)(x+f) |
| `Amm.OutputPays` | pkg/token/amm.go:28-47 | so there is at most one such o, and none if and only if the swap is refused |
| `Amm.PaidMeans` | pkg/token/amm.go:28-47 | what counts as paid by a swap is that o, or zero if there is none |
| `Amm.ApplyMeans` | pkg/token/amm.go:57-59 | a swap that pays o adds the whole input to one reserve and takes o from the other |
| `Amm.PoolSafe` | pkg/token/amm.go:21-105 | over any run of swaps in both directions the product never falls, positive reserves stay positive, and the traders never gain one token without losing the other |
| `Amm.NoFreeLunch` | pkg/token/amm.go:21-105 | no fall of one reserve without a rise of the other keeps the product up |
| `Amm.PaidMono` | pkg/token/amm.go:28-47 | a larger input never pays less |
| `Amm.SplitInTwo` | pkg/token/amm.go:28-59 | two swaps in a row never pay more than one of their sum |
| `Amm.SplittingNeverPays` | pkg/token/amm.go:28-59 | nor does any number of them |
| `Amm.PartsPaid` | pkg/token/amm.go:21-62 | what the parts are paid together is what the pool has lost when they have run one after another |
| `Ledger.TransferTotal` | pkg/token/apt.go:39-53 | a transfer, also to oneself, keeps both totals |
| `Ledger.SwapTotal` | pkg/token/amm.go:21-105 | a swap keeps both totals of accounts and reserves, refused or not |
| `Ledger.RefusedSwap` | pkg/token/amm.go:21-62 | a refused swap changes no balance or nonce |
| `Ledger.SwapMeans` | pkg/token/amm.go:21-105 | a swap goes through if and only if the pool pays for the input and the seller has it; then the seller loses the input and gains o, the reserves the other way round, and nothing else changes |
| `Ledger.CreditTotal` | pkg/token/apt.go:17-23 | minting raises one total by the amount and leaves the other |
| `Ledger.DebitTotal` | pkg/token/apt.go:26-36 | burning lowers one total by the amount, which it never exceeds |
| `Executor.ComputeIntrinsicGas` | pkg/token/gas.go:28-55 | the loop computes base, data and per-kind gas as a uint64 sum |
| `Executor.IntrinsicGasMeans` | pkg/token/gas.go:28-55 | 21000, 4 for each zero byte and 16 for any other, 5000, 10000, 20000 or 50000 for four kinds, modulo 2^64 |
| `Executor.GasAccounts` | internal/state/executor/state_processor.go:64-152 | what the gas pool has given out is the gas of the receipts, and each carries the sum so far |
| `Executor.ExecuteTotal` | internal/state/executor/state_processor.go:156-223 | a handler changes the totals only by what it burns or stakes, and only if it succeeds |
| `Executor.RunTotal` | internal/state/executor/state_processor.go:64-152 | a transaction takes its fee and what it destroys out of the supply and nothing else |
| `Executor.TxsTotal` | internal/state/executor/state_processor.go:38-49 | the same over the transactions of a block up to the first refusal |
| `Executor.BlockTotal` | internal/state/executor/state_processor.go:28-61 | a successful block changes the supply of either token by the reward minus fees, burns and stakes |
| `Executor.ChainTotal` | internal/state/executor/state_processor.go:28-61 | so does any chain of them |
| `Executor.FailedTx` | internal/state/executor/state_processor.go:92-152 | a transaction that fails changes no balance but its sender's fee and no nonce but its sender's |
| `Executor.NonceRises` | internal/state/executor/state_processor.go:233-240 | an accepted transaction raises its sender's nonce past its own if and only if it is not 2^64-1 |
| `Executor.TxsOnce` | internal/state/executor/state_processor.go:38-49 | executing the transactions of a block repeats no sender and nonce, and leaves what ran below its sender's nonce, if and only if none of them carries the last nonce |
| `Executor.BlockOnce` | internal/state/executor/state_processor.go:28-61 | the same for a block, accepted or failing half way |
| `Executor.LastNonceInTime` | internal/state/executor/state_processor.go:233-240 | nonce 2^64-1 passes the nonce checks if and only if the sender's nonce is 2^64-17 |
| `Executor.LastNonceRuns` | internal/state/executor/state_processor.go:64-152 | there a transfer with it is accepted and succeeds, and the nonce is zero afterwards |
| `Executor.LastNonceReopens` | internal/state/executor/state_processor.go:233-240 | after a transaction with nonce 2^64-1 its sender's transactions of nonce 0 to 16 pass the nonce checks again |
| `TxOutcome.PrecheckMeans` | internal/state/executor/state_processor.go:72-90 | each error before execution is returned if and only if its check fails and all before it pass: chain, nonce too low, too high, balances, gas limit, block gas |
| `TxOutcome.HandlerMeans` | internal/state/executor/state_processor.go:156-223 | what a handler alone does to every account and reserve, and when it fails, for every kind |
| `TxOutcome.RunMeans` | internal/state/executor/state_processor.go:92-134 | what an admitted transaction does to every account, field by field, and to the reserves, with fee and nonce; when it succeeds; what gas it uses |
| `TxOutcome.ApplyMeans` | internal/state/executor/state_processor.go:64-152 | a transaction is refused and changes nothing, or does that and adds a receipt with its gas, success and the gas so far |
| `TxOutcome.TransferPays` | internal/state/executor/state_processor.go:156-175 | an accepted transfer succeeds if and only if it has a recipient and an amount that the sender has left after the charge, or sends to itself; then the recipient has exactly the amount more and the sender as much and the fee less |
| `TxOutcome.BurnTakes` | internal/state/executor/state_processor.go:201-223 | an accepted burn or stake takes the amount from its sender, APT if a burn says so and NPT otherwise, if and only if it is there |
| `TxOutcome.SwapTrades` | internal/state/executor/state_processor.go:178-199 | an accepted swap sells APT for direction 1 and NPT for 2, for what the pool pays, if and only if the sender has the amount left and the pool pays |
| `TxOutcome.TxsMean` | internal/state/executor/state_processor.go:38-49 | the transactions of a block run in order, each from the book the one before left, up to the first refused one |
| `TxOutcome.RewardMeans` | pkg/token/economics.go:103-116 | the reward is the base over 2^k, rounded down, k the height over 8,400,000 but at most ten |
| `TxOutcome.BlockMeans` | internal/state/executor/state_processor.go:28-61 | a block does that and then pays both rewards to its proposer, or stops with the error of the first refused transaction or zero reward |
| `TxOutcome.ProposerPaid` | internal/state/executor/state_processor.go:51-58 | after a successful block the proposer has exactly both rewards more than after the transactions, and nothing else differs |
| `Processor.MintToken` | pkg/token/apt.go:17-23 | refuses zero, otherwise credits |
| `Processor.BurnToken` | pkg/token/npt.go:18-28 | refuses zero and short balances, otherwise debits |
| `Processor.TransferToken` | pkg/token/apt.go:39-53 | moves the amount; a transfer to oneself is not checked |
| `Processor.LoadPool` | pkg/token/amm.go:157-175 | reads the reserves from storage, an unset slot as zero, and creates the pool account |
| `Processor.SavePool` | pkg/token/amm.go:177-181 | stores both reserves and changes no account |
| `Processor.QuoteSwap` | pkg/token/amm.go:125-152 | computes fee and output with both floors: the number o of `Amm.QuoteMeans`, or none |
| `Processor.SwapInPool` | pkg/token/amm.go:21-105 | a swap in either direction does what `Ledger.SwapMeans` says, to the seller, the reserves and nobody else |
| `Processor.ExecuteTx` | internal/state/executor/state_processor.go:103-223 | the handler of each kind does to every account and reserve what `TxOutcome.HandlerMeans` says |
| `Processor.ValidateTx` | internal/state/executor/state_processor.go:227-265 | returns the first check that fails and changes nothing a reader sees |
| `Processor.GasPool.SubGas` | internal/state/executor/gas.go:14-20 | takes the gas, or refuses and takes none |
| `Processor.GasPool.AddGas` | internal/state/executor/gas.go:23-25 | gives gas back |
| `Processor.ChargeUpfront` | internal/state/executor/state_processor.go:92-97 | takes the full cost and sets the nonce |
| `Processor.RunTx` | internal/state/executor/state_processor.go:92-134 | charge, execute and refund do what the model function says |
| `Processor.RunAndRefund` | internal/state/executor/state_processor.go:92-152 | run, refund to the gas pool and flush do what the model function says |
| `Processor.ApplyTransaction` | internal/state/executor/state_processor.go:64-152 | refused with the error of the first check that fails and without effect, or run with the outcome of `TxOutcome.RunMeans`: balances, nonce, reserves, gas pool and receipt |
| `Processor.ProcessOne` | internal/state/executor/state_processor.go:38-45 | snapshot, apply and revert on refusal |
| `Processor.ProcessTxs` | internal/state/executor/state_processor.go:38-49 | the loop stops at the first refusal and keeps what ran before |
| `Processor.CalculateBlockReward` | pkg/token/economics.go:103-116 | the loop halves both rewards as often as `TxOutcome.RewardMeans` says |
| `Processor.ProcessBlock` | internal/state/executor/state_processor.go:28-61 | the whole of Process: the transactions in order, the proposer's rewards, receipts, gas and error, as `TxOutcome.BlockMeans` says |
| `Blockchain.Contiguous` | internal/blockchain/validator.go:19-37 | on a linked chain heights are contiguous and timestamps rise by at least one a block |
| `Blockchain.HeightsDiffer` | internal/blockchain/validator.go:19-37 | no height comes back, although heights wrap at 2^64 |
| `Blockchain.ValidateMeans` | internal/blockchain/validator.go:19-59 | each error is returned if and only if its check fails and all before it pass, and none if and only if the block may follow: height, parent, time, gas limit within one or a 1024th, gas used |
| `Blockchain.ProcessTotal` | internal/state/executor/state_processor.go:28-61 | supply over one block, accepted or failing at any point |
| `Blockchain.InsertedLinked` | internal/blockchain/blockchain.go:110-147 | an insertion keeps the chain linked: height, parent hash, time, gas-limit drift and gas used |
| `Blockchain.InsertMeans` | internal/blockchain/blockchain.go:110-147 | an insertion is refused without effect, or runs as `TxOutcome.BlockMeans` says, and if that succeeds appends the block with root and gas filled in |
| `Blockchain.InsertedOnce` | internal/blockchain/blockchain.go:110-147 | an insertion, also a failing one, keeps replay protection if and only if nothing that ran carries the last nonce |
| `Blockchain.InsertedTotal` | internal/blockchain/blockchain.go:110-147 | an insertion changes the supply by what it mints and destroys |
| `Blockchain.AlwaysLinked` | internal/blockchain/blockchain.go:110-147 | the chain is linked after any history of insertions |
| `Blockchain.AlwaysOnce` | internal/blockchain/blockchain.go:110-147 | after any history, failed blocks included, no sender and nonce has run twice and none can run again, if and only if no transaction with the last nonce has run |
| `Blockchain.AlwaysConserved` | internal/blockchain/blockchain.go:110-147 | supply after any history is what there was plus all minted minus all destroyed |
| `Blockchain.AllocateTotal` | internal/blockchain/blockchain.go:64-71 | genesis allocations succeed if and only if none is zero, and then add up to the supply |
| `Blockchain.AllocateMeans` | internal/blockchain/blockchain.go:64-71 | every address gets what is allocated to it, and nothing else changes |
| `Blockchain.GenesisMeans` | internal/blockchain/blockchain.go:59-107 | a genesis that succeeds leaves those balances, the initial reserves unless both are zero, and one block with its fields |
| `Blockchain.GenesisSupply` | internal/blockchain/blockchain.go:59-79 | the supply of a genesis on an empty state is its allocations plus its pool |
| `Blockchain.CommitKeepsMoney` | internal/state/account/statedb.go:306-336 | a commit changes storage roots but no nonce, balance or reserve |
| `Blockchain.CommitState` | internal/state/account/statedb.go:306-325 | the loop over the objects, in any order, does that commit |
| `Blockchain.IndexMore` | internal/blockchain/blockchain.go:139-142 | adding the new head keeps every block of the chain findable by hash and by height |
| `Blockchain.Blockchain.InitGenesis` | internal/blockchain/blockchain.go:59-107 | allocates, funds the pool, commits and starts the chain; a failing one leaves the earlier allocations and the old chain |
| `Blockchain.Blockchain.InsertBlock` | internal/blockchain/blockchain.go:110-147 | one insertion as `Blockchain.InsertMeans` says, with chain, indexes and head in agreement |
| `Blockchain.Blockchain.GetBlockByHeight` | internal/blockchain/blockchain.go:164-168 | finds every block of the chain |
| `Blockchain.Blockchain.GetBlock` | internal/blockchain/blockchain.go:157-161 | finds a block of that hash if the chain has one |
| `TaskDag.OrderedIsAcyclic` | pkg/task/dag.go:138-178 | a complete topological order rules out cycles |
| `TaskDag.StuckHasCycle` | pkg/task/dag.go:138-178 | a set in which every node has a parent in the set contains a cycle |
| `TaskDag.CountDecides` | pkg/task/dag.go:172-175 | the visited count reaches the number of subtasks if and only if there is no cycle |
| `TaskDag.CountInDegrees` | pkg/task/dag.go:139-148 | counts every edge, repeated ones each time |
| `TaskDag.Kahn` | pkg/task/dag.go:150-170 | yields parents before children and leaves only nodes stuck on one another |
| `TaskDag.VerifyAcyclic` | pkg/task/dag.go:138-178 | accepts a closed graph if and only if it has no cycle |
| `TaskDag.GetExecutionOrder` | pkg/task/dag.go:182-219 | a permutation of the subtasks when acyclic, parents first, and each next one is ready after those before it |
| `TaskDag.GetReadySubtasks` | pkg/task/dag.go:222-248 | lists exactly the subtasks not completed whose parents all are, in order |
| `TaskDag.SomethingIsReady` | pkg/task/dag.go:222-248 | while work remains in an acyclic graph some subtask is ready |
| `TaskDag.SubTaskIdInjective` | pkg/task/dag.go:251-259 | one task's subtask ids differ for different 32-bit indexes |
| `TaskDag.SubTaskIdMeans` | pkg/task/dag.go:251-259 | a subtask id is the parent's first 28 bytes and the index as four bytes, the high one first |
| `TaskDag.AnalysisKeepsOrder` | pkg/task/dag.go:35-117 | analysing a task whose ids are new keeps any builder's graph closed, listed parents first and free of cycles, and appends the first ids of the task, as many as its tier has subtasks, none for an unknown tier |
| `TaskDag.PipelineEdges` | pkg/task/dag.go:97-114 | a pipeline adds, for each stage i from 1, an edge to it from the builder's subtask i-1, and no other |
| `TaskDag.StagesWait` | pkg/task/dag.go:110-114 | the stages of a new task wait for one another if and only if the builder was empty |
| `TaskDag.DAGBuilder.BuildParallel` | pkg/task/dag.go:65-87 | appends the subtasks and leaves the dependencies as they were, on any builder |
| `TaskDag.DAGBuilder.BuildPipeline` | pkg/task/dag.go:91-117 | the loop over the stages computes the model function, on any builder |
| `TaskDag.DAGBuilder.AnalyzeTask` | pkg/task/dag.go:35-48 | splits by tier and input size as the model function says; an unknown tier is an error and leaves the builder as it was |
| `TaskDag.DAGBuilder.Build` | pkg/task/dag.go:120-134 | succeeds if and only if there are subtasks and no cycle |
| `RingReduce.SliceableMeans` | pkg/compute/distributed/allreduce.go:96-124 | no slice of the protocol is inverted if and only if the last chunk starts within the tensor |
| `RingReduce.FiveOverFour` | pkg/compute/distributed/allreduce.go:96-124 | five elements over four nodes are not sliceable |
| `RingReduce.EvenIsSliceable` | pkg/compute/distributed/allreduce.go:96-100 | an even division is enough |
| `RingReduce.RoundChunks` | pkg/compute/distributed/allreduce.go:107-117 | a node receives in each round the chunk its left neighbour sends |
| `RingReduce.HeldStep` | pkg/compute/distributed/allreduce.go:22-24 | one round adds to the received chunk what the left neighbour held |
| `RingReduce.FullCircle` | pkg/compute/distributed/allreduce.go:22-24 | the sum over all nodes does not depend on where the circle starts |
| `RingReduce.Exchange` | pkg/compute/distributed/allreduce.go:107-138 | every node sends one chunk right and receives one from the left |
| `RingReduce.AddReceived` | pkg/compute/distributed/allreduce.go:140-143 | the received chunk is added in place and nothing else changes |
| `RingReduce.Round` | pkg/compute/distributed/allreduce.go:107-144 | after round r chunk (i-r-1) mod N of node i is the sum over r+2 nodes |
| `RingReduce.ReduceScatter` | pkg/compute/distributed/allreduce.go:92-144 | the rounds together, on arrays updated in place |
| `RingReduce.OwnedChunk` | pkg/compute/distributed/allreduce.go:22-26 | after N-1 rounds chunk (i+1) mod N of node i is the sum over all nodes |
| `RingReduce.ReturnedChunk` | pkg/compute/distributed/allreduce.go:146-152 | the chunk the code returns is the node's own input, reduced if and only if the others add up to zero |
| `RingReduce.TwoNodesDiffer` | pkg/compute/distributed/allreduce.go:146-152 | two nodes with the elements 1 and 2: node 0 returns 1 where the sum is 3 |
| `Vm.StepGas` | internal/vm/interpreter.go:81-91 | below a limit of 2^64-5000 an instruction that continues stays within the limit, and costs at least 2 from within it |
| `Vm.StepsBounded` | internal/vm/interpreter.go:80-203 | below that limit a run takes at most half the gas left, plus one instruction, from any start |
| `Vm.RunWithinLimit` | internal/vm/interpreter.go:80-203 | below that limit gas used never exceeds the limit at the end of a run started within it |
| `Vm.RunHasPrice` | internal/vm/interpreter.go:80-203 | under every limit, a run that does not end out of gas has a price: under another limit it gives the same outcome, stack, storage and gas if and only if that covers the price |
| `Vm.PriceIsGasUsed` | internal/vm/interpreter.go:80-91 | below a limit of 2^64-100000 the price is the gas used at the end |
| `Vm.RunEnds` | internal/vm/interpreter.go:80-203 | below 2^64-5000 following a run for that many turns gives its end |
| `Vm.EveryRunEnds` | internal/vm/interpreter.go:80-91 | every code run from every start ends if and only if the limit is below 2^64-5000 |
| `Vm.SpinNeverEnds` | internal/vm/interpreter.go:85-89 | a code of 1598 bytes that runs for ever from a fresh interpreter under any larger limit |
| `Vm.CounterNeverFalls` | internal/vm/interpreter.go:85-89 | no instruction lowers the gas counter if and only if the limit is below 2^64-100000 |
| `Vm.PriceList` | internal/vm/opcodes.go:70-133 | which opcodes have which price |
| `Vm.ExecLawful` | internal/vm/interpreter.go:93-200 | each opcode by the stack it leaves: sum, distance or product as numbers in their shortest bytes, equality, zero test, jumps taken if the condition's first byte is not zero, storage under 32-byte keys, what is returned |
| `Vm.StepLawful` | internal/vm/interpreter.go:81-200 | one turn of the loop: out of gas, or the price charged and the opcode executed so |
| `Vm.LoadAfterStore` | internal/vm/interpreter.go:170-183 | SLOAD gives what SSTORE wrote under the same 32 bytes of key, and under others what was there before |
| `Vm.ComputingProgram` | internal/vm/interpreter.go:80-203 | pushing two bytes, adding, subtracting or multiplying, and returning gives the number, for 9 units of gas or 11 and not for less |
| `Vm.BranchingProgram` | internal/vm/interpreter.go:80-203 | a program that branches on a byte returns one of two bytes, for 19 units of gas |
| `Vm.StoringProgram` | internal/vm/interpreter.go:80-203 | a program that stores under one key and loads another returns the stored value or the old one, for 5209 units of gas |
| `Vm.Interpreter.Dispatch` | internal/vm/interpreter.go:93-200 | one opcode does what `Vm.ExecLawful` says to stack, storage, output and position |
| `Vm.Interpreter.RunAll` | internal/vm/interpreter.go:80-203 | below 2^64-5000, where every run ends, the fetch loop ends as the model function says |
| `TaskHeap.RootIsBest` | pkg/task/taskpool.go:55-57 | no entry of a heap beats the first |
| `TaskHeap.RateMeans` | pkg/task/taskpool.go:97-104 | the rate is the fee over 1, 10, 100, 1000 or 10000 by tier, rounded down |
| `TaskHeap.Up` | pkg/task/taskpool.go:55-65 | sifting up restores heap order and keeps the entries |
| `TaskHeap.Down` | pkg/task/taskpool.go:55-73 | sifting down restores heap order and keeps the entries |
| `TaskHeap.Init` | pkg/task/taskpool.go:243-249 | any list becomes a heap of the same entries |
| `TaskHeap.Push` | pkg/task/taskpool.go:110-113 | adds one entry |
| `TaskHeap.Pop` | pkg/task/taskpool.go:67-73 | takes out an entry that none left beats |
| `TaskPool.SameSize` | pkg/task/taskpool.go:110-113 | the heap is as long as the map |
| `TaskPool.ExpiryIsExact` | pkg/task/taskpool.go:176-196 | where listed and pooled tasks of one id agree on the deadline, exactly the late tasks expire |
| `TaskPool.PickedTop` | pkg/task/taskpool.go:138-172 | popping until enough or empty picks the best, best first, with none left out beating one picked |
| `TaskPool.Pool.AddTask` | pkg/task/taskpool.go:89-134 | refuses duplicates and, in a half-full pool, low rates; otherwise adds the task and, when over the limit, evicts tasks that no kept one beats; map, heap and list still agree |
| `TaskPool.Pool.TrimToSize` | pkg/task/taskpool.go:253-258 | shrinks to the limit by removing tasks that no kept one beats; map, heap and list still agree |
| `TaskPool.PopUntil` | pkg/task/taskpool.go:253-258 | the loop: pops until within the limit |
| `TaskPool.TrimIsFair` | pkg/task/taskpool.go:251-258 | where something is evicted and something kept, the evicted are the lowest paid if and only if all rates are equal |
| `TaskPool.BetterPaidGoes` | pkg/task/taskpool.go:251-258 | of two tasks with different rates and room for one, the better paid goes |
| `TaskPool.Pool.GetHighestPriorityTasks` | pkg/task/taskpool.go:138-152 | the min(n, size) best tasks in non-increasing rate order, none left out beating one returned |
| `TaskPool.Pool.GetTasksForMiner` | pkg/task/taskpool.go:156-172 | the same among the tasks of a tier the miner serves |
| `TaskPool.Pool.ExpireDeadlines` | pkg/task/taskpool.go:176-196 | drops exactly the ids listed as late and leaves no task past its deadline |
| `TaskPool.Pool.RemoveTask` | pkg/task/taskpool.go:199-205 | removes one task; map, heap and list still agree |
| `TaskPool.Pool.RebuildHeap` | pkg/task/taskpool.go:243-249 | the heap holds exactly the map again, in whatever order it is read |
| `ResultVerifier.RunConsistent` | pkg/task/verifier.go:87-186 | over any run every pending result is indexed at its window end, and the index is right |
| `ResultVerifier.NothingDuePending` | pkg/task/verifier.go:163-186 | after any run a finalisation at h leaves no pending result whose window ended by h |
| `ResultVerifier.FinalisedMeans` | pkg/task/verifier.go:163-186 | a finalisation returns exactly the pending results whose window has ended |
| `ResultVerifier.FinaliseMeans` | pkg/task/verifier.go:163-186 | it accepts exactly those, changes nothing else of any result, and drops exactly the heights up to its own from the index |
| `ResultVerifier.SubmitMeans` | pkg/task/verifier.go:87-109 | a first result is pending until height plus period modulo 2^64 and listed there last, with hash, miner and height; a second changes nothing |
| `ResultVerifier.OpenMeans` | pkg/task/verifier.go:114-135 | a challenge up to the end of the window marks a result that is not challenged and lists the challenger last; any other changes nothing |
| `ResultVerifier.ResolveMeans` | pkg/task/verifier.go:139-159 | a challenged result resolved as valid is accepted and as invalid rejected, and nothing else of any result changes |
| `ResultVerifier.VerdictDecides` | pkg/task/verifier.go:87-186 | after any run a settled result is rejected if and only if the last resolution that met it challenged said invalid; one that none met was accepted and returned by a finalisation |
| `ResultVerifier.ReturnedOnce` | pkg/task/verifier.go:163-186 | over any run no result is returned twice, nor one that was settled or challenged |
| `ResultVerifier.ClosedIsFinal` | pkg/task/verifier.go:114-159 | once its window has closed a settled result never changes while heights do not go back |
| `ResultVerifier.OpenIsNot` | pkg/task/verifier.go:127-132 | until then a challenge and its resolution can turn it over |
| `ResultVerifier.FinalIffClosed` | pkg/task/verifier.go:114-159 | a verdict is safe from every later run if and only if its window has closed |
| `ResultVerifier.ReturnedThenRejected` | pkg/task/verifier.go:114-186 | a result that a finalisation has accepted and returned, and the later run that rejects it |
| `ResultVerifier.Verifier.SubmitResult` | pkg/task/verifier.go:87-109 | records a new result as `ResultVerifier.SubmitMeans` says; refuses a second one |
| `ResultVerifier.Verifier.Challenge` | pkg/task/verifier.go:114-135 | opens a challenge as `ResultVerifier.OpenMeans` says, or returns the first refusal that applies |
| `ResultVerifier.Verifier.ResolveChallenge` | pkg/task/verifier.go:139-159 | accepts or rejects a challenged result as `ResultVerifier.ResolveMeans` says, refuses any other |
| `ResultVerifier.Verifier.FinalizeResults` | pkg/task/verifier.go:163-186 | accepts and returns each due pending result once and drops their heights, in whatever order the map is read |
| `Validators.PowerUnion` | internal/consensus/types/validator.go:76-84 | powers of two sets add up to those of their union and intersection |
| `Validators.PowerBounded` | internal/consensus/types/validator.go:76-84 | no set of addresses has more than the total, whatever is repeated in the list |
| `Validators.QuorumIsTwoThirds` | internal/consensus/types/validator.go:56-58 | HasQuorum is a majority of more than two thirds for every count if and only if the total is below 2^63 |
| `Validators.TallyIsExact` | internal/consensus/engine/tendermint.go:412-442 | below 2^63 the decision of handleVote is that majority of the voters, however often each voted |
| `Validators.QuorumsOverlap` | internal/consensus/types/validator.go:56-58 | two quorums share more than a third of the power |
| `Validators.QuorumsShareHonest` | internal/consensus/types/validator.go:56-58 | two quorums share a known validator outside any faulty set of at most a third |
| `Validators.TotalOfPermutation` | internal/consensus/types/validator.go:34-48 | the total does not depend on the order of the list |
| `Validators.GetMeans` | internal/consensus/types/validator.go:34-53 | an address has the validator that the list names last for it, and none if and only if the list has none |
| `Validators.ValidatorSet.constructor` | internal/consensus/types/validator.go:34-48 | list in descending power, total modulo 2^64, last listed validator for each address |
| `Validators.ValidatorSet.SumPower` | internal/consensus/types/validator.go:76-84 | the power of a list modulo 2^64, an address counted as often as listed, unknown ones for nothing |
| `Validators.ListedOnce` | internal/consensus/types/validator.go:76-84 | a list without repetitions has the power of its set |
| `Validators.ValidatorSet.Proposer` | internal/consensus/types/validator.go:62-68 | the validator at height plus round modulo the size |
| `Validators.ProposersDiffer` | internal/consensus/types/validator.go:62-68 | two of as many consecutive rounds as there are validators have the same proposer if and only if height plus round wraps between them and their distance is what 2^64 leaves modulo the size |
| `Validators.EveryoneProposes` | internal/consensus/types/validator.go:62-68 | everybody proposes in them, if the sum does not wrap or the size divides 2^64 |
| `Validators.RotationBreaks` | internal/consensus/types/validator.go:62-68 | otherwise somebody proposes twice |
| `Validators.Tally.Addresses` | internal/consensus/engine/tendermint.go:467-481 | the voters, each once, in any order |
| `Validators.Tally.HandleVote` | internal/consensus/engine/tendermint.go:412-442 | panics for an unknown address, ignores an inactive validator, otherwise replaces the voter's vote and decides the quorum over the voters |

## Left out

- TrieNode.Insert: nodes are values; nodes shared between slices and cached nodes changed in place are not modelled
- TrieNode.Delete: nodes are values, as for insert
- TrieRoots.RootHashIsContents: needs the blobs of both trees not to collide
- TrieStore.Trie.Commit: keys and values longer than their length fields, and stored extensions with an empty prefix, are excluded
- NodeCodec.LeafRoundTrip: a path byte above 15 is refused when decoding, where the code would accept it
- TrieStore.Database.GetNode: the cached node is the decoded one; that get changes it is in the tree instead, where the loaded node takes the reference's place, and that insert and delete change it is not modelled
- TrieStore.Trie.InsertNode: a node loaded by its hash is as it was stored; the code finds in its cache what earlier writes have made of it
- TrieStore.Trie.DeleteNode: the same as for InsertNode
- StateSessions.RunKeeps: a session that loads a node by a hash under which the cache holds one whose contents a write has changed since, even if another write has changed them back; or that changes a cached node that is in memory at two places
- TrieStore.Trie.constructor: the root is stored; a root that is not stored reads as an empty trie in the code
- StateStore.Store.GetStateObject: the trie is the map it decodes to; reads of the trie itself, their damage, and the panic on a zero balance are in AccountCodec, StateReopen and StateSessions
- StateReopen.Commit: balances of a gigabyte or more
- SharedAmounts.RevertGives: accounts made since the snapshot, which a revert deletes; loading from the trie
- StateRollback.RollbackRestores: no commit or intermediate root between snapshot and revert
- Blockchain.Blockchain.InsertBlock: the state root is a parameter function of the accounts, justified by StateSessions.RootIsOfAccounts but not connected to the trie objects; a commit that fails for lack of storage is not modelled
- Blockchain.Blockchain.InitGenesis: the state root is a parameter function, as for InsertBlock
- TaskDag.AnalysisKeepsOrder: a task whose ids start like those of an earlier one on the same builder gets the same ids again
- RingReduce.Exchange: the exchange that the comments describe, in place of the single-node stub; elements are integers
- Vm.Interpreter.RunAll: jump targets from 2^63 up and DUP on an empty stack trap; nil and empty byte slices are alike
- TaskPool.Pool.ExpireDeadlines: entries of tasks removed earlier are returned again, as the code does; no claim that the list returned is exact
- ResultVerifier.FinalIffClosed: inside the window a verdict can be reopened, so no finality is claimed there
- Validators.Tally.HandleVote: votes are not separated by height, round or block, as in the code; agreement between nodes is not modelled
- RootHash before commit, Prove, the trie iterator and the compact encoding
- Contract storage across reopening, DeleteAccount and Finalise
- AddLiquidity, base-fee calculation and the burn schedule
- Fork choice and block rollback; a rejected block keeps the effects of its earlier transactions, as in the code
- All-gather, sharding, secret sharing and change sets
- Transaction pool, dispatcher, pricing and decay of the minimum fee rate
- Signatures, networking, RPC, LevelDB, locks, clocks and floating point; voting power is any number per validator and the fee multiplier any number up to 1,000,000
- Negative token amounts
