# A model of the Hivemind node in Dafny

Hivemind is a fork of Bitcoin Core 0.10.  This project models the parts of the node on which its
consistency rests, and proves what they promise for all inputs and all runs.  The source paths below
are relative to the root of the repository.  `dafny verify dfyconfig.toml` checks the whole project.

**Unspent outputs and reorganisation.**  `Utxo` and `BlockUndo` are the plain object: a map from
transaction id to the outputs still unspent, with "all spent" the same as "absent".  Applying a block
and undoing it are functions on that map, and `BlockUndo.DisconnectInvertsConnect` says exactly when one
inverts the other.  What has been to disk comes back in its stored form, and `StoredSets` shows that no
block is judged differently for it.  `CoinsCache` gives a stack of write-back caches with DIRTY and FRESH
flags its meaning as such a map; `CoinsViews` is the stack mutated in place; `BlockConnect` holds the loops
of the code, proved against the functions.  `Ledger` reads the map as a ledger: which outputs there are after a
transaction and a block, exactly which blocks are accepted, and what a clean undo has checked.  `ChainState` puts them under a chain: over every run
(`ChainState.Node.Run`), also past failures, it says when the coin set is the replay of the active chain, and
exactly when the database has the coins of its own best block.  The replay has exactly the outputs that
transactions of the chain created and no block spent from then on (`ChainState.ReplayLedger`).

**Check queue.**  `CheckQueue` is the master and worker protocol as a state machine, one step for each
critical section, with a program counter and a batch for each thread.  `QueueLock` splits the sections into
single writes under the mutex, shows that nothing changes for the callers, and what a reader without the mutex
sees.

**Partial Merkle trees.**  `PartialMerkle`: soundness for arbitrary input, what is refused, completeness with
packing, and the root as the block computes it.

**Address manager.**  `AddrTables` states what the six redundant structures owe each other, `AddrMan` has
the operations that mutate them, and `AddrCheck` has the node's own consistency check as written, which
returns zero exactly for tables that agree.

**Numbers.**  `LimbMath` and `ArithUint`: multi-limb arithmetic in place, at every width, up to long
division.  `CompactTarget`: the compact form of a target.  `Base58`: base conversion in tight buffers.

**Block tree.**  `SkipList` bounds the number of steps of a walk along skip pointers.  `BlockTree`,
`ActiveChain`, `Locator`: ancestors, chain vector, forks, locators.  `ArrivalOrder`: block bodies arriving in
any order.  `Candidates`, `BlockArrival` and `ChainSelect`: headers and blocks arrive, and the best chain is
activated on top of a `ChainState.Node`, whose coin set decides what is acceptable.
`Processing` puts all of this together: over every run from the empty state
(`Processing.Processor.Run`), headers and bodies arrive in any order, and after an activation the tip is the best
of all blocks that have been received down to the genesis block and are acceptable, by work, then by arrival,
then by address, with its coin set.

**Storage.**  `Compressor` and `CoinsCodec`: variable-length integers, amounts, scripts, outputs, coin
records and undo records, to the byte.

## Where the code does not do what one would expect

- Undo data marks "the last output was spent" by a nonzero height.  The genesis outputs are put into the set
  at height zero (src/main.cpp:3180-3185), so a block that uses up such a record cannot be undone cleanly, and
  a reorganisation below it fails.  `BlockUndo.DisconnectInvertsConnect` has the exact condition and
  `BlockUndo.HeightZeroWitness` an example.
- Flushing a child cache that does not know its best block makes the parent forget its own:
  `CoinsCache.FlushBestBlock` says exactly when.
- If the disk is full after a block's coins were flushed into the tip cache, the coin view is one block
  ahead of the active chain after a connect (`ChainState.Node.ConnectTip`) and one block behind it after a
  disconnect (`ChainState.Node.DisconnectTip`).  A later flush, as at shutdown, is still right; a later connect
  or disconnect ends the process at its entry assertion.
- If the database refuses a write, the cache has already been emptied, and the view shows the old coins under
  the new best block (`CoinsViews.Views.LoseCache`).  The database is still right then.  But the flush at
  shutdown (src/init.cpp:173-174), if it works, writes the new best block over the old coins, and a restart
  finds an inconsistent database: `ChainState.LostFlushWitness` is a run, and `ChainState.Node.Run` has the exact
  condition.  If the refused write was a periodic one, the next block is even connected to the wrong coins
  (`ChainState.Node.ConnectTip`).
- The constructor of the check queue's controller reads the counters without the mutex.  A worker that was
  notified in one round and gets the lock only after it makes its first assertion fail
  (`QueueLock.LateWorkerWitness`); `QueueLock.ControllerAssertions` says exactly when.
- A number multiplied by itself in place becomes zero, because the product is accumulated in the number that
  is also the factor (`ArithUint.MulAssign`).
- Dividing by zero clears the number before the error is raised (`ArithUint.DivAssign`).
- The step of a locator doubles without a check, and overflows 32 bits for a start at height 2^30 + 10 or
  more (`Locator.StepReaches`).
- Negative transaction versions do not survive storage: of version -1, 127 comes back
  (`CoinsCodec.RecordRoundTrip`, `CoinsCodec.UndoRoundTrip`).  `DisconnectBlock` compensates for that when it
  compares outputs, but what it restores has the stored version (`BlockUndo.NegativeVersionWitness`), and so
  has what was flushed.  All results on undo and on runs are therefore stated up to such versions, and exactly
  if there are none.  No verdict on a block depends on them (`StoredSets.ConnectLike`).
- A block rejected for a possible corruption is not marked, so `ActivateBestChain` tries it again at once, for
  as long as that happens (`ChainSelect.Selection.ActivateBestChainStep`).
- Check_ takes a last success at time zero for "never succeeded", so `Good` at time zero breaks it
  (`AddrMan.Manager.Good` has the exact condition).  It does not look at bucket sizes, the id range or
  surplus addresses (`AddrCheck.ConsistentIsAgreement`).
- `SelectTried` finds the least recently successful of the entries it inspects, and returns the place where it was
  found, but may have swapped another entry there, which is the one that is evicted
  (`AddrMan.Manager.SelectTried`, `AddrMan.Manager.Evict`).
- The table of variable-length integers in src/serialize.h:273-278 is wrong for 16511 and 65535, and contradicts the
  formula and the sizes above it, which the code follows (`Compressor.VarIntForms`).

## Conventions

Pointers to block index entries are numbers in the order of creation, and -1 is NULL.  Hashes are numbers
and the pair hash is a parameter.  Random choices, clocks and the outcome of operations on disks are
parameters that range over everything.  Script checks, signature operations and amounts enter block
validity as one boolean for each block.

## Model

| member | source | states |
|---|---|---|
| Utxo.Trim | src/coins.h:112-117 | what is left is a prefix that does not end in a spent output, and everything dropped was spent |
| Utxo.Cleanup | src/coins.h:112-117 | the popping loop computes Trim |
| Utxo.PlaceBack | src/main.cpp:1687-1689 | resizing the trimmed list and storing the spent output again rebuilds the list as it was, for any output of any trimmed record |
| Utxo.SpendClean | src/coins.cpp:35-42 | a spend keeps the record trimmed, makes exactly that output unavailable, and "pruned" is then the same as an empty list |
| Utxo.RestoreUndoesSpend | src/main.cpp:1672-1689 | restoring one output from its undo record as it is read back from disk is reported clean if and only if the spend left outputs or the height is not zero; then the record is back, with the version of what was left of it, or the stored version if it was used up |
| Utxo.SpendTakesOne | src/main.cpp:1422-1437 | one spend in the set removes one output and changes no other record; the set stays well-formed and no record appears |
| Utxo.RestoreInputUndoes | src/main.cpp:1672-1689 | the same on the whole set, from any set that differs from the result of the spend only in having been to disk |
| Utxo.RestoreInputsUndoes | src/main.cpp:1669-1690 | restoring all inputs of a transaction, last first, undoes spending them in order, also when several inputs spend from one parent; clean if and only if no height-zero record was used up, exact up to versions |
| Utxo.SpendOrigin | src/coins.cpp:35-42 | a spend keeps the height and version of what is left, and takes a record of height zero away if and only if it used one up |
| Utxo.UndoneTwice | src/main.cpp:1637-1692 | undoing two changes in turn undoes both, with the versions that are left, or the stored ones where a record was used up by either |
| Utxo.DistinctInputsSpend | src/main.cpp:1420-1437 | when all inputs are available and distinct, spending one never makes a later one unavailable, so the assertion in the loop holds |
| BlockUndo.FromTxClean | src/coins.h:88-94 | a record made from a transaction is trimmed, also when all or the last outputs are unspendable; what is in it is Ledger.FromTxOutputs |
| BlockUndo.RemoveOutputsUndoes | src/main.cpp:1646-1662 | removing a transaction's outputs right after they were added is clean and restores the set, also when none were spendable, and also when the record lost a negative version on disk |
| BlockUndo.ApplyTxUndoes | src/main.cpp:1637-1689 | one transaction: undoing what UpdateCoins did, with the undo data from disk, gives the previous set up to versions; clean if and only if no height-zero record was used up |
| BlockUndo.ApplyTxsUndoes | src/main.cpp:1637-1692 | several transactions, with spends of each other's outputs: undoing them in reverse gives the first set back, in the same sense |
| BlockUndo.ApplyTxSources | src/main.cpp:1417-1442 | after a transaction, an output of any other is available if and only if it was and the transaction does not spend it, and no record appears but its own |
| BlockUndo.ApplyTxsAvailable | src/main.cpp:1833-1841 | an output of an older transaction is available after the block if and only if it was before and no transaction of the block spends it |
| BlockUndo.NoRepeatedTransaction | src/main.cpp:1771-1778 | a transaction with the id of an earlier one in the same block cannot be applied after it, since its inputs are spent |
| BlockUndo.AcceptedIdsDistinct | src/main.cpp:1771-1778 | an accepted block never contains the same transaction id twice, although the overwrite rule only looks at the set before the block |
| Ledger.FromTxOutputs | src/coins.h:88-94 | the record a transaction adds has output n if and only if the transaction has it and its script does not begin with OP_RETURN; and it is that output, at the given height, with the coinbase flag and the version of the transaction |
| Ledger.SpendOutput | src/coins.cpp:35-42 | a spend takes away that output and leaves every other as it is, with all metadata |
| Ledger.ApplyTxOutput | src/main.cpp:1417-1442 | after a transaction every outpoint has: of the transaction itself its spendable output, nothing if the transaction spends it, and what it had otherwise |
| Ledger.OutputsDecide | src/coins.h:28-38 | two sets with the same outputs are the same |
| Ledger.ApplyTxsOutput | src/main.cpp:1802-1841 | after the transactions of a block, with spends of each other: nothing where one of them spends, otherwise what they offer under their ids, and what was there under all others |
| Ledger.ConnectOutputs | src/main.cpp:1743-1881 | the same for every accepted block |
| Ledger.AcceptedIff | src/main.cpp:1743-1881 | a block is accepted if and only if it has a coinbase first and nowhere else, inputs that differ and outputs that are not negative in every transaction, no id with an output in the set, only inputs that the set or an earlier transaction of the block offers and no earlier one spends, and passes the other checks |
| Ledger.RemoveCleanIff | src/main.cpp:1646-1662 | removing the outputs of a transaction is clean if and only if the set has exactly the outputs that the block gives it, output by output with all metadata, but for a negative version; and nothing but these is removed |
| Ledger.RestoreCleanIff | src/main.cpp:1670-1689 | restoring an input is clean if and only if the output is not there, and its record is missing exactly if the undo data has the metadata; then it is there with the metadata of the undo data or of the record, and everything else is as before |
| Ledger.CleanUndoChecks | src/main.cpp:1637-1692 | if the undo of a block, from any set and with any undo data, is clean, then every transaction was removed from a set that had exactly its outputs |
| BlockUndo.DisconnectInvertsConnect | src/main.cpp:1618-1703 | for every accepted block above genesis, and every set that is its result but for what has been to disk, DisconnectBlock with the undo data read from disk is clean if and only if the block spares an output of every height-zero record (equivalently, if none of these records is gone); then every output and all metadata are restored up to versions, and exactly if and only if no used-up record has a negative version and no other record has lost its own on disk |
| BlockUndo.RecordSpared | src/main.cpp:1672-1677 | a record is still there after the block if and only if one of its outputs is not among the block's inputs |
| BlockUndo.NegativeVersionWitness | src/undo.h:37-54 | a block that uses up a record of version -1 is accepted, its undo is clean, and the record comes back with version 127 |
| BlockUndo.HeightZeroWitness | src/main.cpp:1673 | a block that spends the only output of a height-zero record is accepted, and its undo is reported unclean |
| StoredSets.LikeExact | src/txdb.cpp:44-62 | a set without negative versions is not changed by having been to disk |
| StoredSets.ApplyTxsLike | src/main.cpp:1833-1841 | sets that differ only in having been to disk accept the same transactions, and leave sets that differ in no more |
| StoredSets.ConnectLike | src/main.cpp:1743-1881 | such sets accept the same blocks, and the undo data is stored as the same bytes |
| CoinsCache.Overlay | src/coins.cpp:71-95 | reading the overlay is reading the cache first and the base otherwise, pruned counting as absent |
| CoinsCache.ViewWellFormed | src/coins.h:276-287 | in any stack that satisfies the flag invariant, the view holds only trimmed records with an output |
| CoinsCache.FetchReadsView | src/coins.cpp:71-95 | fetching through any number of caches returns what the view has, changes no view or best block at any depth, loses no entry and keeps the meaning of DIRTY and FRESH |
| CoinsCache.AcquireReadsView | src/coins.cpp:97-113 | ModifyCoins hands out what the view has, and changes no view while the record is out |
| CoinsCache.ReleaseWrites | src/coins.cpp:244-252 | releasing a modified record puts its trimmed form into the view and nothing else, and the flags are right again |
| CoinsCache.MergedEntry | src/coins.cpp:146-171 | each branch of BatchWrite keeps, for its entry, both the reading and the meaning of the flags |
| CoinsCache.FlushMovesView | src/coins.cpp:143-183 | after a flush the parent shows exactly what the child showed, and its flags are right towards the grandparent |
| CoinsCache.BatchWriteAssertion | src/coins.cpp:154 | the assertion in BatchWrite cannot fail |
| CoinsCache.FlushStoresView | src/txdb.cpp:44-62 | flushing into the database stores the cache's view: entry by entry the record shown, or its stored form if it was dirty |
| CoinsCache.FetchBestKeeps | src/coins.cpp:133-137 | filling in a null best block changes no best block at any depth and no entry |
| CoinsCache.FlushBestBlock | src/coins.cpp:175 | a flush hands down the child's best block if and only if the child knew one or the parent's own one was no news; otherwise the parent forgets it |
| CoinsCache.FlushedToParent | src/coins.cpp:143-183 | a flush within the stack: the stack invariant holds, the view below and the top both show what the top showed |
| CoinsCache.FlushedToDatabase | src/txdb.cpp:44-62 | the same for the lowest cache, with its best block |
| CoinsViews.BatchWrite | src/coins.cpp:143-177 | the consuming loop merges every entry as specified, in any order of iteration, and its assertion holds |
| CoinsViews.BatchStore | src/txdb.cpp:44-62 | the database's own loop: dirty entries are stored, as they will be read back, or erased, and the others ignored, in any order of iteration |
| CoinsViews.Views.PushCache | src/coins.cpp:64 | a new cache shows what the one below shows |
| CoinsViews.Views.FetchCoins | src/coins.cpp:71-122 | returns what the view has; no view changes |
| CoinsViews.Views.HaveCoins | src/coins.cpp:124-131 | testing for an empty list is the same as testing for "in the set" |
| CoinsViews.Views.HaveInputs | src/coins.cpp:208-220 | true exactly when every input is available in the view |
| CoinsViews.Views.ModifyCoins | src/coins.cpp:97-113 | hands out what the view has, without changing the view |
| CoinsViews.Views.WriteCoins | src/coins.cpp:244-252 | the view changes in that record only, to its trimmed form |
| CoinsViews.Views.GetBestBlock | src/coins.cpp:133-137 | the best block of the stack, remembered in the top cache |
| CoinsViews.Views.SetBestBlock | src/coins.cpp:139-141 | changes the best block of the top and nothing else; the null hash makes it that of the view below |
| CoinsViews.Views.Flush | src/coins.cpp:179-183 | the view below becomes the old top view, up to storing if it is the database; the top view changes no more than that, nothing further down changes; best blocks as in FlushBestBlock |
| CoinsViews.Views.LoseCache | src/coins.cpp:179-183 | a refused database write: the cache is empty afterwards although nothing was stored, and the view shows the old database |
| BlockConnect.UpdateCoins | src/main.cpp:1417-1442 | through any stack of caches, every outpoint of the new view has: of the transaction its spendable output, nothing if it is spent, and what it had otherwise; the undo record is that of the plain-map function, and the views below do not change |
| BlockConnect.NoneUnspent | src/main.cpp:1771-1778 | accepts exactly the blocks none of whose ids is in the set |
| BlockConnect.Connect | src/main.cpp:1743-1881 | accepts exactly when the plain-map function does, with its set and undo data |
| BlockConnect.HaveInputsApply | src/main.cpp:1420-1437 | once HaveInputs has passed, UpdateCoins cannot hit its assertion |
| BlockConnect.Disconnect | src/main.cpp:1618-1703 | the verdict, and after a clean undo the set, are those of the plain-map function |
| BlockConnect.RemoveTx | src/main.cpp:1646-1662 | the comparison succeeds if and only if the view has exactly the outputs that the block gives the transaction; they are removed |
| BlockConnect.RestoreTx | src/main.cpp:1664-1691 | the inputs of one transaction, last first |
| BlockConnect.RestoreOne | src/main.cpp:1670-1689 | one input: each of the four unclean cases and the resulting record |
| BlockConnect.ApplyBlock | src/main.cpp:2107-2122 | a block is applied completely, or leaves the view as it was |
| BlockConnect.RevertBlock | src/main.cpp:2052-2057 | the same for a disconnect |
| ChainState.ReplayStable | src/main.cpp:2042-2149 | what replaying a chain gives does not depend on blocks that arrive later |
| ChainState.ReplayLedger | src/main.cpp:2107-2122 | the replay of a chain has an output if and only if a transaction of a block of that chain created it, at its place and with the height of that block, and no block from there on spends it |
| ChainState.FollowsLedger | src/main.cpp:2107-2122 | and so has every set that follows the chain, each output as it was created or in its stored form |
| ChainState.ConnectAtTip | src/main.cpp:2107-2122 | connecting a block to any view that follows its parent succeeds exactly if it does on the replay, the view then follows the block, and the undo data is the same once stored |
| ChainState.LikeReplayExact | src/txdb.cpp:44-62 | if no transaction has a negative version, a set like the replay is the replay |
| ChainState.DisconnectReplay | src/main.cpp:2042-2057 | undoing a block, with the undo data from disk, from anything like the replay of its chain gives something like the replay of its parent; clean if and only if the block spares an output of every record of the genesis block |
| ChainState.UndoRecorded | src/main.cpp:1862-1881 | an undo record on disk is the stored form of what connecting the block to its parent's replay records, and stays so when one is added |
| ChainState.RecordedStays | src/main.cpp:1862-1881 | blocks of the active chain have undo data, and keep it when blocks arrive or records are added |
| ChainState.ConnectedFacts | src/main.cpp:1862-1881 | undo data recorded for a block has the shape that disconnecting it requires |
| ChainState.ShapedMore | src/main.cpp:1862-1881 | undo data has that shape whatever coins the block was connected to |
| ChainState.RevertAtTip | src/main.cpp:2050-2057 | disconnecting a block from a view that follows it, with the undo data on disk: it works exactly if the block spares the genesis records, and then the coins are the parent's |
| ChainState.Node.AddBlock | src/main.cpp:2394-2426 | a new block changes neither the coin set nor its meaning |
| ChainState.Node.FlushStateToDisk | src/main.cpp:1945-1995 | in every state of the node, also after failures: a write that works makes the database what the view is, with its best block, so it is right if the view is; after a lost cache it puts the view's best block over unchanged coins; with a full disk nothing is written; a refused write loses the cache; either failure aborts |
| ChainState.Node.Abort | src/main.cpp:2849-2857 | only sets the flag: the node stays as it is, and can go on |
| ChainState.Node.Commit | src/main.cpp:2059-2080 | the tip moves exactly when the flush worked, and the node aborts exactly when it did not |
| ChainState.Node.Extend | src/main.cpp:2107-2122 | the coins of the view decide, whatever they are; if they are the tip's, the block is accepted exactly if it is acceptable, and a block connected before has, on disk, the stored form of the undo data computed now |
| ChainState.Node.ConnectTip | src/main.cpp:2092-2149 | in every state of the node: the entry assertion fails exactly if the view is at another block than the tip; otherwise the block is judged by the coins of the view, which are the tip's unless a refused write lost the cache; it becomes the tip exactly if it is accepted and the disk works; a rejected block changes nothing; an accepted one whose flush fails leaves the view one block ahead, and aborts |
| ChainState.Node.DisconnectTip | src/main.cpp:2042-2083 | likewise: the entry assertion, the coins that decide, and what moves; if the coins are the tip's, it succeeds exactly if the tip spares the genesis records and the disk works; if the flush fails, the view is one block behind |
| ChainState.Node.RevertTip | src/main.cpp:2050-2057 | there always is undo data, in every state; the undo is done exactly if it fits the coins of the view, and from the tip's coins it gives the parent's |
| ChainState.Node.Run | src/main.cpp:1945-2149 | over every run of arrivals, connects, disconnects, flushes and disk failures, going on after failures until an assertion fails: without a failure the coin set is the replay of the active chain, up to negative versions that have been to disk, and exactly if there are none, and has exactly the outputs created and not spent on that chain; the database is right for its own best block if and only if no refused write lost the cache, or no write worked since, or the lost cache made no difference, until a block is connected to wrong coins; without refused writes both always follow their best blocks |
| ChainState.LostFlushWitness | src/txdb.cpp:44-62 | the first block is connected, the write is refused, the next write works: the database has the best block and none of its coins |
| CheckQueue.BatchCount | src/checkqueue.h:111 | the largest batch that is within the batch size and that every thread at work could take as well, but at least one check, and never more than are queued |
| CheckQueue.LoopHeadKeeps | src/checkqueue.h:92-120 | returning, going to sleep and taking a batch each keep the invariant |
| CheckQueue.RunBatchIsAll | src/checkqueue.h:122-126 | skipping after the first failure gives the conjunction of the batch and what was known |
| CheckQueue.ExecuteKeeps | src/checkqueue.h:122-126 | executing a batch outside the lock keeps the invariant |
| CheckQueue.AddKeeps | src/checkqueue.h:147-159 | adding checks, with one or all workers notified, keeps the invariant |
| CheckQueue.StepKeeps | src/checkqueue.h:70-159 | every enabled step of every thread keeps the invariant |
| CheckQueue.RunsAreSequential | src/checkqueue.h:70-159 | in every interleaving, each Wait returns the conjunction of the checks added since the previous one |
| CheckQueue.QueueIsSequential | src/checkqueue.h:141-159 | from the initial state, with any number of workers and any batch size, the queue behaves like evaluating the checks one by one |
| CheckQueue.Bookkeeping | src/checkqueue.h:79-121 | while nobody holds the mutex, nTodo is the queue plus all batches held, nTotal - nIdle the threads with a batch, between rounds all are idle with nothing to do and the verdict reset, and a master asleep without notification has a worker that still holds a batch |
| CheckQueue.QuietStepsWork | src/checkqueue.h:70-128 | executing, finishing a batch and waking after a notification each use up some of a bounded amount of work |
| CheckQueue.NeverStuck | src/checkqueue.h:84-86 | no lost wake-up: while the master waits, some thread can take a step that makes progress |
| CheckQueue.QuietRunsEnd | src/checkqueue.h:70-128 | runs in which nothing new is added are no longer than the work that was left |
| QueueLock.WriteRefines | src/checkqueue.h:76-121 | the single writes of a critical section, one at a time under the mutex, add up to the atomic step, with the same result |
| QueueLock.RunCommutes | src/checkqueue.h:122-126 | executing a batch outside the lock commutes with the writes of the thread that holds it |
| QueueLock.FineRunsAreSequential | src/checkqueue.h:70-159 | in every interleaving of single writes, each Wait returns the conjunction of the checks added since the previous one |
| QueueLock.FineQueueIsSequential | src/checkqueue.h:141-159 | the same from the constructor's state, for any number of workers and any batch size |
| QueueLock.RestingCounters | src/checkqueue.h:180-188 | between rounds nTodo is 0 and fAllOk is set, at every moment; nTotal is nIdle, plus one exactly while a worker is between its two writes |
| QueueLock.ControllerAssertions | src/checkqueue.h:180-188 | with any steps of the workers between the reads: the second and third assertion always hold; the first holds if and only if as many workers counted themselves between its two reads as are between their writes at the second read, or, with the reads in the other order, if and only if none did either |
| QueueLock.AssertionsUnderMutex | src/checkqueue.h:180-188 | read under the mutex, all three would hold |
| QueueLock.LateWorkerWitness | src/checkqueue.h:102-104 | a run after which the first assertion fails: a worker notified in one round gets the lock after it |
| PartialMerkle.WidthIff | src/merkleblock.h:67-69 | a position exists at a height exactly if its first leaf does |
| PartialMerkle.TreeHeight | src/merkleblock.cpp:117-120 | the loop finds the height of the root |
| PartialMerkle.SiblingsDiffer | src/merkleblock.cpp:41-56 | with an injective pair hash and distinct ids, two children of a node never have the same hash |
| PartialMerkle.ExtractGrows | src/merkleblock.cpp:76-110 | extraction only moves forward: counters do not go back, matches are only added, at most one for each hash used, and trouble is not forgotten |
| PartialMerkle.ExtractAfterFailure | src/merkleblock.cpp:76-110 | an earlier failure changes nothing but the flag |
| PartialMerkle.ExtractSound | src/merkleblock.cpp:76-110 | for arbitrary bits and hashes, and any claimed number of transactions with the same tree height, if the computed hash of a subtree is the true one, then its matches are ids below that node at strictly increasing positions |
| PartialMerkle.ExtractMatchesSound | src/merkleblock.cpp:128-159 | if the non-null root of the block comes out, the matches are ids of the block at strictly increasing positions |
| PartialMerkle.ExtractMore | src/merkleblock.cpp:76-110 | the traversal of an encoding that is long enough does not look at what follows it |
| PartialMerkle.RefusesLeftover | src/merkleblock.cpp:149-158 | on arbitrary bits and hashes: if a root comes out, then none does with further hashes, whatever they are, nor with a further byte of bits; further bits are accepted, with the same result, exactly within the last byte |
| PartialMerkle.RefusesSizes | src/merkleblock.cpp:130-141 | no root for zero or more than 16666 transactions, nor for more hashes than transactions, nor for fewer bits than hashes |
| PartialMerkle.CalcHashIsRow | src/merkleblock.cpp:44-56 | the hashes of a height are the row that the block computes at that height, from left to right |
| PartialMerkle.MerkleRootIsRows | src/primitives/block.cpp:55-78 | the root of the partial tree is the root that the block computes row by row |
| PartialMerkle.EncodeExtremes | src/merkleblock.cpp:58-74 | without a match the encoding is one zero bit and the root; with all of them it is one bits only and all ids in order |
| PartialMerkle.ExtractsBuild | src/merkleblock.cpp:76-110 | reading back what was built gives the node's hash and the selected ids below it, and consumes exactly what was written |
| PartialMerkle.BuildLeafBound | src/merkleblock.cpp:58-74 | at most one hash for each leaf below |
| PartialMerkle.BuildMatchBound | src/merkleblock.cpp:58-74 | at most one hash, and height many for each match |
| PartialMerkle.EncodeBounds | src/merkleblock.h:41-48 | the stored hashes number at most min(n, 1 + matches * height) |
| PartialMerkle.PackBits | src/merkleblock.h:100-104 | each bit lands in its place and the padding is clear |
| PartialMerkle.UnpackBits | src/merkleblock.h:92-98 | each bit is read from its place |
| PartialMerkle.TransmitBits | src/merkleblock.h:89-106 | packing and unpacking gives the bits back, padded with zeroes to whole bytes |
| PartialMerkle.ExtractMatchesComplete | src/merkleblock.cpp:112-159 | for every non-empty list of distinct ids within the size limit and every mask: build, pad, extract gives the true root and exactly the selected ids, and no early exit rejects it |
| PartialMerkle.PartialMerkleTree.TraverseAndBuild | src/merkleblock.cpp:58-74 | appends exactly the encoding of the subtree |
| PartialMerkle.PartialMerkleTree.TraverseAndExtract | src/merkleblock.cpp:76-110 | the counters, matches and fBad after the call are those of the extraction function |
| PartialMerkle.PartialMerkleTree.ExtractMatches | src/merkleblock.cpp:128-159 | the root and the matches, or null for each of the rejections (PartialMerkle.RefusesLeftover and PartialMerkle.RefusesSizes), and null for a tree that had been found bad before |
| AddrTables.CreateKeeps | src/addrman.cpp:99-109 | a created entry with its first reference keeps the tables consistent |
| AddrTables.InsertKeeps | src/addrman.cpp:349-356 | putting an entry into one more "new" bucket keeps reference counts equal to the number of buckets |
| AddrTables.DropRef | src/addrman.cpp:163-172 | taking one of several references away keeps them equal |
| AddrTables.DropLast | src/addrman.cpp:164-170 | forgetting an entry with its last reference removes it from every table, and only it |
| AddrTables.AppendTried | src/addrman.cpp:220-225 | moving an entry to a "tried" bucket with room: one bucket, no reference, counters moved by one |
| AddrTables.ReplaceTried | src/addrman.cpp:227-254 | moving an entry to "tried" in place of another, which goes back to "new" |
| AddrTables.SwapConsistent | src/addrman.cpp:111-129 | a swap keeps positions and vRandom mutually inverse |
| AddrTables.TouchKeeps | src/addrman.cpp:272-276 | changing the statistics of an entry changes no table's meaning |
| AddrMan.Manager.Find | src/addrman.cpp:86-97 | the entry of an address, or none exactly if the address is unknown |
| AddrMan.Manager.SwapRandom | src/addrman.cpp:111-129 | keeps the invariant; its assertions hold |
| AddrMan.Manager.ShrinkNew | src/addrman.cpp:154-200 | drops one reference, to the first terrible entry of the bucket, or, if there is none, to the oldest of the four picks; forgets that entry if it was its last reference, never a tried one; all others stay as they are |
| AddrMan.Manager.Oldest | src/addrman.cpp:176-188 | the entry chosen is one of the inspected positions and the oldest of those |
| AddrMan.Manager.SelectTried | src/addrman.cpp:131-152 | shuffles the bucket by the random draws; the place returned is the one from which the first of the least recently successful of the four (or fewer) drawn entries was taken; all ids looked up are known |
| AddrMan.Manager.EraseFromNew | src/addrman.cpp:206-213 | the entry leaves every "new" bucket and the count of buckets it left is its reference count |
| AddrMan.Manager.MakeTried | src/addrman.cpp:202-255 | the whole new state: the entry is tried and in the bucket, last if there was room; if the bucket was full, the entry at the place that SelectTried returns goes back to "new" with one reference, into its own bucket or, if that is full, into the one the first came from; all other entries and buckets are unchanged, and the invariant holds |
| AddrMan.Manager.Evict | src/addrman.cpp:227-254 | the full-bucket case, with the entry that is evicted, the bucket it goes to, and the rest unchanged |
| AddrMan.Manager.BucketOf | src/addrman.cpp:282-292 | the wrapping search from a random bucket finds the first bucket from there on that holds the entry; there always is one |
| AddrMan.NoneMissed | src/addrman.cpp:282-292 | the wrapping search visits every bucket |
| AddrMan.Manager.Good | src/addrman.cpp:257-303 | the whole new state: of a known service the statistics are fresh, and if it was not tried, it moves to "tried" as MakeTried says, from the first bucket found; otherwise nothing changes; the tables stay consistent at any time, and the times stay acceptable to Check_ if and only if the time is positive or nothing changed |
| AddrMan.Manager.Create | src/addrman.cpp:99-109 | the whole new state: a new id that is in no bucket yet, with all its fields, and every other entry unchanged |
| AddrMan.Manager.Add | src/addrman.cpp:305-358 | for any address, source, times and random choices, the whole new state: a new entry has its time less the penalty and is in the chosen bucket with one reference; of a known one the time is updated, and it gets into one more bucket if and only if there is news, it is not tried, not in four buckets or this one yet, and the dice agree; if the bucket is full, and only then, one entry leaves it by the rule of ShrinkNew, and every other entry stays as it is; keeps the invariant |
| AddrMan.SeenTimeIs | src/addrman.cpp:315-320 | the time is replaced if and only if there is news and it is unknown or older, by more than the penalty and an hour for an address online in the last day, or a day otherwise; then it is the time of the news less the penalty, and not negative |
| AddrMan.TerribleIff | src/addrman.cpp:41-59 | exactly when an entry is terrible, in seconds: not tried in the last minute, and from the future, not seen for a month, tried three times without success ever, or ten times without one in a week |
| AddrMan.Manager.Attempt | src/addrman.cpp:360-377 | changes the statistics of that entry only, at any time |
| AddrMan.Manager.Connected | src/addrman.cpp:511-529 | changes the time of that entry only |
| AddrMan.Manager.GetAddr | src/addrman.cpp:490-509 | returns exactly as many entries as the least of 2500, 23 percent of all, and the number that are not terrible; they are pairwise different, none is terrible, and each is the whole entry as it was but for its place in the random order; shuffles that order and keeps the invariant |
| AddrMan.TakenCount | src/addrman.cpp:492-507 | the entries taken on the way are no more than those that are not terrible, and exactly as many at the end |
| AddrMan.Manager.Run | src/addrman.cpp:99-358 | from the empty state, every run of operations keeps the invariant, and the times too if all operations have positive times |
| AddrCheck.Check | src/addrman.cpp:423-487 | Check_, as it is written, returns 0 if and only if the tables agree: positions, addresses, references, buckets and counters all fit each other; for arbitrary tables |
| AddrCheck.ConsistentIsAgreement | src/addrman.cpp:423-487 | the invariant is this agreement plus what Check_ does not look at: bucket sizes, the id range and surplus addresses |
| AddrCheck.PassingAgrees | src/addrman.cpp:457-484 | the counts that Check_ compares leave no room: if all entries pass and the totals match, positions are a bijection and every reference is accounted for |
| AddrCheck.Collect | src/addrman.cpp:431-455 | the first pass succeeds exactly if every entry passes its own checks, and then splits the ids exactly |
| AddrCheck.CrossOff | src/addrman.cpp:462-469 | succeeds exactly if no id occurs more often than it is there, and leaves the difference |
| AddrCheck.CheckTried | src/addrman.cpp:462-469 | succeeds with nothing left exactly if every tried id is in one place of one bucket |
| AddrCheck.CheckNew | src/addrman.cpp:471-479 | succeeds with nothing left exactly if every count is the number of buckets that hold the id |
| LimbMath.ValBound | src/arith_uint256.h:24-30 | n limbs stand for a number below 2^(32 n) |
| LimbMath.HighestDecides | src/arith_uint256.cpp:109-119 | the highest limb that differs decides a comparison |
| LimbMath.UpValue | src/arith_uint256.cpp:21-36 | limbs shifted left with carries from below stand for the product, up to what is carried out |
| LimbMath.DownValue | src/arith_uint256.cpp:38-53 | limbs shifted right stand for the quotient, up to what is shifted out |
| ArithUint.AddAssign | src/arith_uint256.h:136-146 | addition modulo 2^BITS at every width, also of a number to itself, with no 64-bit overflow |
| ArithUint.Increment | src/arith_uint256.h:174-189 | the carry stops at the first limb that does not wrap, and the result is one more modulo 2^BITS |
| ArithUint.Negated | src/arith_uint256.h:78-85 | the two's complement |
| ArithUint.SubAssign | src/arith_uint256.h:148-152 | subtraction modulo 2^BITS, and exact when the result is not negative |
| ArithUint.ProductFits | src/arith_uint256.cpp:72-76 | no step of a product exceeds 64 bits |
| ArithUint.MulSmall | src/arith_uint256.cpp:55-65 | multiplication by one limb modulo 2^BITS |
| ArithUint.AddRow | src/arith_uint256.cpp:72-76 | one row of the product, up to a multiple of 2^BITS |
| ArithUint.MulAssign | src/arith_uint256.cpp:67-80 | the product modulo 2^BITS if and only if the factor is another object or the result is zero anyway: a number multiplied by itself in place becomes zero |
| ArithUint.ShiftLeft | src/arith_uint256.cpp:21-36 | multiplication by 2^shift modulo 2^BITS, for every shift |
| ArithUint.ShiftRight | src/arith_uint256.cpp:38-53 | division by 2^shift, for every shift |
| ArithUint.CompareTo | src/arith_uint256.cpp:109-119 | the sign of the difference |
| ArithUint.Bits | src/arith_uint256.cpp:171-184 | the position of the highest bit plus one, or zero |
| ArithUint.SetBit | src/arith_uint256.cpp:100 | setting a quotient bit adds its weight, since all lower bits are clear |
| ArithUint.Align | src/arith_uint256.cpp:95-96 | aligning the divisor cannot overflow the width |
| ArithUint.DivideStep | src/arith_uint256.cpp:97-104 | one round of align, subtract and shift keeps dividend = quotient * divisor + remainder |
| ArithUint.DivAssign | src/arith_uint256.cpp:83-107 | exactly floor(a / b) for every nonzero b, also for b the number itself; division by zero is refused with the number already cleared |
| CompactTarget.EncodedKeeps | src/arith_uint256.cpp:224-245 | the compact value keeps 16 to 23 leading bits, or the whole number below 2^23 |
| CompactTarget.CompactRoundTrip | src/arith_uint256.cpp:204-245 | decoding an encoded number is not negative, at most the number, off by at most a 2^15th, and encodes to the same value |
| CompactTarget.EncodedIsBest | src/arith_uint256.cpp:224-245 | no compact value whatever stands for a closer number from below |
| CompactTarget.CompactMonotone | src/arith_uint256.cpp:204-245 | rounding through the compact form keeps the order |
| CompactTarget.OverflowGuard | src/arith_uint256.cpp:217-220 | the three-way test is true exactly when mantissa * 256^(size - 3) is at least 2^256 |
| CompactTarget.CompactExamples | src/test/arith_uint256_tests.cpp:483-527 | compact values of one to five bytes and the numbers they stand for, both ways |
| CompactTarget.SetCompact | src/arith_uint256.cpp:204-222 | the number modulo 2^256, the overflow flag exactly when that lost something, and the negative flag exactly for a set sign bit and a nonzero number |
| CompactTarget.GetCompact | src/arith_uint256.cpp:224-245 | the compact value of the number, with the sign bit only if there is something to negate; both assertions hold |
| CompactTarget.TopBytes | src/arith_uint256.cpp:226-233 | the truncations to 64 and 32 bits lose nothing |
| SkipList.SkipHeight | src/chain.cpp:65-74 | a height below the block's own |
| SkipList.SkipHeightIs | src/chain.cpp:62-74 | an even height loses its lowest bit, an odd one the two lowest above the last bit, or the only one |
| SkipList.Clearing | src/chain.cpp:62-63 | clearing the lowest bit takes away one set bit below the highest bit in which height and goal differ, or, if there is none, goes down to the goal or past it |
| SkipList.StepHelps | src/chain.cpp:82-96 | every step of the walk, by skip or to the parent, stays at or above the goal and lowers an effort that depends on the two heights only |
| SkipList.EffortBound | src/chain.cpp:68-72 | that effort is at most n^2/4 + 2n + 1 for a height of n bits, where the source has a figure from simulations (118 proved against 110 for 18 bits) |
| BlockTree.PathHeights | src/chain.cpp:76-98 | the root path has one entry for each height, and the path of an entry is a prefix |
| BlockTree.AncestorOfAncestor | src/chain.cpp:76-98 | the ancestor at a height is the same seen from any block between |
| BlockTree.GetAncestor | src/chain.cpp:76-98 | the skip-list walk equals following pprev down to the height, NULL outside the range, in at most n^2/4 + 2n + 1 steps from a height of n bits |
| BlockTree.Grown | src/chain.cpp:105-109 | a new entry's skip pointer, found through its parent, is the ancestor at the skip height, and the old entries stay right |
| BlockTree.BlockMap.AddToBlockIndex | src/main.cpp:2411-2417 | the tree stays well built, and the new entry's path is its parent's plus itself |
| ActiveChain.Chain.Contains | src/chain.h:374-376 | the constant-time test is the ancestor relation to the tip |
| ActiveChain.Chain.SetTip | src/chain.cpp:14-24 | despite its early stop, the vector is exactly the root path of the new tip, from any well-formed state |
| ActiveChain.AgreesBelow | src/chain.cpp:20-23 | two root paths that share a block agree below it, which is why stopping early is right |
| ActiveChain.Chain.FindFork | src/chain.cpp:54-60 | the highest common ancestor of the block and the tip, or NULL exactly if there is none |
| ActiveChain.LastCommonAncestor | src/main.cpp:412-427 | the highest common ancestor; the two pointers always meet, so the assertion holds |
| ActiveChain.CommonUp | src/main.cpp:419-422 | going up on both sides at equal height loses no common ancestor |
| Locator.HeightsDecrease | src/chain.cpp:26-52 | the heights listed decrease strictly from the start to the genesis block |
| Locator.HeightsAre | src/chain.cpp:26-52 | entry j is j below the start up to the eleventh, and 9 + 2^(j-10) below it from there on, until the genesis block, which ends the list |
| Locator.LocatorShort | src/chain.cpp:26-52 | at most 11 + k entries for a start below height 10 + 2^k |
| Locator.StepReaches | src/chain.cpp:47-48 | the step reaches 2^(k+1) if and only if the start is higher than 9 + 2^k: a 32-bit step overflows from height 2^30 + 10 on and not before |
| Locator.LocatorNear | src/chain.cpp:26-52 | the first listed height at or below f is at most twice as far from the start as f |
| Locator.GetLocator | src/chain.cpp:26-52 | the ancestors of the start at the listed heights, whether looked up in the chain or by skip list; empty only for an empty chain |
| Locator.AtIsAncestor | src/chain.cpp:40-42 | indexing the chain is the same as walking back from a block in it |
| Locator.FindForkInGlobalIndex | src/main.cpp:547-560 | the first entry that is in the chain, or else the chain's genesis block |
| Locator.ForkIsNear | src/main.cpp:547-560 | against any chain with the same genesis block, the block found is a common ancestor r with H - r <= 2 * (H - f), f being the true fork |
| Base58.DigitsUnique | src/base58.cpp:90-100 | digits without leading zeroes are determined by their value |
| Base58.EncodeFits | src/base58.cpp:77 | n * 138 / 100 + 1 base-58 digits hold every n-byte number, for all n |
| Base58.DecodeFits | src/base58.cpp:34 | n * 733 / 1000 + 1 bytes hold every n-digit number, for all n |
| Base58.AlphabetLetters | src/base58.cpp:20 | the alphabet, position by position |
| Base58.RenumberBack | src/base58.cpp:22-101 | changing the base and back gives the same digits with the same number of leading zeroes |
| Base58.DecodeEncoded | src/base58.cpp:22-101 | decoding what was encoded gives the bytes back, for every byte string |
| Base58.EncodeDecoded | src/base58.cpp:22-101 | encoding what was decoded gives the text back without the spaces around it, for every accepted text |
| Base58.EncodedMeans | src/base58.cpp:68-101 | the letters of an encoding are the base-58 digits of the same number, after one 1 for every zero byte at the start |
| Base58.EncodedExample | src/test/data/base58_encode_decode.json:4 | one of the published pairs |
| Base58.MulAdd | src/base58.cpp:82-86 | the multiply-and-carry loop is exact up to the carry out, and no step leaves 32 bits |
| Base58.NoCarryOut | src/base58.cpp:87 | in a buffer that is long enough nothing is carried out, so both assertions on the carry hold |
| Base58.Encode | src/base58.cpp:68-101 | computes the encoding function, for every byte string |
| Base58.FindLetter | src/base58.cpp:38-40 | finds the digit of a character, or reports that there is none |
| Base58.Accepted | src/base58.cpp:51-65 | a text whose digits are followed by spaces only decodes to what is in the buffer |
| Base58.Refused | src/base58.cpp:38-55 | a character outside the alphabet, or a space between digits, makes the text unacceptable |
| Base58.Decode | src/base58.cpp:22-66 | accepts exactly the texts of alphabet characters, up to surrounding spaces and the first zero character, with the decoding function's bytes |
| ArrivalOrder.CountedSum | src/main.cpp:2453 | a nonzero counter means that all blocks down to the root have been received, and is their sum, also in the presence of failed blocks |
| ArrivalOrder.CountersExact | src/main.cpp:2429-2470 | without failed headers, the counter is nonzero exactly when all ancestors have data, and the waiting list is exactly the received blocks that are not linked |
| ArrivalOrder.BlockTable.ReceivedBlockTransactions | src/main.cpp:2429-2470 | keeps the meaning of all counters and of the waiting list; exactly the newly linked blocks become candidates; no counter changes twice |
| ArrivalOrder.BlockTable.LinkQueue | src/main.cpp:2445-2462 | the queue loop ends, each round moving pairs from the waiting list to the queue |
| ArrivalOrder.BlockTable.MoveChildren | src/main.cpp:2455-2461 | all waiting children of the linked block, and no other pair, move to the queue |
| ArrivalOrder.BlockTable.AddHeader | src/main.cpp:2394-2426 | a header without a body changes no counter |
| ArrivalOrder.BlockTable.Run | src/main.cpp:2429-2470 | for every order in which headers and bodies arrive, the invariant holds and the candidates are the linked blocks |
| ArrivalOrder.LoadBlockIndex | src/main.cpp:2941-2959 | the height-sorted pass computes, for every listing by height, the path sums, the waiting pairs, and as candidates the linked blocks that have not failed |
| ArrivalOrder.BlockTable.Reload | src/main.cpp:2941-2959 | after any arrivals, the pass gives the same counters, waiting list and candidates as were built up |
| Candidates.LessOrder | src/main.cpp:109-128 | the comparator is a strict order, total on different blocks; what it orders by is Candidates.LessIsWork |
| Candidates.LessIsWork | src/main.cpp:109-128 | a block is less than another if and only if it has less work or, with equal work, came later or, if it came at the same time, has the higher address |
| Candidates.SameGood | src/main.cpp:2180-2184 | marking blocks above a failed one changes no branch's verdict |
| Candidates.DropWorse | src/main.cpp:2196-2205 | dropping candidates worse than the tip leaves a candidate at least as good as any acceptable block, in particular one |
| Candidates.BranchDropped | src/main.cpp:2178-2184 | marking and dropping a branch from a failed block up keeps the cover, marks only unacceptable blocks and drops only candidates with a failed block on their branch |
| Candidates.ForkExists | src/main.cpp:2215 | two blocks always have a fork, since there is one genesis block; so the genesis block is never disconnected |
| Candidates.GreatestIsBest | src/main.cpp:2155-2193 | the greatest unfailed candidate is at least as good as every acceptable linked block, candidate or not |
| Candidates.BestHasMostWork | src/main.cpp:2280-2325 | the greatest of the acceptable blocks is one with the most work; of these, one that came first; of these, the one with the lowest address |
| BlockArrival.VerdictStays | src/main.cpp:2107-2118 | whether a linked block is accepted does not change when headers and blocks arrive |
| BlockArrival.MirrorOne | src/main.cpp:2451-2454 | a newly linked block is new to the node and fits its tree |
| BlockArrival.StateGrows | src/main.cpp:2454 | newly linked blocks become candidates, so every acceptable linked block is covered again |
| BlockArrival.ChainGrows | src/main.cpp:2394-2426 | the active chain stays the root path of an acceptable tip |
| ChainSelect.Selection.Arrived | src/main.cpp:2451-2454 | new headers, and blocks newly linked in any number, keep the invariant; the node knows exactly the linked blocks; exactly the newly linked ones become candidates |
| ChainSelect.Announce | src/main.cpp:2445-2462 | the node is told of every newly linked block, parents first, and forgets none |
| ChainSelect.Selection.FindMostWorkChain | src/main.cpp:2155-2193 | ends; drops only candidates with a failed block on their branch; returns a candidate with no less work than any other that is left, which has no failed block down to the root although the walk stops at the active chain; NULL exactly if none is left |
| ChainSelect.Selection.FailedAncestor | src/main.cpp:2171-2189 | finds a failed block above the active chain, or shows that there is none on the whole branch; both assertions hold |
| ChainSelect.Selection.MarkBranch | src/main.cpp:2178-2184 | marks exactly the blocks of the branch above the failed one, and takes exactly these and the failed one off the candidates |
| ChainSelect.Selection.PruneBlockIndexCandidates | src/main.cpp:2196-2205 | drops exactly the candidates with less work than the tip or, with equal work, later or at a higher address; its assertion holds |
| ChainSelect.Selection.ConnectTip | src/main.cpp:2092-2149 | always called on a child of the tip; which of the four outcomes it has, when the node aborts (a block that cannot be read, or a failed write), and what each changes: the coin view decides, a possible corruption marks nothing, and only an invalid block is marked |
| ChainSelect.Selection.DisconnectTip | src/main.cpp:2042-2083 | succeeds exactly if block and undo data can be read, the block spares the genesis records, and the disk works; then tip and coin view move to the parent, otherwise the tip stays; aborts exactly if the block cannot be read or the write fails; never called on the genesis block |
| ChainSelect.Selection.BlocksToConnect | src/main.cpp:2231-2237 | the blocks of the branch above the fork, highest first, in batches of 32 |
| ChainSelect.Selection.DisconnectTo | src/main.cpp:2218-2221 | ends at the fork, unless the system fails; with a working disk it always gets there |
| ChainSelect.Selection.ConnectBatch | src/main.cpp:2241-2262 | connects children of the tip only, and stops at the first failure or improvement; with a working disk the system does not fail |
| ChainSelect.Selection.ActivateBestChainStep | src/main.cpp:2211-2273 | ends at the target, with strictly more work than before, with one block newly marked as invalid, or at a possible corruption, of which there are finitely many, unless the system fails |
| ChainSelect.Selection.ActivateOnce | src/main.cpp:2283-2317 | one round of the loop: it is done, or there is progress in a bounded measure, or the system fails |
| ChainSelect.Selection.ActivateBestChain | src/main.cpp:2280-2325 | ends, and on success every block whose branch is complete and acceptable has no more work than the tip; with equal work it came no earlier, and if at the same time, has no lower address; the coin set is the replay of the branch of the tip (exactly, without negative versions), and has exactly the outputs created and not spent on it; it succeeds whenever the disk works and no block uses up a genesis record |
| ChainSelect.Selection.Flush | src/main.cpp:2320-2322 | the periodic write keeps tip and coin set, and fails exactly if the disk does |
| Processing.SoundIsAccepted | src/main.cpp:2107-2122 | what the node takes for the coins of a linked block is what connecting the received blocks one after the other gives |
| Processing.AcceptedUnfailed | src/main.cpp:2464-2466 | an acceptable block has no failed block below it, so it is put on the waiting list |
| Processing.BestIsUsable | src/main.cpp:2280-2325 | the best of the linked sound blocks is the best of all blocks received down to the genesis block and acceptable: nothing is missed by linking |
| Processing.HeaderExtends | src/main.cpp:2394-2426 | a header adds an entry and changes no other |
| Processing.BodyExtends | src/main.cpp:2429-2442 | a body and the counters computed by the queue loop leave all linked blocks as they were |
| Processing.WaitingKept | src/main.cpp:2464-2466 | failed marks only excuse more blocks from the waiting list |
| Processing.Processor.Header | src/main.cpp:2394-2426 | block table, selection and node stay in step when a header arrives |
| Processing.Processor.Body | src/main.cpp:2429-2470 | and when a body arrives: it is linked with every waiting descendant by the queue loop, and exactly these become candidates and known to the node |
| Processing.Processor.Activate | src/main.cpp:2280-2325 | on success the tip has the most work of all blocks received down to the genesis block and acceptable; of equal ones it came first, or has the lowest address; and the coin set is what connecting them in order gives, up to storing: the outputs created and not spent on that chain; it succeeds whenever the disk works and no block uses up a genesis record |
| Processing.Processor.Run | src/main.cpp:2280-2470 | over every run, from any such state, of headers and bodies in any order and activations at any time: the invariant holds, and after a successful activation this is so; with a working disk every activation succeeds |
| Compressor.ReadVarInt | src/serialize.h:294-324 | a written number is read back and nothing of what follows is consumed, for every natural number |
| Compressor.ReadNegative | src/serialize.h:294-309 | of a negative number only the lowest seven bits come back |
| Compressor.VarIntOnly | src/serialize.h:311-324 | every number has only one form |
| Compressor.VarIntValue | src/serialize.h:257-264 | the documented value of a form: the seven-bit groups, with one added to all but the last; the continuation bit is on all bytes but the last, and no shorter form would do |
| Compressor.VarIntForms | src/serialize.h:266-278 | the documented sizes and forms, with two entries of the table corrected |
| Compressor.ReadVarFails | src/serialize.h:311-324 | reading fails exactly if every byte has the continuation bit |
| Compressor.WriteVarInt | src/serialize.h:294-309 | the writing loop |
| Compressor.GetVarInt | src/serialize.h:311-324 | the reading loop |
| Compressor.Stripped | src/compressor.cpp:147-151 | the number is the stripped one times its power of ten, with at most nine zeroes taken off |
| Compressor.DecompressCompressed | src/compressor.cpp:143-186 | decompressing a compressed amount gives it back, for every natural number |
| Compressor.CompressDecompressed | src/compressor.cpp:143-186 | and every natural number is the compressed form of one amount |
| Compressor.CompressedDigits | src/compressor.cpp:143-160 | an amount (10n + d) * 10^e with a digit d from 1 to 9 and e up to 8 is written as 1 + 10 * (9n + d - 1) + e, and read back from that |
| Compressor.CompressedBillions | src/compressor.cpp:143-160 | a multiple n * 10^9 is written as 10n, and read back from that |
| Compressor.CompressedPairs | src/test/compress_tests.cpp:42-47 | the six pairs that the tests expect |
| Compressor.AmountsFit | src/compressor.cpp:143-160 | the compressed form of an amount in the money range fits in 64 bits |
| Compressor.CompressAmount | src/compressor.cpp:143-160 | the loop computes the compressed form, which Compressor.CompressedDigits and Compressor.CompressedBillions give by the digits of the amount |
| Compressor.DecompressAmount | src/compressor.cpp:162-186 | the loop computes the amount of the same two rules, for every number |
| Compressor.ShortForm | src/compressor.cpp:49-131 | the short form of each kind of script has the size its first byte tells, and stands for that script |
| Compressor.ShortIff | src/compressor.cpp:13-47 | which scripts have a short form, byte by byte |
| Compressor.ShortTemplates | src/compressor.cpp:49-79 | the short form of each kind of script |
| Compressor.ReadWrittenScript | src/compressor.h:67-92 | every script is read back as it was written, given that restoring undoes the compression of a valid key |
| Compressor.ReadWrittenOutput | src/compressor.h:109-121 | every output with a nonnegative amount is read back as it was written |
| CoinsCodec.UnpackMask | src/coins.h:189-196 | unpacking the packed flags gives them back, padded with zeroes |
| CoinsCodec.ReadUsed | src/coins.h:218-228 | the mask loop stops at precisely the last nonzero byte |
| CoinsCodec.FlagsMatch | src/coins.h:213-228 | the flags rebuilt from the code and the mask match the outputs |
| CoinsCodec.CodeFields | src/coins.h:181-184 | the code tells the coinbase flag, the first two outputs and the number of nonzero bytes; the assertion holds for every record with an unspent output |
| CoinsCodec.CodeMeans | src/coins.h:30-36 | the documented bits of the code; the higher ones are the number of groups of eight outputs with an unspent one, or one less if the first two outputs are spent |
| CoinsCodec.MaskBits | src/coins.h:26-26 | bit j of byte b says whether output 2 + 8b + j is unspent; the last byte is not zero, and nothing beyond it is unspent |
| CoinsCodec.ReadWrittenOutputs | src/coins.h:197-201 | the unspent outputs are read back in their places |
| CoinsCodec.MarkedTrim | src/coins.h:237 | the final cleanup removes exactly the padding |
| CoinsCodec.ReadWrittenRecord | src/coins.h:177-238 | what is read back of any record with an unspent output: its stored form, that is the outputs without spent ones at the end, and the version, of which only the lowest seven bits are left if it is negative; exactly the written bytes are consumed |
| CoinsCodec.RecordRoundTrip | src/coins.h:177-238 | a record comes back exactly as it was if and only if it is trimmed and its version is not negative |
| CoinsCodec.RecordExamples | src/coins.h:38-70 | the two documented records, byte by byte, for any addresses |
| CoinsCodec.UndoRoundTrip | src/undo.h:37-54 | what is read back of any undo record is its stored form, and it is the record itself if and only if its version is not negative, and zero when its height is zero |
| CoinsCodec.UndoExamples | src/undo.h:37-44 | undo records with and without metadata, byte by byte |
| CoinsCodec.CalcMaskSize | src/coins.cpp:17-33 | the size of the mask up to the last nonzero byte, and the number of nonzero bytes |
| CoinsCodec.MaskByte | src/coins.h:191-195 | one byte of the mask, bit by bit |
| CoinsCodec.Serialize | src/coins.h:177-204 | writes the record function's bytes; its assertion holds |
| CoinsCodec.ReadFlags | src/coins.h:213-228 | the flags, from the code and the bytes up to the last nonzero one |
| CoinsCodec.GetOutputs | src/coins.h:229-234 | the outputs marked as available |
| CoinsCodec.Unserialize | src/coins.h:206-238 | computes the reading function on every byte string, including the ones that end too early |

## Left out

- Script evaluation, signatures and the elliptic curve: a script check is a boolean, and restoring a compressed key is a parameter with a law.
- The limits on coinbase rewards, which are compiled out, and all other amount rules: part of the one boolean of a block.
- The two historical blocks that are exempt from the rule against overwriting transactions: the rule is always enforced.
- The coin database itself: it is a map, and a write to it happens completely or not at all.
- Start-up after a failure: when the database is right for its own best block is proved, not what the code does with a database that is not.
- Writing the genesis coins a second time at start-up (src/main.cpp:3180-3185): the genesis block is connected like any other block, at height zero.
- Block and undo files, their checksums, the transaction index and the market database.
- The memory pool, the wallet, networking, message dispatch, RPC, the user interface and command-line handling.
- The market types, decisions, votes and outcomes, and src/miner.cpp: no statement of intent to prove against.
- InvalidateBlock and ReconsiderBlock: failed marks are only ever added in the model.
- ChainSelect.Selection.ActivateBestChain: possible corruptions stop after some operation, arbitrarily late; otherwise the loop of the code does not end.
- pindexBestInvalid, fork warnings and pindexBestHeader: they decide nothing here.
- The shutdown flag of the check queue, which is never set.
- The 32-bit range of nChainTx, of heights and of the tree width beyond the size limit: they are unbounded.
- The other operators of base_uint (bitwise operators, --, hexadecimal and floating-point conversion): one-line loops.
- The service bits of an address, which only accumulate.
- Bucket hashing, GetChance and Select_ of the address manager, and its file format: hashes are parameters, and the rest is floating point or easy.
- ChainSelect.Selection.ActivateOnce: as for everything in the class, the coin view is that of the tip when it starts; for other states, after a failed write, see ChainState.Node.
- Processing.Processor.Run: after a write to disk has failed it starts no more activations, although the code may.
- ChainSelect.Selection.ConnectTip: the checks that do not look at the coins are a fixed function of the block, and a failure to write undo data counts as a failure to read the block.
- ChainSelect.Selection.DisconnectTip: returning the transactions to the memory pool.
- ArrivalOrder.CountersExact: stated for trees without failed headers, because a block below a failed parent is not put on the waiting list (src/main.cpp:2464-2466) and so may never be counted; ArrivalOrder.CountedSum holds with failed headers too.
- CoinsCodec.ReadWrittenRecord: amounts of unspent outputs are not negative, as block validity requires.
- PartialMerkle.ExtractMatchesSound: the pair hash is injective, and the claimed number of transactions gives a tree of the same height as the block's own.
- ArrivalOrder.BlockTable.ReceivedBlockTransactions: a body arrives once and has a transaction, as AcceptBlock and CheckBlock ensure before the call.
- AddrCheck.Check: looking up a missing address inserts it with id zero (src/addrman.cpp:447); the model reads it as zero and inserts nothing.
- Compressor.GetVarInt: on arbitrary bytes the code's integers wrap at 32 or 64 bits; the model's do not.  Numbers that were written fit, and come back.
- CoinsCodec.Unserialize: the same, for the version, the code and the height of a record.
