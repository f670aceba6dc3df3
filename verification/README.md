# A verified model of LitecoinZ's chain state

LitecoinZ is a full node of a Bitcoin-style chain with shielded JoinSplit transfers. This project
models, in Dafny, the parts of it that everything else relies on, and proves what they promise:

- **The chain state.** Unspent outputs, revealed nullifiers and note commitment anchors live in a stack
  of write-back caches over a database (`Coins`, `ChainView`, `CacheEntries`, `CoinsCache`). Blocks are
  checked, connected and disconnected on it (`TxChecks`, `Blocks`, `BlockOps`, `TipOps`). `Inversion`,
  `Redo`, `Runs`, `DoubleSpend` and `Supply` prove what holds over whole chains and whole runs.
- **The rules of the chain.** `Ledger` states them on the blocks alone, with no coin set and no cache.
  `Reflection` and `Consensus` prove that exactly the chains that follow them connect, and that the state
  is what the history says; `ChainFacts` draws the consequences.
- **The block tree.** `SkipList` and `BlockTree`, `ActiveChain` (`CChain`), `Candidates`, `MostWork`,
  `Activation`, `Linking`, `Arrival` and `ChainState`: headers and block data arrive in any order, and
  `ActivateBestChain` moves the tip to the best usable block.
- **The script check queue** (`CheckQueue`): one master and any number of workers, as a state machine
  over the steps between releases of the mutex.
- **The address manager** (`AddrTables`, `AddrMan`, `AddrCheck`, `AddrStore`, `AddrLoad`): five redundant
  indexes that must always agree, also after saving and loading.
- **Codecs and arithmetic**: partial Merkle trees (`MerkleTree`, `MerkleProof`, `MerkleBlock`), Base58
  (`Numerals`, `Base58`), 256-bit integers and their compact form (`Limbs`, `Shifts`, `ArithUint256`,
  `Compact`), and the stored form of `CCoins` (`Amounts`, `Compressor`, `CoinsSerialize`), with the proof
  that every coin of a reachable state survives being stored (`StoredCoins`). `Vectors` proves the values
  that the repository's tests write down.

## How things are modelled

- Identifiers are numbers, 0 is null. Transactions and blocks carry their identifier; that different
  contents have different identifiers is stated where it is used (`InjectiveIds` in a block, `OneMeaning`
  in a chain, blocks stored under their hash). The commitment tree is the sequence of its commitments and
  its root is injective.
- Scripts, proofs, signature checks and contextual block rules are functions in `Rules`; results hold
  for any of them. The clock and random numbers are parameters.
- A coin map holds unpruned coins only: a pruned `CCoins` equals a missing one, as `operator==` says.
- The block index is a map from hash to entry, and pointers between entries are hashes. The address of
  an entry, the last tie-breaker of the candidate order, is its hash.
- Block and undo files are maps that return what was written. A block that fails is invalid, never
  merely corrupted, and there are no system errors.
- Methods that change state are proved against functions over plain values, and the theorems are
  proved about those functions. Widths are explicit where the code relies on them (limbs, carries,
  mask bytes, `uint64_t` amounts, 32-bit sizes and codes).

## Findings

Each comes with its exact condition and with an input that shows it.

- Flushing a child cache makes the parent show exactly the child's state when the child's best block and
  best anchor are set. `CoinsCache.FlushExact` gives the exact condition, `CoinsCache.FlushForgets` a
  parent that forgets its best block.
- `x *= x` on a 256-bit number gives 0, because the limbs are cleared before the factor is read
  (`ArithUint256.SquareInPlace`); every other product is exact modulo 2^256
  (`ArithUint256.Uint256.MulAssign`).
- `CAddrMan::Add_` reports a new address also when it is deleted again at once because its cell is taken
  (`AddrCheck.NewButGone`); `AddrMan.AddrManager.Add` states exactly when it stays.
- `DecompressAmount` and `CompressAmount` are inverse to each other as long as nothing exceeds 64 bits,
  and never otherwise: `Amounts.DecompressThenCompress` and `Amounts.CompressThenDecompress` are exact,
  and `Amounts.WrappingCode` is a code that does not come back.
- A stored output whose script is longer than `MAX_SCRIPT_SIZE` comes back as a single `OP_RETURN`
  (`StoredCoins.LongScriptIsLost`). `CoinsSerialize.UnchangedExactly` gives the exact condition, and
  `StoredCoins.CoinsSurvive` shows that no reachable coin set holds such an output.

## Model

| member | source | states |
|---|---|---|
| Coins.TrimmedUnique | src/coins.h:115-120 | cleaning up keeps exactly the outputs up to the last unspent one: no other prefix has that property |
| Coins.CleanupLoop | src/coins.h:115-120 | the loop removes the null outputs at the end and nothing else |
| Coins.ClearUnspendableLoop | src/coins.h:122-128 | outputs no script can spend are nulled, then the end is cleaned up |
| Coins.CleanPruned | src/coins.h:253-258 | a cleaned-up value is fully spent exactly when it has no outputs |
| ChainView.UndoSpendInput | src/main.cpp:1837-1861 | undoing a spent input restores the coins, height, version and coinbase flag of a fully spent transaction included |
| ChainView.UndoSpendInputs | src/main.cpp:1914-1924 | undoing the inputs of a transaction in reverse order restores the coin set |
| ChainView.SpendInputsAvailability | src/main.cpp:1571-1592 | after spending, exactly the outpoints that were available and not spent are available |
| ChainView.DistinctInputsCanBeSpent | src/main.cpp:1576-1581 | distinct available inputs can all be spent: the assertion in UpdateCoins cannot fail |
| Blocks.AcceptedCanSpend | src/main.cpp:2133-2164 | a transaction that passes the checks of ConnectBlock can be applied |
| Inversion.UndoUpdateCoins | src/main.cpp:1884-1924 | undoing a transaction after UpdateCoins gives back the view before it |
| Inversion.NoRepeat | src/main.cpp:2079-2086 | with the overwrite check, no transaction of a block has an id that is already in the coin set or earlier in the block |
| Inversion.UndoConnectTxs | src/main.cpp:1882-1925 | undoing all transactions of a block in reverse order undoes connecting them, outputs spent inside the block included |
| Inversion.PopPushAnchor | src/coins.cpp:148-198 | popping an anchor undoes pushing it, also when the tree did not change |
| Inversion.DisconnectUndoesConnect | src/main.cpp:1863-1939 | for every block ConnectBlock accepts on a sound state, DisconnectBlock with the undo data it produced reports clean and gives back exactly the state before |
| Runs.ConnectKeepsSound | src/main.cpp:2040-2240 | connecting a block keeps the state sound |
| Runs.ConnectKeepsConsistent | src/main.cpp:2465-2528 | connecting a tip, or failing to, keeps state, chain and stored undo data consistent; undo data already on disk is reused |
| Runs.DisconnectReplays | src/main.cpp:2403-2453 | disconnecting the tip never fails and leads to the state of the chain without it |
| Runs.DisconnectKeepsConsistent | src/main.cpp:2403-2453 | disconnecting keeps state, chain and undo data consistent |
| Runs.RunsReplay | src/main.cpp:2403-2528 | after any run of storing, connecting and disconnecting, the state equals connecting the blocks of the active chain in order from genesis |
| Runs.PathIndependence | src/main.cpp:2403-2528 | two runs that end with the same active chain end in the same state |
| DoubleSpend.OutpointBalance | src/main.cpp:1571-1603 | one transaction: outputs created minus outputs consumed is the change in what is available |
| DoubleSpend.NullifierBalance | src/main.cpp:1594-1599 | one transaction: a revealed nullifier was not in the set and is in it afterwards |
| DoubleSpend.NoDoubleSpend | src/main.cpp:2133-2164 | along every chain that connects, each outpoint has been created as often as consumed plus one if it is still unspent, and each nullifier revealed at most once, exactly when it is in the set |
| Supply.TxValue | src/main.cpp:1640-1693 | a transaction changes coins plus pool by at most its allowance: it cannot create value |
| Supply.BlockValue | src/main.cpp:2123-2192 | a connected block raises coins plus pool by at most its subsidy |
| Supply.SupplyConserved | src/main.cpp:2123-2192 | along every chain that connects, unspent value plus the shielded pool is at most the sum of the subsidies |
| Supply.SubsidyEnvelope | src/main.cpp:1404-1417 | a closed upper bound on the sum of subsidies over any number of halvings (the exact value of each is in Consensus.SubsidyExactly) |
| Supply.SubsidyBound | src/main.cpp:1404-1417 | for interval 840000 all subsidies together stay below 84,000,000 coins |
| Supply.SupplyCap | src/main.cpp:1404-1417 | for interval 840000 unspent value plus pool stays below 84,000,000 coins and so below MAX_MONEY |
| CacheEntries.MovedUpIsFresh | src/coins.cpp:280-291 | an entry that the parent does not have is fresh in the child, and the level below the parent has no unspent coins for it, so the parent may mark it fresh |
| CacheEntries.MergeShows | src/coins.cpp:277-310 | merging the dirty entries of a child into a parent makes the parent show what the child shows |
| CacheEntries.MergeAnchorsShows | src/coins.cpp:312-335 | the same for anchors |
| CacheEntries.MergeNullifiersShows | src/coins.cpp:337-355 | the same for nullifiers |
| CacheEntries.WrittenShows | src/txdb.cpp:117-160 | writing the dirty entries to the database makes it hold what the cache shows |
| CoinsCache.CoinsViewDB.GetCoins | src/txdb.cpp:95-97 | the stored coins of a transaction |
| CoinsCache.CoinsViewDB.GetAnchorAt | src/txdb.cpp:76-86 | the tree of a stored anchor; the empty root is always known |
| CoinsCache.CoinsViewDB.BatchWrite | src/txdb.cpp:117-160 | the database holds what the written cache showed; null hashes are not written |
| CoinsCache.CoinsViewCache.GetCoins | src/coins.cpp:92-109 | answers for the effective view; reading changes no level of the stack |
| CoinsCache.CoinsViewCache.GetAnchorAt | src/coins.cpp:111-132 | answers for the effective view; reading changes no level of the stack |
| CoinsCache.CoinsViewCache.GetNullifier | src/coins.cpp:134-146 | answers for the effective view; reading changes no level of the stack |
| CoinsCache.CoinsViewCache.GetBestBlock | src/coins.cpp:254-258 | the effective best block |
| CoinsCache.CoinsViewCache.GetBestAnchor | src/coins.cpp:261-265 | the effective best anchor |
| CoinsCache.CoinsViewCache.HaveInputs | src/coins.cpp:430-442 | true exactly when every input of the transaction is unspent in the effective view |
| CoinsCache.CoinsViewCache.GetOutputFor | src/coins.cpp:375-380 | the output an available input refers to |
| CoinsCache.CoinsViewCache.HaveJoinSplitRequirements | src/coins.cpp:396-428 | true exactly when no nullifier is spent and every anchor is a known root or made by an earlier JoinSplit of the transaction |
| CoinsCache.CoinsViewCache.ModifyCoins | src/coins.cpp:215-234 | opens one transaction for change without changing what is shown, and marks it fresh only if the level below has no coins |
| CoinsCache.CoinsViewCache.Release | src/coins.cpp:478-490 | afterwards the effective view has the cleaned-up coins, or none |
| CoinsCache.CoinsViewCache.SetNullifier | src/coins.cpp:200-204 | changes the effective nullifiers by that nullifier |
| CoinsCache.CoinsViewCache.PushAnchor | src/coins.cpp:148-173 | the effective view becomes the one with the tree pushed |
| CoinsCache.CoinsViewCache.PopAnchor | src/coins.cpp:175-198 | the effective view becomes the one with the anchor popped |
| CoinsCache.CoinsViewCache.SetBestBlock | src/coins.cpp:267-269 | changes the effective best block only |
| CoinsCache.CoinsViewCache.BatchWrite | src/coins.cpp:271-360 | the parent shows what the child showed; the assertion about fresh entries cannot fail |
| CoinsCache.CoinsViewCache.Flush | src/coins.cpp:362-369 | the level below becomes the flushed view, the cache is empty and shows it |
| CoinsCache.FlushExact | src/coins.cpp:357-369 | flushing moves the whole view down exactly when best block and best anchor are set or the level below already agrees on them, and, onto disk, the empty root is among the anchors |
| CoinsCache.FlushForgets | src/coins.cpp:357-369 | a child that never loaded the best block makes its parent forget block 1 when it is flushed |
| CoinsCache.FlushedShows | src/coins.cpp:362-369 | an emptied cache that still holds the hashes its base has shows exactly its base |
| TxChecks.CheckOutputs | src/main.cpp:898-911 | every output and the running total are in the money range |
| TxChecks.CheckPubOld | src/main.cpp:913-946 | JoinSplit values are in range, one side is zero, and the total stays in range |
| TxChecks.CheckDistinctInputs | src/main.cpp:966-974 | no two inputs spend the same outpoint |
| TxChecks.CheckDistinctHashes | src/main.cpp:976-988 | no nullifier is repeated |
| TxChecks.CheckTransaction | src/main.cpp:872-1033 | accepts exactly the well-formed transactions within the size limit whose JoinSplits, if any, are signed |
| TxChecks.CheckBlock | src/main.cpp:3042-3054 | accepts exactly blocks that pass the rules of the header and the body, whose first transaction alone is a coinbase, and whose transactions all pass their checks |
| BlockOps.UpdateCoins | src/main.cpp:1571-1603 | the effective view after a transaction, and its undo data, are those of the specification |
| BlockOps.CheckTxInputs | src/main.cpp:1627-1693 | accepts exactly inputs that are there, mature, in range and worth at least the outputs, with known anchors and new nullifiers; Consensus.JoinsExactly says on the history what that is |
| BlockOps.ConnectTx | src/main.cpp:2123-2176 | one transaction of a block: accepted exactly when the specification accepts it, with its view, fees, signature operations and tree; ChainFacts.NoteAt gives the tree by position |
| BlockOps.CheckNoOverwrite | src/main.cpp:2079-2086 | no transaction of the block overwrites one with unspent outputs |
| BlockOps.ConnectBlock | src/main.cpp:2040-2240 | accepts exactly the blocks the specification accepts, which are those of Consensus.ConnectsExactly, and leads to its view and undo data; a rejected block leaves the level below unchanged |
| BlockOps.ApplyTxInUndo | src/main.cpp:1837-1861 | restores one spent output as the specification does and reports whether the undo data fits |
| BlockOps.DisconnectBlock | src/main.cpp:1863-1939 | succeeds cleanly exactly when the specification does and leads to its view |
| TipOps.ConnectToTip | src/main.cpp:2483-2496 | a block is connected in a child cache and flushed: the tip moves to the new view, or stays as it is |
| TipOps.DisconnectFromTip | src/main.cpp:2411-2419 | a block is disconnected in a child cache and flushed |
| TipOps.FlushToDisk | src/main.cpp:2255-2349 | writing the coins to disk changes nothing that the tip shows |
| SkipList.InvertLowestOneBits | src/chain.cpp:62-63 | exactly the lowest one bit changes |
| BlockTree.StepBack | src/chain.cpp:83-97 | parent and skip pointer of a block on a path lead to ancestors on that path |
| BlockTree.GetAncestor | src/chain.cpp:76-99 | terminates and returns the ancestor that repeated parent steps reach, or none outside the path; below height 2^k it takes at most MostHops(k) steps, and at most 110 below 2^18 |
| BlockTree.BuildSkip | src/chain.cpp:106-110 | the skip pointer is the ancestor at the skip height |
| BlockTree.ExtendKeepsWellFormed | src/main.cpp:2809-2818 | adding an entry keeps every parent link and skip pointer right |
| ActiveChain.Chain.SetTip | src/chain.cpp:14-24 | afterwards entry h of the vector is the ancestor of the tip at height h, whatever tip was set before |
| ActiveChain.Chain.FindFork | src/chain.cpp:54-60 | the highest block the chain and the given block share, none exactly when they share none |
| ActiveChain.Chain.GetLocator | src/chain.cpp:26-52 | the ancestors of the block from itself down to height 0, one apart eleven times and then twice as far each time |
| ActiveChain.LastCommonAncestor | src/main.cpp:411-426 | the highest block that is an ancestor of both |
| ActiveChain.SharedBelow | src/chain.cpp:14-60 | below a shared block everything is shared |
| Candidates.WorseIsTotal | src/main.cpp:105-124 | the comparator is total and antisymmetric |
| Candidates.WorseIsTransitive | src/main.cpp:105-124 | the comparator is transitive |
| MostWork.CheckPath | src/main.cpp:2548-2582 | finds the first block on the way down to the active chain that failed or has no data: all above it are usable entries; none means the whole path can be used |
| MostWork.TakeOut | src/main.cpp:2563-2577 | exactly the blocks from the bad one up leave the candidates; if it failed they all count as failed, and if data is missing they become unlinked |
| MostWork.TakenOutRefines | src/main.cpp:2563-2577 | no usable candidate is discarded and no block changes whether it can be used |
| MostWork.FindMostWorkChain | src/main.cpp:2534-2586 | terminates with a usable candidate that no usable candidate exceeds in work, nor precedes in sequence number at equal work; none when no candidate can be used; never discards a usable one |
| MostWork.PruneBlockIndexCandidates | src/main.cpp:2589-2598 | exactly the candidates worse than the tip are removed: they have less work, or as much and no smaller sequence number; one is left |
| Activation.AcceptedAncestor | src/main.cpp:2465-2528 | the ancestors of a block that connects connect |
| Activation.ReferencePruned | src/main.cpp:2648-2655 | after connecting a block and pruning, every usable block that is not worse than the reference is still a candidate |
| Activation.ReferenceFailed | src/main.cpp:1552-1569 | marking a block that does not connect as failed keeps the candidates complete |
| Activation.TipIsBest | src/main.cpp:2684-2689 | when the greatest candidate is the tip, no usable block of the index beats it |
| ChainState.State.ConnectTip | src/main.cpp:2465-2528 | connects exactly when the block is accepted on its chain; otherwise it is marked failed and leaves the candidates; the state stays sound either way |
| ChainState.State.DisconnectTip | src/main.cpp:2403-2453 | takes the tip back and cannot fail |
| ChainState.State.FlushStateToDisk | src/main.cpp:2255-2349 | can happen at any moment and changes nothing |
| ChainState.State.DisconnectTo | src/main.cpp:2610-2614 | the active chain is cut back to the fork |
| ChainState.BlocksToConnect | src/main.cpp:2623-2631 | the blocks on the path, from the target height down |
| ChainState.State.ConnectBatch | src/main.cpp:2633-2656 | connects until a block is rejected or the tip has more work than before; a rejected block does not connect and is the only one marked |
| ChainState.State.ActivateBestChainStep | src/main.cpp:2604-2666 | ends on the path to the target: at the target, with more work than before, or with one more failed block |
| ChainState.StepProgress | src/main.cpp:2677-2716 | every step that does not arrive leaves fewer blocks not marked failed, or the same and fewer with more work than the tip |
| ChainState.State.FindMostWork | src/main.cpp:2685-2685 | the greatest usable candidate; none exactly when no block of the index can be used |
| ChainState.State.ActivateBestChain | src/main.cpp:2673-2725 | terminates; afterwards no usable block of the whole index has more work than the tip, and none with as much work has a smaller sequence number; there is no tip only when no block can be used |
| ChainState.State.AddToBlockIndex | src/main.cpp:2794-2826 | a header arrives: the entry is the new one, everything proved about tree, chain, candidates and links still holds |
| ChainState.State.ReceivedBlockTransactions | src/main.cpp:2829-2891 | block data arrives: it is stored, all blocks that waited for it are linked in breadth-first order with sequence numbers above all given before, and every usable block not worse than the tip is a candidate |
| ChainState.SproutValue | src/main.cpp:2833-2839 | the sum of what the JoinSplits of a block put into the pool, less what they take out |
| ChainState.PoolAtTip | src/main.cpp:2858-2867 | the shielded value recorded at the tip is what its chain moved into the pool, and with the coins of the tip it is at most the subsidies paid |
| Linking.AddToBlockIndex | src/main.cpp:2794-2826 | a known header changes nothing; a new one gets its parent, height, work and skip pointer and no data |
| Linking.TakeChildren | src/main.cpp:2876-2882 | exactly the blocks waiting for a block are taken out of the multimap |
| Linking.LinkStep | src/main.cpp:2855-2883 | linking the first block of the queue and queueing those that waited keeps the link invariant |
| Linking.LinkDescendants | src/main.cpp:2849-2883 | terminates; all blocks that become connected are linked, breadth first, with their totals and consecutive sequence numbers, and become candidates unless worse than the tip; nothing else changes |
| Linking.ReceivedBlockTransactions | src/main.cpp:2829-2891 | the data is recorded; afterwards every block with data is linked, waits for its parent, or sits below a failed parent |
| Linking.OutOfOrderLinking | src/main.cpp:2794-2891 | with nothing failed, whatever the order of arrival: a block is linked exactly when it and all ancestors have data, carries the sums over its path, and exactly the blocks with data under an unlinked parent wait, once each |
| Linking.GoodIsLinked | src/main.cpp:2849-2888 | a usable block is linked, also when other blocks have failed |
| Arrival.DataKeepsReference | src/main.cpp:2868-2875 | arriving data keeps the candidates complete |
| Arrival.SproutIsPool | src/main.cpp:2858-2867 | the sum kept along the index is the pool value of the path |
| CheckQueue.Queue.Proceed | src/checkqueue.h:91-120 | one pass from the loop head: return, sleep, or a batch of the right size from the back of the queue |
| CheckQueue.Queue.Enter | src/checkqueue.h:87-90 | a thread entering the loop |
| CheckQueue.Queue.Complete | src/checkqueue.h:80-86 | a finished batch is accounted for; the master is notified exactly when nothing is left to do |
| CheckQueue.Queue.Resume | src/checkqueue.h:102-105 | a thread waking up |
| CheckQueue.Queue.Add | src/checkqueue.h:147-159 | the checks are queued and counted |
| CheckQueue.IdleExactly | src/checkqueue.h:165-169 | IsIdle holds exactly when no check is queued, no thread holds any, and none has failed |
| CheckQueue.Execute | src/checkqueue.h:122-126 | a batch passes exactly when all its checks pass and none failed before |
| CheckQueue.StepKeepsInv | src/checkqueue.h:70-128 | every step of every thread keeps the protocol invariant |
| CheckQueue.CheckQueueProtocol | src/checkqueue.h:70-213 | over every interleaving: nTodo and nTotal - nIdle count exactly, every Wait answered whether all its checks pass, a sleeping master that was not notified means some worker holds a batch, and the next controller finds the queue idle |
| CheckQueue.EveryCheckAnswered | src/checkqueue.h:140-159 | every submitted check belongs to exactly one answer, in order, or is still to be answered for |
| AddrTables.BucketsPerGroup | src/addrman.cpp:11-24 | an address group reaches at most 8 tried buckets and a source group at most 64 new ones |
| AddrTables.CreateAgrees | src/addrman.cpp:87-97 | a created entry is in all three lookups and in no table |
| AddrTables.SwapAgrees | src/addrman.cpp:99-117 | swapping permutes the random order and keeps it a bijection with the entries |
| AddrTables.RemoveAgrees | src/addrman.cpp:119-131 | deleting an entry in no table keeps all indexes in agreement |
| AddrTables.ClearAgrees | src/addrman.cpp:133-146 | clearing a cell deletes its entry exactly when that was its last cell, and touches no other entry |
| AddrTables.PutAgrees | src/addrman.cpp:300-303 | a free cell at the entry's position can be taken while the entry has fewer than 8 |
| AddrTables.EvictAgrees | src/addrman.cpp:168-176 | a tried entry can leave its cell |
| AddrTables.PromoteAgrees | src/addrman.cpp:189-193 | an entry in no table can take its free tried cell |
| AddrTables.WithdrawAgrees | src/addrman.cpp:150-160 | taking an entry out of all its new cells leaves its reference count at 0 |
| AddrMan.AddrManager.Find | src/addrman.cpp:74-85 | finds the one entry of an address, none exactly when no entry has it |
| AddrMan.AddrManager.Create | src/addrman.cpp:87-97 | the entry is created under a new id |
| AddrMan.AddrManager.SwapRandom | src/addrman.cpp:99-117 | the entries at two positions of the random order change places |
| AddrMan.AddrManager.Delete | src/addrman.cpp:119-131 | the entry is removed from all lookups |
| AddrMan.AddrManager.ClearNew | src/addrman.cpp:133-146 | the cell is emptied; its entry loses a reference or is deleted |
| AddrMan.AddrManager.Withdraw | src/addrman.cpp:150-160 | the loop over all buckets takes out every cell of the entry |
| AddrMan.AddrManager.SendBack | src/addrman.cpp:167-188 | the evicted tried entry ends in the one new cell that its address and source select; at most one other entry is lost, and it was new with a single cell |
| AddrMan.AddrManager.MakeTried | src/addrman.cpp:148-194 | the entry is in its tried cell, an entry found there is in the new cell of its source, all indexes agree, no tried entry is lost, statistics are unchanged |
| AddrMan.AddrManager.FindNewBucket | src/addrman.cpp:222-237 | a new entry is always found in some bucket, wherever the search begins |
| AddrMan.AddrManager.Good | src/addrman.cpp:196-243 | an exactly known address becomes tried with its statistics updated; an unknown one changes nothing; times stay in order |
| AddrMan.AddrManager.Add | src/addrman.cpp:245-311 | keeps all indexes in agreement and the history of every other entry; true exactly for a routable address not known before: it has exactly its one cell and the entry made from it unless its cell is blocked, and then everything but the next id is as before; a known one with N cells gets another exactly when there is news, it is new with fewer than 8, its random number is a multiple of 2^N and the cell is not blocked; no tried entry is lost |
| AddrMan.AddrManager.Attempt | src/addrman.cpp:313-330 | only the entry of this address and port changes |
| AddrMan.AddrManager.Connected | src/addrman.cpp:495-513 | only the time of the entry changes, and only after 20 minutes |
| AddrMan.AddrManager.GetAddr | src/addrman.cpp:474-493 | on the fields of each entry: given away are addresses tried within a minute, or seen within 30 days and at most 10 minutes ahead, with fewer than 3 failures if never reached and fewer than 10 if not within a week; none twice, at most 23 percent and at most 2500, and all of them when there are fewer; only the random order changes |
| AddrStore.IdsCounted | src/addrman.h:295-314 | as many new and tried entries are written as the counters say |
| AddrStore.Serialize | src/addrman.h:281-329 | writes the specified stream; the two assertions about the counts cannot fail |
| AddrLoad.WithinLimits | src/addrman.h:352-358 | a consistent manager is within the limits that loading checks |
| AddrLoad.NextCell | src/addrman.h:401-417 | each saved cell is free, at the entry's position, and its entry has fewer than 8 cells so far |
| AddrLoad.ReloadedEntry | src/addrman.h:331-435 | a renumbered entry has its reference count and its cells |
| AddrLoad.Unserialize | src/addrman.h:331-435 | whatever the stream, random order and entries agree and every new entry has a cell; what a consistent manager saved comes back whole, up to renumbering and the time of the last try, and is consistent |
| MerkleTree.HashesDiffer | src/merkleblock.cpp:64-79 | nodes of one height over distinct transactions have different hashes |
| MerkleTree.ExtractBuilt | src/merkleblock.cpp:81-133 | reading what was built for a node gives its hash, its marked transactions in order, and uses up exactly its bits and hashes |
| MerkleTree.ExtractSound | src/merkleblock.cpp:99-133 | for any bits and hashes: a node read without failure that gives the node's own hash has found only transactions below it, ascending |
| MerkleTree.HashesPerLeaf | src/merkleblock.h:37-41 | no more hashes than transactions |
| MerkleTree.HashesPerMatch | src/merkleblock.h:37-41 | no more hashes than 1 plus matches times height |
| MerkleBlock.CalcHeight | src/merkleblock.cpp:140-143 | the least height with a single node |
| MerkleBlock.Pack | src/merkleblock.h:100-104 | bit p of the bytes is flag p, the rest is zero |
| MerkleBlock.Unpack | src/merkleblock.h:93-99 | flag p is bit p of the bytes |
| MerkleBlock.PartialMerkleTree.TraverseAndBuild | src/merkleblock.cpp:81-97 | appends exactly the bits and hashes of the node |
| MerkleBlock.PartialMerkleTree.TraverseAndExtract | src/merkleblock.cpp:99-133 | reads the node as the specification does, failures included |
| MerkleBlock.PartialMerkleTree.ExtractMatches | src/merkleblock.cpp:151-182 | a root is returned exactly for bits and hashes that spell out a tree without twins and are all used up; it is the root of that tree, with the transactions it marks |
| MerkleBlock.PartialMerkleTree.constructor | src/merkleblock.cpp:135-147 | holds the bits and hashes of the whole tree |
| MerkleBlock.BuildThenExtract | src/merkleblock.cpp:81-182 | building then extracting, with or without packing, gives the Merkle root and exactly the marked transactions in order |
| MerkleBlock.ExtractIsSound | src/merkleblock.cpp:151-182 | an extraction that gives the block's root yields only transactions of the block, at ascending positions |
| MerkleBlock.BuiltSize | src/merkleblock.h:37-41 | both size bounds, for every block and mask |
| Numerals.SignificantDigits | src/base58.cpp:59-66 | digits without leading zeros are the shortest numeral of their value |
| Base58.MulAdd | src/base58.cpp:44-51 | the carry loop multiplies and adds in place; the final carry is 0 |
| Base58.EncodeRoom | src/base58.cpp:79-80 | the 138/100 buffer holds every value, for every length |
| Base58.DecodeRoom | src/base58.cpp:36-37 | the 733/1000 buffer holds every value, for every length |
| Base58.EncodeThenDecode | src/base58.cpp:25-104 | decoding the text of any byte string gives it back |
| Base58.DecodeThenEncode | src/base58.cpp:25-104 | encoding the bytes of any Base58 text gives it back |
| Base58.DecodedExactly | src/base58.cpp:25-69 | a string decodes to given bytes exactly when it is their encoding between spaces |
| Base58.EncodeBase58 | src/base58.cpp:71-104 | the encoding; the carry assertion holds for every input |
| Base58.DecodeBase58 | src/base58.cpp:25-69 | the decoding, or failure; the carry assertion holds for every input |
| Base58.EncodeBase58Check | src/base58.cpp:116-123 | the encoding of the bytes and their checksum |
| Base58.DecodeBase58Check | src/base58.cpp:125-140 | succeeds exactly when the text decodes to some bytes followed by their checksum, and returns them |
| Base58.CheckThenDecode | src/base58.cpp:116-140 | the checksummed text decodes to exactly what was encoded |
| ArithUint256.Uint256.AddAssign | src/arith_uint256.h:136-146 | the sum modulo 2^256, also of a number with itself |
| ArithUint256.Uint256.Increment | src/arith_uint256.h:174-181 | plus one modulo 2^256 |
| ArithUint256.Uint256.Negated | src/arith_uint256.h:78-85 | the negation modulo 2^256 |
| ArithUint256.Uint256.SubAssign | src/arith_uint256.h:148-152 | the difference modulo 2^256 |
| ArithUint256.Uint256.MulAssign32 | src/arith_uint256.cpp:56-66 | the product modulo 2^256, without 64-bit overflow |
| ArithUint256.Uint256.MulAssign | src/arith_uint256.cpp:68-82 | the product modulo 2^256, without 64-bit overflow; 0 when a number is multiplied by itself in place |
| ArithUint256.Uint256.DivAssign | src/arith_uint256.cpp:84-108 | the floor of the quotient for every non-zero divisor; division by zero fails |
| ArithUint256.Uint256.CompareTo | src/arith_uint256.cpp:110-120 | the order of the values |
| ArithUint256.Uint256.Bits | src/arith_uint256.cpp:172-185 | the position of the highest one bit plus one, or zero |
| ArithUint256.Uint256.ShiftLeft | src/arith_uint256.cpp:22-37 | times a power of two modulo 2^256, for every shift |
| ArithUint256.Uint256.ShiftRight | src/arith_uint256.cpp:39-54 | the floor of the quotient by a power of two, for every shift |
| ArithUint256.Uint256.GetLow64 | src/arith_uint256.h:246-250 | the lowest 64 bits |
| Compact.SetCompact | src/arith_uint256.cpp:205-223 | the value modulo 2^256; the overflow flag holds exactly when the value is at least 2^256 |
| Compact.GetCompact | src/arith_uint256.cpp:225-246 | the compact form; both assertions hold |
| Compact.OverflowExactly | src/arith_uint256.cpp:218-221 | the three-part test is exact |
| Compact.CompactTruncates | src/arith_uint256.cpp:205-246 | decoding the compact form clears the low bytes beyond the mantissa and nothing else, never negative by itself and never overflowing |
| Compact.CompactStable | src/arith_uint256.cpp:205-246 | the truncated number has the same compact form |
| Compressor.WriteVarInt | src/serialize.h:347-362 | writes the specified bytes |
| Compressor.GetSizeOfVarInt | src/serialize.h:334-345 | the number of bytes written |
| Compressor.ReadVarInt | src/serialize.h:364-376 | reads a number of any length into 32 or 64 bits: its low bits, and nothing when the stream ends first |
| Compressor.ReadWritten | src/serialize.h:347-376 | reading gives back what was written and stops right after it, whatever follows |
| Compressor.CompressThenExpand | src/compressor.cpp:14-135 | every special script comes back from its short form, the key forms by the curve |
| Compressor.ExpandThenCompress | src/compressor.cpp:47-113 | every short form without a point of the curve is that of a special script |
| Compressor.ScriptRoundTrip | src/compressor.h:67-98 | a script comes back exactly when it is special or not too long; any other with a 32-bit size becomes OP_RETURN, and reading stops at its end |
| Compressor.OutRoundTrip | src/compressor.h:115-127 | an output comes back exactly when its script does and its amount has a 64-bit code; in no case is it taken for a spent one |
| CoinsSerialize.CalcMaskSize | src/coins.cpp:20-36 | the last used mask byte and the number of non-zero ones |
| CoinsSerialize.MaskEnds | src/coins.h:220-231 | counting non-zero bytes tells exactly where the mask ends |
| CoinsSerialize.SomethingLeft | src/coins.h:182-187 | the assertion before writing holds, and the mask covers every output |
| CoinsSerialize.Serialize | src/coins.h:180-207 | writes the specified bytes |
| CoinsSerialize.GetSerializeSize | src/coins.h:157-178 | the number of bytes written |
| CoinsSerialize.Unserialize | src/coins.h:209-241 | what was written is read back to its last byte, unchanged but for outputs whose script is too long |
| CoinsSerialize.UnchangedExactly | src/coins.h:180-241 | a value comes back unchanged exactly when every unspent output survives |
| AddrMan.AddrManager.constructor | src/addrman.h:442-465 | a fresh manager is empty and its indexes agree |
| AddrCheck.AgreedPasses | src/addrman.cpp:397-471 | Check_ gives 0 in every state whose indexes agree and whose times are in order, as every operation keeps them |
| AddrCheck.NewButGone | src/addrman.cpp:283-311 | two addresses with one cell: adding the second reports it as new, and it is not there |
| MerkleBlock.PartialMerkleTree.Read | src/merkleblock.h:89-99 | the tree has the given parts, bit p of the bytes as flag p |
| MerkleBlock.PartialMerkleTree.Write | src/merkleblock.h:89-105 | the parts of the tree, its flags packed and padded with zeros |
| Amounts.CompressAmount | src/compressor.cpp:143-160 | the code of an amount cut to 64 bits, and the code itself for amounts up to MAX_MONEY |
| Amounts.DecompressAmount | src/compressor.cpp:162-186 | the amount of a code cut to 64 bits |
| Amounts.NoCoincidence | src/compressor.cpp:143-186 | an amount that was cut to 64 bits never has the code it came from |
| Amounts.CompressThenDecompress | src/compressor.cpp:143-186 | in 64 bits, an amount comes back exactly when its code fits, as that of every amount up to MAX_MONEY does |
| Amounts.DecompressThenCompress | src/compressor.cpp:143-186 | in 64 bits, a code comes back exactly when the amount it stands for fits |
| Amounts.WrappingCode | src/compressor.cpp:162-186 | code 184467440740 decompresses to 290448384, whose code is 2614035451 |
| Amounts.NeverMinusOne | src/compressor.cpp:162-186 | no code decompresses to the amount -1 that marks a spent output |
| StoredCoins.CoinsSurvive | src/main.cpp:2040-2240 | along every chain that connects, every coin can be stored and comes back unchanged |
| StoredCoins.RunCoinsSurvive | src/main.cpp:2403-2528 | the same after every run of storing, connecting and disconnecting blocks |
| StoredCoins.StoreAndLoad | src/coins.h:157-241 | writing then reading uses exactly the computed size, and gives the same value exactly when every unspent output survives |
| StoredCoins.LongScriptIsLost | src/compressor.h:67-98 | a stored output with a script of 10,001 bytes comes back with the script OP_RETURN |
| ArithUint256.SquareInPlace | src/arith_uint256.cpp:68-82 | 3 multiplied by itself in place is 0 |
| Base58.CheckRoundTrip | src/base58.cpp:116-140 | encoding with a checksum and decoding the text returns the bytes |
| MerkleBlock.SendAndExtract | src/merkleblock.cpp:81-182 | built, written, read and extracted: the Merkle root and exactly the marked transactions in order |
| SkipList.HopsBounded | src/chain.cpp:65-99 | from any height below 2^k to any height below it, a walk takes at most MostHops(k) steps; below 2^18 at most 110, as the comment on GetSkipHeight says |
| SkipList.MostHopsIs | src/chain.cpp:65-99 | from 9 bits on that bound is at most (k*k + 8k - 28) / 4 |
| SkipList.MostReached | src/chain.cpp:65-99 | from height 2^18 - 8 down to 2 it takes 110 steps, so the bound is the best |
| Reflection.FromTxShows | src/coins.h:91-97 | the coins of a transaction have exactly its spendable outputs, its height and whether it is a coinbase |
| Reflection.CoinsStep | src/main.cpp:1571-1603 | if the coin set holds exactly the unspent outputs of a history, it does so after one more transaction, with contents, height and coinbase flag of each |
| Reflection.NullifiersStep | src/main.cpp:1594-1599 | the nullifier set holds exactly the nullifiers disclosed in the history |
| Reflection.CommitmentsAreNotes | src/main.cpp:2167-2172 | the notes appended are, by position, those of the JoinSplits in order |
| Reflection.AnchorsStep | src/coins.cpp:148-173 | the anchors are exactly the roots after each number of blocks, the best anchor that of the whole chain |
| Consensus.TxFormed | src/main.cpp:872-1033 | the context-free checks, spelled out with their numbers |
| Consensus.BlockFormed | src/main.cpp:3042-3054 | the same for a block: its first transaction and no other is a coinbase |
| Consensus.SubsidyExactly | src/main.cpp:1404-1417 | the subsidy is the number s with s * 2^k <= 50 coins < (s + 1) * 2^k after k halvings, and 0 from the 64th on |
| Consensus.FundsExactly | src/main.cpp:1646-1663 | an input passes exactly if some earlier transaction made the output, none since has spent it, and, for a coinbase, 100 blocks have passed |
| Consensus.JoinSplitsExactly | src/coins.cpp:396-428 | JoinSplits pass exactly if their nullifiers are new in the history and their anchors are roots after some number of blocks or of an earlier JoinSplit |
| Consensus.JoinsExactly | src/main.cpp:1627-1693 | a transaction passes the checks against the state exactly if the history allows it |
| Consensus.ConnectsExactly | src/main.cpp:2040-2240 | a chain connects exactly if each block follows the rules of module Ledger given the blocks before it; the state is then what the history says |
| ChainFacts.PayerOf | src/main.cpp:2079-2086 | an input is paid for by the most recent transaction with the id it names, which is mature if it is a coinbase |
| ChainFacts.CoinbaseMatures | src/main.cpp:1646-1663 | along every chain that connects, an input naming the coinbase of block g is in a block at least 100 higher, and where coinbases are protected its transaction has no outputs |
| ChainFacts.RewardLimit | src/main.cpp:2187-2192 | a block that meets all other rules connects exactly if its coinbase claims at most the fees plus the reward |
| ChainFacts.BestAnchorCounts | src/main.cpp:2167-2177 | the best anchor is the root of a tree with two notes for each JoinSplit above the genesis block |
| ChainFacts.NoteAt | src/main.cpp:2167-2177 | each commitment is in that tree where the JoinSplits before it leave it, in block, transaction and JoinSplit order |
| ChainFacts.NothingUnspendable | src/coins.h:122-128 | no reachable coin set keeps an output that no script can spend |
| Redo.UndoInputExactly | src/main.cpp:1837-1861 | undoing an input succeeds exactly for what spending that output leaves, and gives the coins before |
| Redo.UndoInputsExactly | src/main.cpp:1914-1924 | the same for all inputs of a transaction |
| Redo.RedoTx | src/main.cpp:1884-1924 | a transaction taken back cleanly can be applied again and gives the same coins and undo data |
| Redo.SpentAreRecords | src/main.cpp:1571-1592 | the undo data that spending writes is of the kind that can be read back |
| Redo.DisconnectedCanReturn | src/main.cpp:1863-1939 | a block is disconnected cleanly only from a state that it left: applied again, its transactions give back the coins and the undo data |
| MerkleProof.ReadPart | src/merkleblock.cpp:99-133 | reading the bits and hashes of a partial tree gives its root and marked transactions and uses exactly those; it fails exactly if two siblings are equal |
| MerkleProof.PartRead | src/merkleblock.cpp:99-133 | whatever is read without failure spells out a partial tree of the right form |
| MerkleProof.ExtractedExactly | src/merkleblock.cpp:151-182 | a root is returned exactly for bits and hashes that spell out such a tree and nothing more than padding |
| MerkleProof.LeftoversRejected | src/merkleblock.cpp:174-180 | with any more hashes, or 8 or more bits, what was accepted is rejected |
| MostWork.LeadsUsable | src/main.cpp:105-124 | the greatest candidate leads all usable ones in work, and at equal work in sequence number |
| Linking.BreadthStep | src/main.cpp:2852-2883 | linking goes level by level and never before the parent |
| Linking.NewIdsLater | src/main.cpp:2868-2872 | blocks linked now get larger sequence numbers than any block before, so an earlier one keeps its place |
| AddrTables.TerribleExactly | src/addrman.cpp:33-52 | an address is terrible exactly if it is not worth giving away, as that is written out for GetAddr |
| AddrMan.RefreshedOnce | src/addrman.cpp:254-262 | news of a known address never makes it look older, and the same news twice is the same as once |
| CheckQueue.BatchIs | src/checkqueue.h:106-111 | a batch is the largest number of checks within the batch size and an equal share, and at least one |
| Amounts.CompressedForm | src/compressor.cpp:132-160 | the code of every amount below nine zeros, as the format is described |
| Amounts.CompressedRound | src/compressor.cpp:132-160 | the code of 0 and of every amount with nine zeros or more |
| Vectors.AmountVectors | src/test/compress_tests.cpp:43-48 | the six amounts with their codes |
| Vectors.VarIntVectors | src/test/coins_tests.cpp:830-833 | numbers and their bytes |
| Vectors.SecondOutput | src/test/coins_tests.cpp:776-787 | the bytes of coins with one of two outputs left, for any key hash |
| Vectors.TwoOfSeventeen | src/test/coins_tests.cpp:789-803 | the bytes of a coinbase with two of 17 outputs left, for any key hashes |
| Vectors.SmallestCoins | src/test/coins_tests.cpp:809-818 | the bytes of the smallest coins |
| Vectors.OneByte | src/test/data/base58_encode_decode.json:3-3 | the text of one byte |
| Vectors.ThreeBytes | src/test/data/base58_encode_decode.json:4-4 | the text of three bytes |
| Vectors.FourBytes | src/test/data/base58_encode_decode.json:12-12 | the text of four bytes |
| Vectors.OnlyZeros | src/test/data/base58_encode_decode.json:13-13 | as many ones as zero bytes, for any number of them |
| Vectors.SpacesSkipped | src/test/base58_tests.cpp:70-74 | a text between any white space decodes to its bytes |
| Vectors.CompactToNumber | src/test/arith_uint256_tests.cpp:484-539 | compact numbers, their values, signs and overflow |
| Vectors.NumberToCompact | src/test/arith_uint256_tests.cpp:484-526 | numbers and their compact forms |
| AddrMan.BlockedExactly | src/addrman.cpp:289-308 | a cell is blocked exactly if another entry holds it that is worth giving away, unless the newcomer has no cell and that entry has another |
| AddrCheck.CheckExactly | src/addrman.cpp:397-471 | Check_ passes exactly if all indexes agree and the times are in order, but for addresses without entry, the next id and the number of buckets, which it does not look at |
| AddrStore.SavedForm | src/addrman.h:260-329 | the header of the stream with its numbers, then every new entry, every tried one, and a count for each of 1024 buckets |
| AddrTables.WithinTables | src/addrman.h:133-155 | 256 tried and 1024 new buckets of 64 places, and at most 8 places for an address |
| MerkleBlock.BitIsShifted | src/merkleblock.h:93-104 | flags are counted from the lowest bit of a byte |
| AddrMan.ChanceToGrow | src/addrman.cpp:264-281 | an entry with N cells may get another for exactly one of 2^N random numbers, if it is new, there is news and N is less than 8 |

## Left out

Not modelled, because it is plumbing, foreign code, or would only add easy members:

- Network messages, peer scoring, RPC, wallet, mempool, metrics and start-up.
- Disk files, LevelDB, flush timing and block-file pruning: storage is a map that returns what was written.
- Script evaluation, signatures, zero-knowledge proofs, proof of work and hashing: functions that are parameters, injective where a result says so.
- Reject reasons, misbehaviour scores, log lines, fork warnings, `pindexBestInvalid` and `pindexBestHeader`.
- System errors and failures of the corruption kind, after which a block is not marked as failed.
- `InvalidateBlock` and `ReconsiderBlock`.
- `CAddrMan::Clear` on a manager that is not empty, `GetChance` and `Select_`.
- `limitedmap`, `mruset`, bloom filters, orphan maps, the key store and the asynchronous RPC queue.
- Hexadecimal text and floating-point values of 256-bit numbers, and the address types built on Base58.
- The remark of `merkleblock.h` that a tree has at most 2*N-1 bits: nodes with a single child on the right edge can exceed it.

Stated or modelled with a limit:

- Linking.OutOfOrderLinking: for runs in which no block has failed, because the code does not record a block that arrives under a failed parent; `Linking.GoodIsLinked` covers runs with failures.
- CheckQueue.CheckQueueProtocol: a sleeping worker may wake at any step, so which worker `notify_one` picks, and that it wakes soon, is not modelled; the checks of one batch run as one step.
- CoinsCache.CoinsViewCache.Flush: the child is the only one who changes the level below while it lives.
- MostWork.FindMostWorkChain: works on values (index, candidates, unlinked blocks) that `ChainState.State` stores back, not on shared objects, so aliasing of index entries is not captured.
- MostWork.PruneBlockIndexCandidates: works on values in the same way.
- BlockTree.GetAncestor: index entries are values under their hash, so pointer aliasing between them is not captured.
- AddrMan.AddrManager.Add: the two tables are maps from cell to id, a missing cell standing for -1, and nothing is said about their memory layout.
- AddrStore.Serialize: produces a sequence of fields; the bytes of a single field are not modelled.
- AddrLoad.Unserialize: reads such a sequence into a value rather than into an existing object; a negative count is a failed read.
- ArithUint256.Uint256.AddAssign: the limbs are a sequence in a field that the loops update, as `MulAssign` and the others do; the array itself is not shared.
- Compressor.ScriptRoundTrip: which keys of 65 bytes are points of the curve, and the full form of a key of 33 bytes, are parameters that fit together (`IsCurve`); the other special scripts are modelled byte by byte.
- CoinsSerialize.Unserialize: an `int` that overflows while it is read, undefined in the source, is taken to wrap.
- StoredCoins.CoinsSurvive: for blocks whose fields have the values of their types (bytes, 32-bit numbers), which numbers without bounds do not ensure.
- Supply.SupplyCap: bounds coins plus pool, and the coins alone when the pool is not negative; that it never is depends on the JoinSplit proofs, which are not modelled.
