# Pool, chain and node proofs

A Dafny 4.11 model of the hard state in this repository, with proofs about it. `dafny verify dfyconfig.toml` checks
the whole project.

**The transaction pool** (`TxPools`, `PoolRuns`). One set of transactions is seen through per-account pending lists,
per-account queues, a lookup with slot counts, a lazily cleaned price heap and a table of virtual nonces. Every
operation that adds, replaces, promotes, demotes, truncates or resets is a method of class `TxPool`; `Valid` says the
views describe one set, `Covers` that the heap misses no remote transaction, and `Aligned` how the nonces of every
account line up. Inside a run the nonces pass through weaker stages (`PoolNonces`): `Calm` between calls, `Moving`
after a head change until promotion, `Trimming` while lists are cut. The ghost parameters `stage` and `before` say
which stage holds and what the state nonces were; stage `Any` asks nothing, so the same method serves histories in
which nonces do not line up. What single steps and whole batches do to the views is stated on values: `PoolViews` and
`PoolSteps` for one account, `PoolChanges` for the operations, `PoolTurns` for batches, `PoolTruncation` and
`PoolQueues` for the two truncations. `PoolGaps` holds the exact conditions under which an account fails to line up or
an executable transaction is left waiting, `PoolResets` ties them to whole runs of the pool, and `PoolReorgs` to the
two heads a run starts from. `PoolExamples` and `PoolOverruns` run a new pool into each of the places where the
obvious statement fails.

**Below and above the pool.** `SortedMaps` is the nonce map with its heap and sorted cache, `TxLists` the list with
its caps, `PricedLists` the lookup and the price heap, `Noncers` the virtual nonces, `Heaps` the binary heap under
all of them. `Schedulers` is the loop that coalesces requests into runs, as a state machine over its events, down to
its shutdown.

**Chains.** `Chains` defines headers, parent walks and canonical indexes. `HeaderChains` writes header batches,
rewinds and finds ancestors; `Blockchains` keeps the number and transaction indexes through reorganisations;
`ChainIndexers` processes sections without the lock; `HashFns` is the cached ancestor-hash function. A hash is
modelled as the header it was taken of.

**The Python node.** `Framing` is the padded message framing, `Utxos` and `FullNodes` transaction verification and
replacement of the valid chain.

Places where the obvious statement is false of the code, each with the exact condition and an input:

- after a head change the nonces of an account fail to line up exactly when its transaction at the state nonce is
  payable and another one behind the first gap outlives demotion, or that transaction is missing or unpayable and
  something is promoted, or the list is cut to more than its first gapless run (`PoolResets.FollowHead`,
  `PoolGaps.LinedExactly`); from an account without a gap this takes a disabled gas price (`PoolGaps.PricelessReset`;
  input `PoolExamples.PricelessInput`) or a lowered state nonce (`PoolGaps.LoweredReset`; input
  `PoolExamples.LoweredInput`);
- after a head change an executable transaction is left in the queue exactly when it survives sweeping, everything
  executable before it can be paid, the queue cap is not zero, and the truncations spare it and all before it
  (`PoolResets.FollowHead`, `PoolGaps.WaitsExactly`); it then follows payable pending ones that survive, or
  reinjection has evicted a mined one and the virtual nonce has fallen below the state nonce (`PoolGaps.StalledReset`;
  inputs `PoolExamples.StalledInput`, `PoolExamples.StrandedInput`); only the second kind can outlast the next
  promotion of its sender (`PoolResets.FollowDirty`);
- making room in a full pool can free too little, because the price heap may hold a transaction twice: it frees enough
  exactly when the shortest prefix of the heap that covers the missing slots does so without its repetitions
  (`TxPools.TxPool.MakeRoom`, `PricedLists.FreesLessRepeats`; input `PoolOverruns.OverrunInput`);
- transactions that leave the chain, all blocks being stored, are not brought back exactly when the heads are more than
  64 apart in number (`PoolReorgs.BringsBackWhatLeft`; input `PoolReorgs.FarInput`);
- a channel handed out by the scheduler is closed without a run exactly when the loop is shut down before that run
  starts (`Schedulers.Scheduler.ClosedMeansServed`; input `Schedulers.ShutdownRun`);
- re-importing known headers can move the head past the canonical index (`HeaderChains.HeaderChain.WriteHeaders`; input
  `HeaderChains.KnownTieInput`);
- `SetHead` at or above the head leaves higher side-chain headers in place (`HeaderChains.HeaderChain.SetHead`; input
  `HeaderChains.LeftoverInput`);
- a reorganisation to a single lower block, or to an ancestor, leaves stale numbers (`Blockchains.IndexAdopts`,
  `Blockchains.BlockChain.WriteBlock`; input `Blockchains.SingleLowerInput`);
- a pending chain that is acceptable in index order, but whose first loaded block is not its lowest, is taken over into
  a malformed valid chain (`FullNodes.FullNode.Adopt`; input `FullNodes.MisorderedInput`);
- a pending chain without blocks, or one that continues the valid chain but holds a raising transaction, ends the whole
  call, and the chains after it are not looked at (`FullNodes.FullNode.Adopt`,
  `FullNodes.FullNode.ValidatePendingChains`; input `FullNodes.StoppingInput`);
- messages arrive as sent exactly when none of them is empty, begins or ends with the padding character, or makes an
  early end mark (`Framing.FaithfulIffAllClean`; inputs `Framing.UncleanInputs`).

## Model

| member | source | states |
|---|---|---|
| `Heaps.RootIsLeast` | programming_assignments/PA3/scriptSetupV2/quorum/core/tx_list.go:31-49 | the root of a heap is below every entry, for any total preorder |
| `Heaps.Up` | programming_assignments/PA3/scriptSetupV2/quorum/core/tx_list.go:31-49 | sifting up restores the heap order after a push and only permutes |
| `Heaps.Down` | programming_assignments/PA3/scriptSetupV2/quorum/core/tx_list.go:31-49 | sifting down restores the heap order below a hole, only permutes, and reports whether anything moved |
| `Heaps.Pop` | programming_assignments/PA3/scriptSetupV2/quorum/core/tx_list.go:31-49 | pop returns a least entry and leaves a heap of exactly the other entries |
| `Heaps.Remove` | programming_assignments/PA3/scriptSetupV2/quorum/core/tx_list.go:167-184 | removing at any position leaves a heap of exactly the other entries |
| `Heaps.Init` | programming_assignments/PA3/scriptSetupV2/quorum/core/tx_list.go:113-122 | heapifying yields a heap with the same entries |
| `Heaps.Sort` | programming_assignments/PA3/scriptSetupV2/quorum/core/tx_pool.go:1440-1445 | the result is a sorted permutation |
| `Transactions.FlattenLists` | programming_assignments/PA3/scriptSetupV2/quorum/core/tx_list.go:215-228 | nonce order lists every entry of the map exactly once, ascending |
| `Transactions.FlattenIsUnique` | programming_assignments/PA3/scriptSetupV2/quorum/core/tx_list.go:215-228 | the ascending listing of a map is unique |
| `Transactions.LowestSplits` | programming_assignments/PA3/scriptSetupV2/quorum/core/tx_list.go:142-165 | the kept nonces are all below the dropped ones |
| `SortedMaps.SortedMap.Put` | programming_assignments/PA3/scriptSetupV2/quorum/core/tx_list.go:72-78 | one entry changes, the index holds each key once, as a heap, and the cache is gone |
| `SortedMaps.SortedMap.Forward` | programming_assignments/PA3/scriptSetupV2/quorum/core/tx_list.go:83-99 | removes exactly the nonces below the threshold and returns them in nonce order; a kept cache stays the sorted map |
| `SortedMaps.SortedMap.Filter` | programming_assignments/PA3/scriptSetupV2/quorum/core/tx_list.go:104-111 | keeps exactly the entries the filter passes, returns exactly the others, and rebuilds the index |
| `SortedMaps.SortedMap.FilterItems` | programming_assignments/PA3/scriptSetupV2/quorum/core/tx_list.go:124-138 | the same without rebuilding the index |
| `SortedMaps.SortedMap.Cap` | programming_assignments/PA3/scriptSetupV2/quorum/core/tx_list.go:142-163 | keeps the lowest nonces up to the threshold, returns exactly the rest, and shortens the cache to match |
| `SortedMaps.LowestStep` | programming_assignments/PA3/scriptSetupV2/quorum/core/tx_list.go:142-163 | dropping the highest nonce is one step of capping |
| `SortedMaps.SortedMap.Remove` | programming_assignments/PA3/scriptSetupV2/quorum/core/tx_list.go:167-184 | removes one nonce from items, index and cache, and says whether it was there |
| `SortedMaps.SortedMap.Ready` | programming_assignments/PA3/scriptSetupV2/quorum/core/tx_list.go:193-208 | removes exactly the maximal consecutive run from the lowest nonce when that is at most `start` |
| `SortedMaps.SortedMap.FlattenCached` | programming_assignments/PA3/scriptSetupV2/quorum/core/tx_list.go:215-228 | the cache, filled on demand, equals the map in nonce order |
| `SortedMaps.SortedMap.FlattenCopy` | programming_assignments/PA3/scriptSetupV2/quorum/core/tx_list.go:230-236 | always the map in nonce order, whatever happened before |
| `SortedMaps.SortedMap.LastElement` | programming_assignments/PA3/scriptSetupV2/quorum/core/tx_list.go:240-243 | the entry with the highest nonce |
| `TxLists.EarlyExitIsSound` | programming_assignments/PA3/scriptSetupV2/quorum/core/tx_list.go:321-329 | because the caps bound every member, the early exit gives the same list as filtering unconditionally |
| `TxLists.FilterPartitions` | programming_assignments/PA3/scriptSetupV2/quorum/core/tx_list.go:321-350 | kept, overdrawn and cut entries account for every transaction; everything kept can be paid; the caps stay bounds |
| `TxLists.StrictStaysGapless` | programming_assignments/PA3/scriptSetupV2/quorum/core/tx_list.go:308-372 | Forward, Filter, Cap and Remove leave a gapless strict list gapless |
| `TxLists.TxList.Add` | programming_assignments/PA3/scriptSetupV2/quorum/core/tx_list.go:278-301 | inserts unless an entry with the nonce is not outbid by the price bump; returns what it replaced |
| `TxLists.TxList.Forward` | programming_assignments/PA3/scriptSetupV2/quorum/core/tx_list.go:308-310 | exactly the nonces below the threshold leave, in order |
| `TxLists.TxList.Filter` | programming_assignments/PA3/scriptSetupV2/quorum/core/tx_list.go:321-350 | exactly the overdrawn entries are removed and exactly what a strict list loses above them is returned as invalid |
| `TxLists.TxList.Cap` | programming_assignments/PA3/scriptSetupV2/quorum/core/tx_list.go:354-356 | the lowest nonces stay, the rest is returned |
| `TxLists.TxList.Remove` | programming_assignments/PA3/scriptSetupV2/quorum/core/tx_list.go:361-372 | the entry goes; a strict list also gives up and returns everything above |
| `TxLists.TxList.Ready` | programming_assignments/PA3/scriptSetupV2/quorum/core/tx_list.go:381-383 | removes the executable run |
| `TxLists.TxList.LastElement` | programming_assignments/PA3/scriptSetupV2/quorum/core/tx_list.go:404-406 | the entry with the highest nonce |
| `PricedLists.SlotsAdd` | programming_assignments/PA3/scriptSetupV2/quorum/core/tx_pool.go:1712-1733 | the slot sum grows by the slots of the added transaction, in whatever order it is counted |
| `PricedLists.TxLookup.Add` | programming_assignments/PA3/scriptSetupV2/quorum/core/tx_pool.go:1720-1732 | the transaction joins one of the two sets and its slots are counted; the slots stay the sum if and only if it was not in already, or takes none and was in the same set |
| `PricedLists.TxLookup.Remove` | programming_assignments/PA3/scriptSetupV2/quorum/core/tx_pool.go:1735-1752 | the transaction leaves, and `slots` stays the sum over all |
| `PricedLists.TxLookup.RemoteToLocals` | programming_assignments/PA3/scriptSetupV2/quorum/core/tx_pool.go:1756-1769 | exactly the remote transactions of local senders migrate; the whole set is unchanged |
| `PricedLists.TxPricedList.Put` | programming_assignments/PA3/scriptSetupV2/quorum/core/tx_list.go:459-464 | the heap gains exactly this entry and keeps one for every remote transaction |
| `PricedLists.TxPricedList.Removed` | programming_assignments/PA3/scriptSetupV2/quorum/core/tx_list.go:469-478 | counting stale entries and reheaping keep an entry for every remote transaction |
| `PricedLists.TxPricedList.Reheap` | programming_assignments/PA3/scriptSetupV2/quorum/core/tx_list.go:554-563 | the heap becomes exactly the remote set |
| `PricedLists.TxPricedList.Cap` | programming_assignments/PA3/scriptSetupV2/quorum/core/tx_list.go:483-501 | returns, as a set, exactly the remote transactions below the threshold |
| `PricedLists.TxPricedList.Underpriced` | programming_assignments/PA3/scriptSetupV2/quorum/core/tx_list.go:505-524 | true exactly when the remote set is not empty and its minimum price is at least the price asked about |
| `PricedLists.TxPricedList.Discard` | programming_assignments/PA3/scriptSetupV2/quorum/core/tx_list.go:530-551 | the drops are the shortest prefix of the live heap entries in price order that covers the slots, or all of them if that is forced; it succeeds if and only if forced or the live entries cover the slots, and on failure nothing is dropped |
| `PricedLists.SetSlots` | programming_assignments/PA3/scriptSetupV2/quorum/core/tx_list.go:530-551 | as a set, the drops free at most the slots counted over the list, and exactly those if and only if none comes twice, every transaction taking a slot |
| `PricedLists.OnceFrees` | programming_assignments/PA3/scriptSetupV2/quorum/core/tx_list.go:530-551 | if nothing is in the heap twice, such a prefix frees the slots it covers |
| `PricedLists.FreesLessRepeats` | programming_assignments/PA3/scriptSetupV2/quorum/core/tx_list.go:530-551 | as a set a prefix frees its slots less those of repeated entries, so it frees enough if and only if it covers the slots without its repetitions |
| `PricedLists.SameDrops` | programming_assignments/PA3/scriptSetupV2/quorum/core/tx_list.go:530-551 | stale entries make no difference to it |
| `PoolOverruns.HeldTwiceRun` | programming_assignments/PA3/scriptSetupV2/quorum/core/tx_pool.go:633-720 | a run of a new pool into a heap that holds a transaction twice: it is removed while few entries are stale, and comes back |
| `PoolOverruns.TwiceDropped` | programming_assignments/PA3/scriptSetupV2/quorum/core/tx_list.go:530-551 | what is in the heap twice comes off it twice and frees its slots once |
| `PoolOverruns.OverrunRun` | programming_assignments/PA3/scriptSetupV2/quorum/core/tx_pool.go:650-690 | a newcomer to such a pool, when it is full: only the transaction held twice goes, and the pool ends one slot above its limit |
| `PoolOverruns.OverrunInput` | programming_assignments/PA3/scriptSetupV2/quorum/core/tx_pool.go:650-690 | such an input |
| `Noncers.TxNoncer.Get` | programming_assignments/PA3/scriptSetupV2/quorum/core/tx_noncer.go:45-55 | returns the virtual nonce; filling the cache changes no virtual nonce |
| `Noncers.TxNoncer.Set` | programming_assignments/PA3/scriptSetupV2/quorum/core/tx_noncer.go:59-64 | sets one virtual nonce |
| `Noncers.TxNoncer.SetIfLower` | programming_assignments/PA3/scriptSetupV2/quorum/core/tx_noncer.go:68-79 | lowers one virtual nonce or changes nothing |
| `PoolViews.ConsistentViews` | programming_assignments/PA3/scriptSetupV2/quorum/core/tx_pool.go:225-252 | the lookup holds exactly the pending and queued transactions, each under its sender and nonce; no nonce is in both; no list is empty |
| `PoolViews.AccountChange` | programming_assignments/PA3/scriptSetupV2/quorum/core/tx_pool.go:958-1004 | a change confined to one account keeps the views consistent if it does so for that account |
| `PoolChanges.PendingLeaves` | programming_assignments/PA3/scriptSetupV2/quorum/core/tx_pool.go:975-992 | the views stay consistent when a pending transaction goes and its successors are queued |
| `PoolChanges.RemovedPending` | programming_assignments/PA3/scriptSetupV2/quorum/core/tx_pool.go:975-992 | after a pending removal the later transactions are queued and the views are consistent |
| `TxPools.TxPool.constructor` | programming_assignments/PA3/scriptSetupV2/quorum/core/tx_pool.go:276-330 | an empty pool with consistent views, an empty lookup and virtual nonces equal to state nonces |
| `TxPools.TxPool.EnqueueTx` | programming_assignments/PA3/scriptSetupV2/quorum/core/tx_pool.go:725-760 | enters or outbids in the queue, with lookup and heap updated to match, or refuses and changes nothing |
| `TxPools.TxPool.EnqueueAll` | programming_assignments/PA3/scriptSetupV2/quorum/core/tx_pool.go:984-987 | unchecked re-queueing always succeeds, replaces nothing and leaves lookup and heap alone |
| `TxPools.TxPool.PromoteTx` | programming_assignments/PA3/scriptSetupV2/quorum/core/tx_pool.go:778-808 | moves one transaction to pending and sets the virtual nonce one past it, or drops it |
| `TxPools.TxPool.PromoteAccount` | programming_assignments/PA3/scriptSetupV2/quorum/core/tx_pool.go:1267-1337 | exactly the executable run moves to pending, exactly the stale, unpayable and excess transactions are dropped |
| `TxPools.TxPool.PromoteExecutables` | programming_assignments/PA3/scriptSetupV2/quorum/core/tx_pool.go:1267-1337 | every account named gives up exactly its executable run, the others are untouched; settled accounts stay lined up and have nothing executable left in the queue |
| `TxPools.TxPool.DemoteAccount` | programming_assignments/PA3/scriptSetupV2/quorum/core/tx_pool.go:1474-1526 | exactly the affordable front of the pending list stays; everything payable behind it goes back to the queue without replacing anything |
| `TxPools.TxPool.DemoteUnexecutables` | programming_assignments/PA3/scriptSetupV2/quorum/core/tx_pool.go:1474-1526 | every account keeps exactly its affordable front and gets the rest back in its queue; after a head change each is left with a gapless payable interval from its state nonce |
| `TxPools.TxPool.RemoveListed` | programming_assignments/PA3/scriptSetupV2/quorum/core/tx_pool.go:958-1004 | the transaction leaves all views; a pending one sends its successors back and lowers the virtual nonce to its own |
| `TxPools.TxPool.RemoveTx` | programming_assignments/PA3/scriptSetupV2/quorum/core/tx_pool.go:958-1004 | the same, and the nonces of every account stay lined up |
| `PoolChanges.LocalWaivesFloor` | programming_assignments/PA3/scriptSetupV2/quorum/core/tx_pool.go:545-623 | being local changes the verdict of validation only from underpriced to none, and a remote transaction that passes pays at least the floor |
| `TxPools.TxPool.MakeRoom` | programming_assignments/PA3/scriptSetupV2/quorum/core/tx_pool.go:650-690 | with room nothing happens; a full pool refuses a remote newcomer exactly when no remote transaction is cheaper, or when the live heap entries cover fewer slots than are missing; otherwise it drops the shortest prefix of the heap that covers the missing slots, and what is missing then has fallen by exactly the slots those transactions take; so there is room if nothing in the heap comes twice |
| `TxPools.TxPool.Evict` | programming_assignments/PA3/scriptSetupV2/quorum/core/tx_pool.go:670-690 | remote transactions go cheapest first, none worth more than one that is left and none too many: those of the shortest prefix of the heap that covers the slots; it succeeds if and only if forced or the heap covers the slots, nothing goes on failure, and the slot count falls by what the dropped transactions take, which is less than asked if one of them is in the heap twice |
| `TxPools.TxPool.PlaceListed` | programming_assignments/PA3/scriptSetupV2/quorum/core/tx_pool.go:692-720 | replaces the pending transaction with its nonce if outbid, else enters the queue; refusals change nothing |
| `TxPools.TxPool.MarkLocal` | programming_assignments/PA3/scriptSetupV2/quorum/core/tx_pool.go:708-712 | the account becomes local and exactly the remote transactions of local accounts migrate, unless it was local already |
| `TxPools.TxPool.Add` | programming_assignments/PA3/scriptSetupV2/quorum/core/tx_pool.go:633-720 | the outcome is known, invalid, no room or the verdict of the price bump, exactly; the new transaction joins the set its sender belongs to, exactly the outbid and the evicted ones leave, and a refusal without eviction changes nothing; views, heap and nonces stay in order |
| `TxPools.TxPool.SetGasPrice` | programming_assignments/PA3/scriptSetupV2/quorum/core/tx_pool.go:438-454 | exactly the remote transactions below the threshold are removed |
| `TxPools.TxPool.AddAllTxs` | programming_assignments/PA3/scriptSetupV2/quorum/core/tx_pool.go:908-921 | a batch keeps all invariants and is a sequence of turns, each taken from the views the one before it left; the outcomes are those of the turns, and the dirty accounts exactly the senders of what was accepted without replacing anything |
| `TxPools.TxPool.AddOne` | programming_assignments/PA3/scriptSetupV2/quorum/core/tx_pool.go:633-720 | one turn: a known or invalid transaction changes nothing, for a valid one exactly what makes room goes, and it replaces, enters or is refused |
| `PoolTurns.TurnsAccept` | programming_assignments/PA3/scriptSetupV2/quorum/core/tx_pool.go:908-921 | nothing enters but what was accepted |
| `PoolTurns.TurnsKeep` | programming_assignments/PA3/scriptSetupV2/quorum/core/tx_pool.go:908-921 | whatever a batch brings is refused, in the pool at the end, or dropped or outbid at a later turn |
| `PoolTurns.TurnsBack` | programming_assignments/PA3/scriptSetupV2/quorum/core/tx_pool.go:908-921 | a virtual nonce falls only with a transaction that leaves pending |
| `PoolTurns.TurnsSplit` | programming_assignments/PA3/scriptSetupV2/quorum/core/tx_pool.go:908-921 | what is in the pool afterwards was there before and is local or remote as before, or is new and remote exactly if its sender is not local |
| `PoolTurns.TurnsTake` | programming_assignments/PA3/scriptSetupV2/quorum/core/tx_pool.go:908-921 | with room for all of a batch the lists are those that adding the valid ones one by one leaves |
| `PoolTurns.OutcomesMean` | programming_assignments/PA3/scriptSetupV2/quorum/core/tx_pool.go:908-921 | the dirty accounts and the accepted transactions, told from the outcomes |
| `PoolTurns.TakenStep` | programming_assignments/PA3/scriptSetupV2/quorum/core/tx_pool.go:633-720 | one addition to a pool with room is one step of that |
| `TxPools.TxPool.Reset` | programming_assignments/PA3/scriptSetupV2/quorum/core/tx_pool.go:1240-1261 | moves to the new state with virtual nonces that start over from it and offers what is reinjected turn by turn, or changes nothing when the state is missing |
| `TxPools.TxPool.StartMeans` | programming_assignments/PA3/scriptSetupV2/quorum/core/tx_pool.go:1240-1261 | so nothing but reinjected transactions enters, a virtual nonce falls only with a transaction that leaves pending, and lookup entries keep their kind |
| `TxPools.TxPool.CapOne` | programming_assignments/PA3/scriptSetupV2/quorum/core/tx_pool.go:1376-1391 | the highest pending nonce of one account leaves all views and the virtual nonce falls to it |
| `TxPools.TxPool.Equalize` | programming_assignments/PA3/scriptSetupV2/quorum/core/tx_pool.go:1374-1396 | rounds bring the offenders down together until the total fits or the threshold is reached |
| `TxPools.TxPool.TruncatePending` | programming_assignments/PA3/scriptSetupV2/quorum/core/tx_pool.go:1342-1424 | one level: every non-local account above the guaranteed slots ends with its lowest nonces up to the level, all others are untouched; the total fits or the level is the guarantee; the undershoot is less than the number of accounts actually cut, so one level higher would be too many |
| `PoolTruncation.AllCut` | programming_assignments/PA3/scriptSetupV2/quorum/core/tx_pool.go:1359-1366 | the accounts brought down are no more than those the level cuts |
| `TxPools.TxPool.TruncateQueue` | programming_assignments/PA3/scriptSetupV2/quorum/core/tx_pool.go:1427-1469 | ends with exactly the larger of the limit and the local total; whole queues of the most recently active remote accounts go, at most one is cut to its lowest nonces |
| `PoolTruncation.FillSteps` | programming_assignments/PA3/scriptSetupV2/quorum/core/tx_pool.go:1360-1398 | one more offender keeps all offenders at the common level |
| `PoolTruncation.NoSpammers` | programming_assignments/PA3/scriptSetupV2/quorum/core/tx_pool.go:1401-1420 | levelling to the guaranteed slots leaves no account above them |
| `PoolQueues.SheddingEnds` | programming_assignments/PA3/scriptSetupV2/quorum/core/tx_pool.go:1447-1468 | what the shedding loop leaves is exactly the limit, or the local queues alone |
| `PoolQueues.TopDownFacts` | programming_assignments/PA3/scriptSetupV2/quorum/core/tx_pool.go:1461-1467 | removing from the end of the nonce order leaves exactly the lowest nonces |
| `TxPools.TxPool.UpdateNonces` | programming_assignments/PA3/scriptSetupV2/quorum/core/tx_pool.go:1151-1155 | every virtual nonce with pending transactions is one past the highest |
| `TxPools.TxPool.RunReorg` | programming_assignments/PA3/scriptSetupV2/quorum/core/tx_pool.go:1109-1156 | after a run both limits hold; with the gas price enabled and no nonce lowered the nonces of every account line up again; a run without a head change leaves no dirty account with an executable transaction waiting, unless its virtual nonce was below its state nonce; what promotion began with, what it made of each account, what truncation left and the final virtual nonces are stated exactly, and each transaction in the lookup is local or remote as before, or new and remote exactly if its sender is not local |
| `TxPools.TxPool.TruncatedLists` | programming_assignments/PA3/scriptSetupV2/quorum/core/tx_pool.go:1342-1469 | what the two truncations leave of each account |
| `PoolResets.FollowHead` | programming_assignments/PA3/scriptSetupV2/quorum/core/tx_pool.go:1109-1156 | any run after a head change, whatever the nonces, the gas price and the limits: every account is left exactly as promotion, demotion and truncation of its lists leave it; it is lined up if and only if `LinesUp` holds or, if its list was cut, what is left is no longer than its first gapless run; an executable transaction waits if and only if `Waits` holds and the cuts spare the run before it and the transaction itself |
| `PoolResets.CutExactly` | programming_assignments/PA3/scriptSetupV2/quorum/core/tx_pool.go:1129-1155 | the same for one account as values |
| `PoolResets.FollowsUncut` | programming_assignments/PA3/scriptSetupV2/quorum/core/tx_pool.go:1129-1155 | a run that meets no limit: lined up if and only if `LinesUp`, waiting if and only if `Waits` |
| `PoolResets.FollowDirty` | programming_assignments/PA3/scriptSetupV2/quorum/core/tx_pool.go:1109-1156 | any run without a head change, in a pool whose nonces line up: they line up again; a named account is left with an executable transaction waiting if and only if its virtual nonce was below its state nonce, a queued transaction had that nonce, the queue cap is not zero, and the truncation of the queues spares it |
| `PoolGaps.LinedExactly` | programming_assignments/PA3/scriptSetupV2/quorum/core/tx_pool.go:1129-1155 | promotion, demotion and the final update line an account up if and only if its transaction at the state nonce can be paid and none behind the first gap outlives demotion, or there is no payable one and nothing is promoted; for any lists, any head change and either gas price |
| `PoolGaps.WaitsExactly` | programming_assignments/PA3/scriptSetupV2/quorum/core/tx_pool.go:1129-1155 | an executable transaction is left waiting if and only if it is in the swept queue, everything executable before it can be paid and the queue may hold something; for any lists, any head change and either gas price |
| `PoolGaps.CutLines` | programming_assignments/PA3/scriptSetupV2/quorum/core/tx_pool.go:1342-1424 | an account whose pending list is cut is lined up if and only if what is left is no longer than its first gapless run |
| `PoolGaps.CutWaits` | programming_assignments/PA3/scriptSetupV2/quorum/core/tx_pool.go:1342-1469 | its next nonce still waits if and only if the cut leaves the run before it whole and the queue keeps it |
| `PoolResets.DirtyExactly` | programming_assignments/PA3/scriptSetupV2/quorum/core/tx_pool.go:1267-1337 | promotion of a settled account frees its next nonce unless the account is stranded |
| `PoolResets.FewFit` | programming_assignments/PA3/scriptSetupV2/quorum/core/tx_pool.go:1129-1155 | a run adds no transactions of its own, so few of them never meet a limit |
| `PoolTruncation.TotalsCount` | programming_assignments/PA3/scriptSetupV2/quorum/core/tx_pool.go:1342-1347 | the two totals together count every transaction in the lookup once |
| `PoolNonces.SettledMeans` | programming_assignments/PA3/scriptSetupV2/quorum/core/tx_pool.go:778-808 | lined up means: pending nonces are exactly from the state nonce to the virtual nonce, queued ones are not below |
| `PoolNonces.PromoteSettled` | programming_assignments/PA3/scriptSetupV2/quorum/core/tx_pool.go:1267-1337 | promotion keeps an account lined up |
| `PoolNonces.PromoteRebased` | programming_assignments/PA3/scriptSetupV2/quorum/core/tx_pool.go:1267-1337 | promotion from the new state nonce leaves an interval that demotion can trim |
| `PoolNonces.DemoteAdvanced` | programming_assignments/PA3/scriptSetupV2/quorum/core/tx_pool.go:1474-1526 | demotion turns it into a gapless payable interval |
| `PoolNonces.RemoveAligned` | programming_assignments/PA3/scriptSetupV2/quorum/core/tx_pool.go:975-992 | a pending removal keeps the account lined up at every stage |
| `PoolNonces.CapTrimmed` | programming_assignments/PA3/scriptSetupV2/quorum/core/tx_pool.go:1376-1391 | capping keeps the interval |
| `PoolNonces.TrimmedSettles` | programming_assignments/PA3/scriptSetupV2/quorum/core/tx_pool.go:1151-1155 | the final update closes the gap between the virtual nonce and the interval |
| `PoolGaps.PricelessReset` | programming_assignments/PA3/scriptSetupV2/quorum/core/tx_pool.go:1286-1296 | with the gas price disabled and no nonce lowered, an account without a gap is lined up if and only if its transaction at the state nonce was not an unpayable queued one |
| `PoolGaps.PricedReset` | programming_assignments/PA3/scriptSetupV2/quorum/core/tx_pool.go:1286-1296 | with the gas price enabled and no nonce lowered, an account without a gap is always lined up |
| `PoolGaps.LoweredReset` | programming_assignments/PA3/scriptSetupV2/quorum/core/tx_pool.go:1474-1526 | with the state nonce lowered below the pending ones, an account without a gap is lined up if and only if nothing is promoted, or what is promoted starts payable and no gap follows it: nothing was pending, the run reaches what was, the first of that is unpayable, or the run is cut itself |
| `PoolNonces.PromoteFrees` | programming_assignments/PA3/scriptSetupV2/quorum/core/tx_pool.go:1298-1306 | promotion leaves nothing executable in the queue of a settled account |
| `PoolNonces.ShorterFree` | programming_assignments/PA3/scriptSetupV2/quorum/core/tx_pool.go:1342-1469 | truncation does not strand an executable transaction either |
| `PoolChanges.TruncatedFree` | programming_assignments/PA3/scriptSetupV2/quorum/core/tx_pool.go:1342-1469 | the same for the lists the two truncations leave |
| `PoolGaps.StalledReset` | programming_assignments/PA3/scriptSetupV2/quorum/core/tx_pool.go:1247-1306 | with the gas price enabled and no nonce lowered, an executable transaction of an account without a gap waits if and only if the account is stranded, or payable pending ones survive and their successor was queued: promotion looks from the state nonce, below them |
| `PoolGaps.StrandedReset` | programming_assignments/PA3/scriptSetupV2/quorum/core/tx_pool.go:1298-1306 | promotion from a virtual nonce below the state nonce finds nothing: the transaction at the state nonce stays in the queue if and only if sweeping and the queue cap spare it |
| `PoolExamples.StalledRun` | programming_assignments/PA3/scriptSetupV2/quorum/core/tx_pool.go:1247-1306 | a run that leaves an executable transaction behind a pending one |
| `PoolExamples.StalledInput` | programming_assignments/PA3/scriptSetupV2/quorum/core/tx_pool.go:1247-1306 | such an input: nonces 5 and 6, and a new head that changes nothing |
| `PoolExamples.PricelessRun` | programming_assignments/PA3/scriptSetupV2/quorum/core/tx_pool.go:1286-1296 | a run with the gas price disabled that leaves the virtual nonce beyond an empty list |
| `PoolExamples.PricelessInput` | programming_assignments/PA3/scriptSetupV2/quorum/core/tx_pool.go:1286-1296 | such an input |
| `PoolExamples.LoweredRun` | programming_assignments/PA3/scriptSetupV2/quorum/core/tx_pool.go:1474-1526 | a run with a state nonce lowered by two that leaves an inner gap: both dropped transactions are reinjected, and the second is refused because it pays too little |
| `PoolExamples.LoweredInput` | programming_assignments/PA3/scriptSetupV2/quorum/core/tx_pool.go:1474-1526 | such an input: nonce 5 pending, the state nonce lowered to 3, 3 and 4 reinjected and 4 below the price floor |
| `PoolExamples.StrandedRun` | programming_assignments/PA3/scriptSetupV2/quorum/core/tx_pool.go:1109-1306 | two runs of the pool: in the first reinjection evicts a mined transaction that is still pending, and its successor is executable and stays in the queue; the second, without a head change, does not free it |
| `PoolExamples.StrandedInput` | programming_assignments/PA3/scriptSetupV2/quorum/core/tx_pool.go:1109-1306 | such an input: the reinjected transaction takes three slots with 65537 bytes, half of the size limit |
| `PoolReorgs.TxDifference` | programming_assignments/PA3/scriptSetupV2/quorum/core/types/transaction.go:369-383 | the transactions of one list that are not in another, in order |
| `PoolReorgs.FindDropped` | programming_assignments/PA3/scriptSetupV2/quorum/core/tx_pool.go:1176-1239 | what a head change brings back: nothing for the first head, a child of the old one or heads more than 64 apart; otherwise the transactions of the old branch above the last common block that are not in the new one; it gives up exactly when a block of the branches is missing, or the old head is and the new one is not lower |
| `PoolReorgs.WalkBack` | programming_assignments/PA3/scriptSetupV2/quorum/core/tx_pool.go:1210-1236 | the walk down both branches meets at the last common block, or gives up exactly when a block on the way is missing |
| `PoolReorgs.ForkIsLast` | programming_assignments/PA3/scriptSetupV2/quorum/core/tx_pool.go:1210-1235 | the height at which they meet is that of the last common block |
| `PoolReorgs.BringsBackWhatLeft` | programming_assignments/PA3/scriptSetupV2/quorum/core/tx_pool.go:1176-1239 | with every ancestor stored, exactly the transactions on the old chain and not on the new one are brought back, each once, if and only if the heads are at most 64 apart |
| `PoolReorgs.NothingIsForgotten` | programming_assignments/PA3/scriptSetupV2/quorum/core/tx_pool.go:1176-1239 | over any number of head changes, none too far, a transaction that is on the first chain and not on the last is brought back at one of them |
| `PoolReorgs.FollowReorg` | programming_assignments/PA3/scriptSetupV2/quorum/core/tx_pool.go:1109-1261 | a run from the two heads on: every transaction that leaves the chain has its turn in the pool, where it is refused, stays, or is dropped or outbid later; every account is left as `FollowHead` says; if a block is missing the pool stays at its old head |
| `PoolReorgs.FarInput` | programming_assignments/PA3/scriptSetupV2/quorum/core/tx_pool.go:1183-1187 | a transaction that leaves the chain and is not brought back, because the new chain is 65 blocks longer |
| `PoolRuns.Apply` | programming_assignments/PA3/scriptSetupV2/quorum/core/tx_pool.go:856-921 | every external call keeps the invariants, time passing between calls |
| `PoolRuns.History` | programming_assignments/PA3/scriptSetupV2/quorum/core/tx_pool.go:276-330 | any sequence of calls on a new pool keeps its views consistent and its heap complete; with the gas price enabled and nonces that only climb, all nonces line up at the end |
| `Schedulers.Scheduler.Launch` | programming_assignments/PA3/scriptSetupV2/quorum/core/tx_pool.go:1051-1063 | a run is launched exactly when one is wanted and none is active, with everything gathered so far |
| `Schedulers.Scheduler.OnReset` | programming_assignments/PA3/scriptSetupV2/quorum/core/tx_pool.go:1066-1074 | merges into the next run and hands out its done channel |
| `Schedulers.Scheduler.OnPromote` | programming_assignments/PA3/scriptSetupV2/quorum/core/tx_pool.go:1076-1084 | merges the accounts into the next run and hands out its done channel |
| `Schedulers.Scheduler.OnTxEvent` | programming_assignments/PA3/scriptSetupV2/quorum/core/tx_pool.go:1086-1093 | keeps the event for the next run without asking for one: launch flag, reset and accounts stay as they are |
| `Schedulers.Scheduler.OnShutdown` | programming_assignments/PA3/scriptSetupV2/quorum/core/tx_pool.go:1097-1103 | waits for the active run and closes the channel of the one that will not start |
| `Schedulers.Scheduler.Turn` | programming_assignments/PA3/scriptSetupV2/quorum/core/tx_pool.go:1049-1104 | one turn keeps the invariant and loses no run, request or ticket; after a shutdown nothing happens any more |
| `Schedulers.Scheduler.OneInFlight` | programming_assignments/PA3/scriptSetupV2/quorum/core/tx_pool.go:1051-1063 | at most one run has not closed its channel |
| `Schedulers.Scheduler.ClosedMeansServed` | programming_assignments/PA3/scriptSetupV2/quorum/core/tx_pool.go:1066-1103 | a handed-out channel that is closed has been closed by a run launched after the request that covers its accounts or head, if and only if it is not the one a shutdown closes |
| `Schedulers.Scheduler.NobodyWaits` | programming_assignments/PA3/scriptSetupV2/quorum/core/tx_pool.go:1097-1103 | a shutdown closes every channel handed out |
| `Schedulers.ShutdownRun` | programming_assignments/PA3/scriptSetupV2/quorum/core/tx_pool.go:1076-1103 | a request made while a run is active and followed by the shutdown: its channel is closed, and no run has served it |
| `Schedulers.RequestsLink` | programming_assignments/PA3/scriptSetupV2/quorum/core/tx_pool.go:352-356 | the requests of the loop form an unbroken chain of heads from the initial one to the one it remembers |
| `Schedulers.Scheduler.ResetRunsLink` | programming_assignments/PA3/scriptSetupV2/quorum/core/tx_pool.go:1066-1074 | coalescing linked requests keeps each reset run starting where the one before it ended |
| `Schedulers.Scheduler.RunsChain` | programming_assignments/PA3/scriptSetupV2/quorum/core/tx_pool.go:1039-1106 | what any linked requests come to: one run in flight, closed channels served but for the one a shutdown closes, reset runs in one chain |
| `Schedulers.Loop` | programming_assignments/PA3/scriptSetupV2/quorum/core/tx_pool.go:333-362 | over any interleaving of chain heads, requests, completions and a shutdown at most one run is in flight, a channel is closed by a run that serves its request or by the shutdown, which leaves nobody waiting, and the reset runs form one chain of heads from the initial one |
| `Chains.WalkIsAncestor` | programming_assignments/PA3/scriptSetupV2/quorum/core/headerchain.go:421-453 | the parent walk and the ancestor at a height agree |
| `Chains.DeleteAbove` | programming_assignments/PA3/scriptSetupV2/quorum/core/headerchain.go:228-234 | deletes exactly the canonical entries above a number |
| `HeaderChains.HeaderChain.StoreBatch` | programming_assignments/PA3/scriptSetupV2/quorum/core/headerchain.go:157-199 | stores exactly the unknown headers, known ones come first, and total difficulties are sums along the chain |
| `HeaderChains.HeaderChain.RestoreBack` | programming_assignments/PA3/scriptSetupV2/quorum/core/headerchain.go:237-247 | rewrites stale entries back to the fork, so that everything up to the parent is its ancestor chain |
| `HeaderChains.HeaderChain.Reindex` | programming_assignments/PA3/scriptSetupV2/quorum/core/headerchain.go:223-263 | what a fork choice leaves in the index |
| `HeaderChains.RemarkedIsIndex` | programming_assignments/PA3/scriptSetupV2/quorum/core/headerchain.go:223-263 | the new index is the ancestor chain of the new head if and only if something was inserted or the new head was canonical already |
| `HeaderChains.HeaderChain.WriteHeaders` | programming_assignments/PA3/scriptSetupV2/quorum/core/headerchain.go:149-280 | parents stay stored, total difficulties are sums, the head's never falls; the index is the head's ancestor chain if and only if there was no fork choice, a new header, or an already canonical head |
| `HeaderChains.KnownTieExample` | programming_assignments/PA3/scriptSetupV2/quorum/core/headerchain.go:206-263 | re-importing a known header of equal difficulty can move the head without marking it |
| `HeaderChains.KnownTieRun` | programming_assignments/PA3/scriptSetupV2/quorum/core/headerchain.go:149-280 | three imports to that state |
| `HeaderChains.KnownTieInput` | programming_assignments/PA3/scriptSetupV2/quorum/core/headerchain.go:149-280 | such headers |
| `HeaderChains.LeftoverRun` | programming_assignments/PA3/scriptSetupV2/quorum/core/headerchain.go:559-636 | imports and a rewind that leave a side chain above the head |
| `HeaderChains.LeftoverInput` | programming_assignments/PA3/scriptSetupV2/quorum/core/headerchain.go:559-636 | such headers |
| `HeaderChains.HeaderChain.NumbersAbove` | programming_assignments/PA3/scriptSetupV2/quorum/core/headerchain.go:596-602 | counting up to the first gap finds everything stored above |
| `HeaderChains.HeaderChain.SetHead` | programming_assignments/PA3/scriptSetupV2/quorum/core/headerchain.go:559-636 | rewinds to the ancestor at the height and deletes exactly what is above; nothing is left above the lower of target and old head if and only if the head moved or nothing was there |
| `HeaderChains.CutFacts` | programming_assignments/PA3/scriptSetupV2/quorum/core/headerchain.go:605-632 | deleting above a height leaves a header chain with its invariants |
| `HeaderChains.HeaderChain.GetAncestor` | programming_assignments/PA3/scriptSetupV2/quorum/core/headerchain.go:421-453 | a result is the plain parent walk's; it is found if and only if the budget covers the steps to the canonical chain, and the budget drops by exactly those |
| `HeaderChains.HeaderChain.CanonicalWalk` | programming_assignments/PA3/scriptSetupV2/quorum/core/headerchain.go:436-442 | below a canonical block the index and the parent walk agree |
| `Blockchains.LookupMeans` | programming_assignments/PA3/scriptSetupV2/quorum/core/blockchain.go:899-900 | the lookup of a chain holds exactly the transactions of its blocks |
| `Blockchains.BlockChain.WriteHeadBlock` | programming_assignments/PA3/scriptSetupV2/quorum/core/blockchain.go:890-917 | number, lookups and markers of one block; the other heads follow only when it was not canonical |
| `Blockchains.BlockChain.FindFork` | programming_assignments/PA3/scriptSetupV2/quorum/core/blockchain.go:2369-2416 | collects both branches down to the last common block, or fails on a missing one; never fails when nothing is missing |
| `Blockchains.BlockChain.WriteBranch` | programming_assignments/PA3/scriptSetupV2/quorum/core/blockchain.go:2434-2442 | the new branch but its top is written |
| `Blockchains.LookupAdopts` | programming_assignments/PA3/scriptSetupV2/quorum/core/blockchain.go:2443-2448 | dropping the old branch's lookups and writing the new one's leaves exactly the new chain's |
| `Blockchains.IndexAdopts` | programming_assignments/PA3/scriptSetupV2/quorum/core/blockchain.go:2449-2464 | the number index is the new chain if and only if no stale entry survives above it |
| `Blockchains.ShortBranch` | programming_assignments/PA3/scriptSetupV2/quorum/core/blockchain.go:2451 | the surviving entries told by a test on the old index |
| `Blockchains.BlockChain.Reorg` | programming_assignments/PA3/scriptSetupV2/quorum/core/blockchain.go:2322-2464 | both indexes become the new head's once it is written, under exactly that condition; an error changes nothing |
| `Blockchains.BlockChain.WriteKnownBlock` | programming_assignments/PA3/scriptSetupV2/quorum/core/blockchain.go:1571-1583 | the same with the head set; the lookup is always exact |
| `Blockchains.BlockChain.WriteBlock` | programming_assignments/PA3/scriptSetupV2/quorum/core/blockchain.go:1622-1764 | the fork choice is exactly total difficulty, then number, then preservation or the coin; the head's total difficulty never falls, the indexes follow under exactly that condition, a block that loses or whose state is not committed changes nothing but the store, and nothing fails while every ancestor is stored |
| `Blockchains.SingleLowerExample` | programming_assignments/PA3/scriptSetupV2/quorum/core/blockchain.go:2449-2464 | one heavier block below the old head leaves a stale entry behind |
| `Blockchains.SingleLowerRun` | programming_assignments/PA3/scriptSetupV2/quorum/core/blockchain.go:1622-1764 | three imports to that state |
| `Blockchains.SingleLowerInput` | programming_assignments/PA3/scriptSetupV2/quorum/core/blockchain.go:1622-1764 | such blocks |
| `ChainIndexers.ChainIndexer.NewHead` | programming_assignments/PA3/scriptSetupV2/quorum/core/chain_indexer.go:243-299 | what a head or a reorganisation does to known and stored sections |
| `ChainIndexers.ChainIndexer.ProcessSection` | programming_assignments/PA3/scriptSetupV2/quorum/core/chain_indexer.go:388-418 | a section processed without error ends exactly one section size of generations after the last head, whatever reorganisations interleave |
| `ChainIndexers.ChainIndexer.Update` | programming_assignments/PA3/scriptSetupV2/quorum/core/chain_indexer.go:317-368 | stored section heads stay linked through unlocked processing, whatever chain moves, head events and queries interleave; an undisturbed round adds a canonical section |
| `ChainIndexers.ChainIndexer.Interfere` | programming_assignments/PA3/scriptSetupV2/quorum/core/chain_indexer.go:243-299 | events while the lock is not held only give up sections |
| `ChainIndexers.LastVouches` | programming_assignments/PA3/scriptSetupV2/quorum/core/chain_indexer.go:420-429 | if the last section head is canonical, so is every one before it |
| `ChainIndexers.ChainIndexer.VerifyLastHead` | programming_assignments/PA3/scriptSetupV2/quorum/core/chain_indexer.go:422-429 | afterwards every stored section head is canonical, and none was given up if all were |
| `ChainIndexers.ChainIndexer.Sections` | programming_assignments/PA3/scriptSetupV2/quorum/core/chain_indexer.go:434-440 | reports only canonical section heads |
| `ChainIndexers.ReorgKeepsCanonical` | programming_assignments/PA3/scriptSetupV2/quorum/core/chain_indexer.go:248-274 | the sections kept after a reorganisation stay canonical |
| `ChainIndexers.ChainIndexer.DropSections` | programming_assignments/PA3/scriptSetupV2/quorum/core/chain_indexer.go:479-491 | gives up exactly the sections from a number on |
| `ChainIndexers.ChainIndexer.StoreSection` | programming_assignments/PA3/scriptSetupV2/quorum/core/chain_indexer.go:479-514 | one more linked section head |
| `HashFns.HashFn.Get` | programming_assignments/PA3/scriptSetupV2/quorum/core/evm.go:93-117 | for every 64-bit number the ancestor's hash, or the zero hash if the parent walk does not reach it, on any sequence of calls |
| `HashFns.HashFn.CacheFacts` | programming_assignments/PA3/scriptSetupV2/quorum/core/evm.go:89-101 | cached hashes are consecutive ancestors |
| `HashFns.HashFn.Extend` | programming_assignments/PA3/scriptSetupV2/quorum/core/evm.go:107-113 | the cache grows by exactly the next ancestor |
| `Framing.MuxMsg` | programming_assignments/PA1/network.py:118-126 | packets of exactly the packet size that join to message, end mark and padding |
| `Framing.Node.Receive` | programming_assignments/PA1/network.py:79-90 | whatever arrives later, delivered messages and buffer together are the stream's messages |
| `Framing.ParseSplits` | programming_assignments/PA1/network.py:84-90 | splitting the buffer is splitting the stream |
| `Framing.Listen` | programming_assignments/PA1/network.py:70-92 | any chunking of any stream delivers the same messages |
| `Framing.FaithfulIffAllClean` | programming_assignments/PA1/network.py:70-126 | messages sent one after another parse to themselves if and only if every one of them is clean: not empty, no padding character at either end, no early end mark |
| `Framing.UncleanIsLost` | programming_assignments/PA1/network.py:70-126 | a message that is not clean never comes out first, whatever follows it |
| `Framing.ParseFramed` | programming_assignments/PA1/network.py:70-126 | a clean message comes out first and unchanged, whatever follows it |
| `Framing.FaithfulIffClean` | programming_assignments/PA1/network.py:70-126 | the same for a single message |
| `Framing.UncleanInputs` | programming_assignments/PA1/network.py:70-126 | two messages that do not come through |
| `Framing.RoundTrip` | programming_assignments/PA1/network.py:70-126 | messages arrive exactly as sent, in any chunks, if and only if every one of them is clean |
| `FullNodes.FullNode.VerifyTransaction` | programming_assignments/PA1-solution/student-skeleton-code-solution/FullNode.py:47-108 | accepts exactly valid transactions and raises exactly when an input or an output names a key that holds a mark; a rejected one leaves the pending database unchanged; only overspenders are marked corrupt |
| `Utxos.RaisedIsNotSpent` | programming_assignments/PA1-solution/student-skeleton-code-solution/FullNode.py:68-89 | a transaction whose inputs raise is not spent |
| `Utxos.Conservation` | programming_assignments/PA1-solution/student-skeleton-code-solution/FullNode.py:57-103 | a transaction creates no value beyond the coinbase reward |
| `Utxos.SpendMovesAll` | programming_assignments/PA1-solution/student-skeleton-code-solution/FullNode.py:68-89 | what leaves the database is exactly what was received |
| `Utxos.MarksGrow` | programming_assignments/PA1-solution/student-skeleton-code-solution/FullNode.py:59-66 | marks stay, and a coinbase mark was not there before |
| `Utxos.Supply` | programming_assignments/PA1-solution/student-skeleton-code-solution/FullNode.py:47-108 | over any calls the unspent value is at most the reward times the accepted coinbases |
| `Utxos.CoinbasesAreDistinct` | programming_assignments/PA1-solution/student-skeleton-code-solution/FullNode.py:59-66 | no coinbase id is accepted twice |
| `Utxos.CoinWithinSupply` | programming_assignments/PA1-solution/student-skeleton-code-solution/FullNode.py:47-108 | with no negative outputs every coin is within the supply |
| `FullNodes.FullNode.VerifyAll` | programming_assignments/PA1-solution/student-skeleton-code-solution/FullNode.py:47-108 | any sequence of calls from an empty database follows the specification |
| `FullNodes.FullNode.ChecksOut` | programming_assignments/PA1-solution/student-skeleton-code-solution/FullNode.py:355-392 | accepts exactly chains that continue the valid chain in hash, index and difficulty |
| `FullNodes.RaisingBlocksFail` | programming_assignments/PA1-solution/student-skeleton-code-solution/FullNode.py:404-432 | blocks that raise an exception do not play |
| `FullNodes.FullNode.PlayBlock` | programming_assignments/PA1-solution/student-skeleton-code-solution/FullNode.py:423-432 | one to five transactions, all valid in order; raises exactly when one of them does before any is found invalid |
| `FullNodes.FullNode.VerifyChain` | programming_assignments/PA1-solution/student-skeleton-code-solution/FullNode.py:319-440 | accepts exactly what continues, replays and lengthens the valid chain, and raises exactly when a chain that continues it holds a raising transaction |
| `FullNodes.AdoptedChain` | programming_assignments/PA1-solution/student-skeleton-code-solution/FullNode.py:303-312 | an adopted chain is well formed, longer, and replays from an empty database |
| `FullNodes.SplicedBadly` | programming_assignments/PA1-solution/student-skeleton-code-solution/FullNode.py:302-312 | a pending chain loaded out of order is spliced into a malformed chain |
| `FullNodes.OnlySorted` | programming_assignments/PA1-solution/student-skeleton-code-solution/FullNode.py:300-306 | some order of the loaded blocks is acceptable, or raises, if and only if their index order does |
| `FullNodes.Misordered` | programming_assignments/PA1-solution/student-skeleton-code-solution/FullNode.py:284-314 | two linked blocks loaded in the wrong order are adopted |
| `FullNodes.MisorderedInput` | programming_assignments/PA1-solution/student-skeleton-code-solution/FullNode.py:284-314 | such blocks on a well-formed valid chain |
| `FullNodes.FullNode.Adopt` | programming_assignments/PA1-solution/student-skeleton-code-solution/FullNode.py:284-314 | the valid chain is replaced if and only if the first block loaded is within reach and some order of the loaded blocks continues it, replays and is longer; the call ends in an exception if and only if no block was loaded or such an order holds a raising transaction, and then nothing changes; a new chain is longer, and it is well formed if and only if nothing was replaced or the lowest block was loaded first |
| `FullNodes.FullNode.ValidatePendingChains` | programming_assignments/PA1-solution/student-skeleton-code-solution/FullNode.py:269-317 | the pending chains are considered in turn, all of them or up to the first that ends the call in an exception; the valid chain is kept or grows; if each considered starts with its lowest block it stays well formed and replays |
| `FullNodes.StoppingInput` | programming_assignments/PA1-solution/student-skeleton-code-solution/FullNode.py:284-314 | two pending chains of which the first ends the call, although the second is acceptable |
| `FullNodes.FirstBreaks` | programming_assignments/PA1-solution/student-skeleton-code-solution/FullNode.py:284-314 | then none is considered |

## Left out

- Lists inside `TxPool` are values of type `TxListValue`; class `TxLists.TxList` refines the same functions on the heap-backed map, so aliasing between the pool and its list objects is not captured.
- Nonces, gas and prices are unbounded naturals: wrap-around at the top of the 64-bit range is not modelled in the pool. 64-bit arithmetic is explicit in `HashFns` and `ChainIndexers.ChainIndexer.Sections`.
- Hashes are collision free: a transaction stands for its hash and the sender it recovers to, a header for its hash, a block's transactions are a function of its header.
- Type, signature and permission of a transaction are given as booleans to `PoolChanges.Validate`, and its intrinsic gas as a number, one for each check at its place in the source's order, because they rest on packages outside the pool. The size limit of the chain configuration is one constant.
- TxPools.TxPool.Reset: takes the transactions to reinject as an input, and a head whose state is missing stands for all the cases in which the source returns early; `PoolReorgs.FollowReorg` finds them from the two heads.
- PoolReorgs.FollowReorg: the store does not change during the walk, the new head's block and state are there, and the case of no new head is left out, as it arises in tests only.
- TxPools.TxPool.constructor: the state of the first head is there; a start without it leaves the source with no state at all.
- TxPools.TxPool.RunReorg: whether the gas price counts is a parameter, as the chain configuration decides it.
- The number of stale heap entries other than after additions and removals, metrics, logging, journals, event feeds and tickers. Time stands still within a call and passes between calls, and queues are not given up for having been idle too long (tx_pool.go:375-393).
- TxPools.TxPool.DemoteAccount: invalidated transactions are re-queued in nonce order, while the source's order is that of a map iteration; they have different nonces, so the result is the same.
- Schedulers.Scheduler.Turn: requests made after a shutdown are not modelled; they get the shutdown channel instead of one of a run.
- HeaderChains.HeaderChain.WriteHeaders: batches are validated (linked, numbered, positive difficulty), the database write is atomic and not interrupted, and caches are transparent.
- HeaderChains.HeaderChain.SetHead: no callback forces a lower head, and nothing has been moved to the freezer.
- Blockchains.BlockChain.WriteBlock: whether the public and private states could be committed is one input; receipts, logs and the trie garbage collection are left out; the current header and fast block are kept only as far as `WriteHeadBlock` sets them.
- ChainIndexers.ChainIndexer.Update: no checkpoint, no child indexers and no throttling; the index read at any moment is that of some linked chain.
- FullNodes.FullNode.Adopt: block indexes are not negative, and a directory is the sequence of blocks loaded from it, without the files that fail to load. A chain is stored and loaded again by position, which gives the same chain.
- FullNodes.FullNode.VerifyTransaction: hashes and signatures are given as booleans, amounts are integers.
- Framing.Node.Receive: decoding of bytes, sockets and what is done with a delivered message are left out.
- EVM execution, state tries, snapshots, consensus engines, database encoding, console, wallets and deployment scripts: they rest on code elsewhere or hold no invariant of this kind.
