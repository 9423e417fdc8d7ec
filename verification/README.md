# GoQuorum node core: a verified model

This project models the part of GoQuorum that decides which transactions a node keeps, which chain
it follows and who pays for what, and proves properties that no single function shows. To check it,
use Dafny 4.11 and run `dafny verify dfyconfig.toml`.

* **Transaction pool** (`Types`, `Lists`, `Heaps`, `Sorting`, `SortedMap`, `TxLists`, `Lookup`,
  `Priced`, `Noncer`, `Accounts`, `Alignment`, `Truncation`, `Reinjection`, `TxPools`). `TxPool` keeps
  pending lists, queued lists, the lookup of all transactions, the lazily cleaned price heap, the
  virtual nonces and the local accounts. Three layers of invariants run through it:
  `Steady` (pending and queue share no account nonce, the lookup is exactly their disjoint union with
  its slots counted, every live remote transaction is on the price heap, and neither of the two
  inconsistencies the code can log is ever logged) holds after every locked section, resets included;
  `Synced` (each account's pending nonces are exactly the run from its state nonce and the virtual
  nonce is the next) holds between resets; `CatchingUp` and `AllAligned` say how a reset gets back to
  it. `TxPool.Run` carries all of this over any sequence of operations. What single operations do is
  stated on values: `Handled` for an addition (`RefusalOf`, `Thinned`, `Entered`), `Staged` for a batch of
  them, which is how a reset takes lost transactions back (`Rejoined`, `Rescued`), `Standing` (how an
  account stands when a background run comes to it) and `Reorganised` for promotion and demotion,
  `Truncated` and `QueueTruncated` for the limits, `NextNonce` and `LoweredAll` for the virtual nonces.
  The ghost field `history` of the price list records what was ever put on it; `Modest` uses it to
  carry the limit of the whole pool over a run.
* **Reorganisation scheduler** (`Schedulers`): the loop that merges requests, as a step system over
  any sequence of events, in which every request is answered by the end of the run after the one under
  way. `Requests` joins it to the pool: once its run is done, every requester has got what it asked
  for.
* **Canonical chain** (`Chains`, `HeaderChains`, `BlockChains`): the number-to-hash index and the
  transaction lookup index always describe the chain of the head; where the code does not achieve
  that, the exact condition under which it does, and a concrete case in which it does not.
* **Section indexer** (`ChainIndexers`): a step system whose readers see a different canonical index
  at every step; what it reports is canonical whatever happened, and complete once it has been left
  to its work for long enough.
* **Gas and money** (`GasPools`, `StateTransitions`, `StateProcessors`): one message, and a block of
  them. The EVM and the privacy manager are functions of which only the stated predicates
  (`Frugal`, `Conserving`, `Quiet`) are used.
* **Derivation paths** (`DerivationPaths`): parser and printer.

A transaction is an immutable record and stands for its own hash. The block store is a map closed
under parents. Code that updates in place is a class whose methods are proved against functions on
plain values (module `Lists` for the lists, `Transition` for a message, `Step` for the indexer,
`ParsePath` for paths); properties are then proved about those functions and about the invariants of
the classes. What such a function decides by a comparison (payable, valid, heavier, due) is also stated
with the comparison written out, on the operation that uses it.

Where the code and its own comments disagree the model follows the code:

* `truncateQueue` sorts accounts by heartbeat and takes them from the end, so the accounts that were
  active last lose their transactions first (`quorum/core/tx_pool.go:1436-1450`).
* `add` evicts cheap transactions before it finds that the new one cannot replace an older one of
  its own account, so `ErrReplaceUnderpriced` may come back after an eviction
  (`quorum/core/tx_pool.go:659-684`).
* A local transaction that replaces a pending one does not make its account local
  (`quorum/core/tx_pool.go:677-701`).

Three promises turn out to hold only under a condition, which is proved exactly:

* `writeHeaders` with nothing new keeps its index if and only if it does not switch, or switches to
  the header that is current already (`HeaderChains.HeaderChain.WriteHeaders`).
* `reorg` followed by `writeHeadBlock` leaves the right number index if and only if the new branch
  has at least two blocks or its head is not below the old one
  (`BlockChains.BlockChain.WriteKnownBlock`); constant difficulty guarantees that for the fork choice.
* With the affordability filter off, the nonces come out right after a reset to a descendant of the
  old head if and only if every account's first ready transaction can be paid for
  (`TxPools.TxPool.RunReorg`, and `TxPools.NonceLeftBehind` for a pool in which one cannot).

The intrinsic gas adds the part for the access list unchecked, so it is the true cost if and only if
that fits 64 bits (`StateTransitions.IntrinsicExact`); for it not to fit, data bytes and entries have to be
more than seven quadrillion together.

## Model

| member | source | states |
|---|---|---|
| SortedMap.TxSortedMap.Put | quorum/core/tx_list.go:72-79 | the map gains the entry, the index stays a heap of exactly its nonces, the cache is dropped |
| SortedMap.TxSortedMap.Forward | quorum/core/tx_list.go:83-98 | exactly the transactions below the threshold leave, lowest nonce first; index and cache still describe the rest |
| SortedMap.TxSortedMap.FilterItems | quorum/core/tx_list.go:124-138 | the matching transactions leave and are listed; the index is the only thing left broken |
| SortedMap.TxSortedMap.Filter | quorum/core/tx_list.go:104-111 | filtering followed by rebuilding the index restores the whole invariant, also when nothing matched |
| SortedMap.TxSortedMap.Reheap | quorum/core/tx_list.go:113-120 | an index rebuilt from the items is a heap of exactly their nonces |
| SortedMap.TxSortedMap.Cap | quorum/core/tx_list.go:142-163 | the highest nonces go, one by one from the top, until the limit holds; the cache loses its tail |
| SortedMap.TxSortedMap.Remove | quorum/core/tx_list.go:167-183 | one nonce leaves the map, the index and the cache; false exactly when it was absent |
| SortedMap.TxSortedMap.Ready | quorum/core/tx_list.go:193-208 | the run of consecutive nonces from the lowest is taken out, provided the lowest is not above the start |
| SortedMap.TxSortedMap.Flatten | quorum/core/tx_list.go:215-236 | the content sorted by nonce, from the cache or sorted anew |
| SortedMap.TxSortedMap.LastElement | quorum/core/tx_list.go:240-243 | the transaction with the highest nonce |
| Heaps.Up | quorum/core/tx_list.go:31-49 | sifting up mends the one place where an entry may be out of order and permutes the heap |
| Heaps.Down | quorum/core/tx_list.go:31-49 | sifting down mends the heap below the entry, permutes it, and says whether anything moved |
| Heaps.Remove | quorum/core/tx_list.go:167-183 | taking an entry out of the middle leaves a heap of all the others |
| Heaps.Init | quorum/core/tx_list.go:113-120 | any sequence is made a heap of the same elements |
| Lists.AscendingUnique | quorum/core/tx_list.go:215-226 | whatever lists a map once by increasing nonce is the same sequence, so sorting order cannot matter |
| Lists.CappedIsPrefix | quorum/core/tx_list.go:142-163 | capping keeps exactly the first transactions by nonce |
| Lists.CappedSplits | quorum/core/tx_list.go:142-163 | every transaction is either kept by a cap or among its drops, never both |
| Lists.ReadyExactly | quorum/core/tx_list.go:193-208 | the ready run is empty if and only if every nonce is above the start; otherwise it begins with the lowest, has no gap and could not be longer |
| Lists.StrictFilterLeavesPrefix | quorum/core/tx_list.go:321-350 | on a gapless list the strict filter leaves the prefix below the lowest unpayable nonce, gapless itself |
| TxLists.TxList.Add | quorum/core/tx_list.go:278-303 | an older transaction gives way exactly to a price that is higher and, with its hundredfold raised by one unit, passes the bumped one; the cached caps stay upper bounds |
| TxLists.TxList.Filter | quorum/core/tx_list.go:321-350 | the cached caps change nothing: after any history exactly the transactions whose cost or gas is above its limit go, and in strict mode what follows the first of them is handed back, all of it payable |
| TxLists.StrictFilterSplits | quorum/core/tx_list.go:321-350 | dropping what lies above the lowest removed nonce is the strict filter |
| TxLists.TxList.Remove | quorum/core/tx_list.go:361-372 | strict lists invalidate everything after the removed nonce |
| TxLists.TxList.Cap | quorum/core/tx_list.go:354-356 | a capped list keeps its caps as bounds |
| TxLists.TxList.Ready | quorum/core/tx_list.go:381-383 | the ready run leaves the list and nothing else does |
| TxLists.LowestNonce | quorum/core/tx_list.go:338-346 | the lowest nonce among the removed transactions |
| Priced.TxPricedList.StalesNonnegative | quorum/core/tx_list.go:443-478 | the count of stale entries never goes negative |
| Priced.TxPricedList.Put | quorum/core/tx_list.go:459-464 | a remote transaction gets one more heap entry, a local one none |
| Priced.TxPricedList.Removed | quorum/core/tx_list.go:469-478 | told of all removals it owes, the heap covers every live remote transaction and at most a quarter of it is not live |
| Priced.TxPricedList.Reheap | quorum/core/tx_list.go:554-563 | the rebuilt heap holds each live remote transaction once |
| Priced.TxPricedList.Cap | quorum/core/tx_list.go:483-500 | exactly the live remote transactions below the price come off the heap |
| Priced.TxPricedList.Underpriced | quorum/core/tx_list.go:505-525 | the comparison is with the cheapest live remote transaction, stale entries notwithstanding |
| Priced.TxPricedList.Discard | quorum/core/tx_list.go:530-551 | the cheapest live ones come off until enough slots are free, never one too many; without force it succeeds if and only if all live entries together would do, and otherwise takes none |
| Priced.LiveSlotsCover | quorum/core/tx_list.go:530-551 | what discarding everything would free is the slots of the live remote transactions, when none has two entries |
| Priced.SlotsAtLeast | quorum/core/tx_list.go:530-551 | a listing never takes fewer slots than the transactions in it |
| Priced.DistinctDrop | quorum/core/tx_list.go:530-551 | from a heap without duplicate live entries no transaction is discarded twice |
| Priced.SlotsFreed | quorum/core/tx_pool.go:1739-1756 | taking distinct transactions out frees exactly the sum of their slots |
| Lookup.TxLookup.Add | quorum/core/tx_pool.go:1724-1736 | the transaction joins one of the two sides and its slots are counted |
| Lookup.TxLookup.Remove | quorum/core/tx_pool.go:1739-1756 | the transaction leaves the side it was on with its slots, and the missing case is counted |
| Lookup.TxLookup.RemoteToLocals | quorum/core/tx_pool.go:1760-1773 | the accounts' remote transactions change sides; how many; the total is unchanged |
| Types.CountWithinSlots | quorum/core/tx_pool.go:1776-1778 | transactions of positive size are no more than the slots they take |
| Types.SlotsHold | quorum/core/tx_pool.go:1775-1778 | slots are as many as the size needs, and no more |
| Noncer.TxNoncer.Get | quorum/core/tx_noncer.go:45-55 | reading through the cache never changes what is read |
| Noncer.TxNoncer.SetIfLower | quorum/core/tx_noncer.go:68-79 | the nonce only ever goes down, for that account alone |
| Accounts.OneOwner | quorum/core/tx_pool.go:958-1004 | a known transaction is in exactly one of pending and queue, and its nonce in no other list of the account |
| Accounts.CutAt | quorum/core/tx_pool.go:974-992 | removing a pending transaction and postponing what follows keeps the two maps disjoint and loses only that one |
| Accounts.CutOne | quorum/core/tx_pool.go:993-1003 | the same for a queued transaction |
| Accounts.CutByMore | quorum/core/tx_pool.go:958-1004 | removing any transactions one after the other cuts every pending list at the lowest of them that it held |
| Accounts.CutMoves | quorum/core/tx_pool.go:974-992 | what such a cut takes off a pending list without removing it is queued, and the queue loses only what is removed |
| Accounts.PromotedPartition | quorum/core/tx_pool.go:778-808 | moving a transaction to pending keeps the maps disjoint, whether it is taken, replaces another or is turned away |
| Accounts.ReadyPartition | quorum/core/tx_pool.go:1301-1309 | the ready run can be taken out of the queue list as a whole without overlap |
| Accounts.FilteredPartition | quorum/core/tx_pool.go:1486-1502 | what the strict filter drops and what it invalidates are disjoint, and the rest stays in place |
| Accounts.GappedPartition | quorum/core/tx_pool.go:1507-1520 | a whole pending list can move to the queue without meeting an equal nonce there |
| Alignment.PromotedInStep | quorum/core/tx_pool.go:1267-1337 | promotion extends the run of pending nonces and raises the virtual nonce to its end |
| Alignment.CutInStep | quorum/core/tx_pool.go:974-992 | cutting a pending list lowers the virtual nonce to the cut, and that is a real lowering |
| Alignment.PromotedCaught | quorum/core/tx_pool.go:1267-1337 | after a reset, promotion leaves no gap from the state nonce on, and a raised nonce is backed by a payable transaction |
| Alignment.DemotedAligned | quorum/core/tx_pool.go:1474-1526 | demotion then leaves exactly a run from the state nonce, and never a gap in front |
| Alignment.RaisedInStep | quorum/core/tx_pool.go:1150-1154 | setting the nonce after the last pending one puts the account in step |
| Alignment.AlignedExactlyWhen | quorum/core/tx_pool.go:1282-1309 | promotion and demotion after a reset leave an account aligned if and only if its first ready transaction is payable; otherwise nothing stays pending and the nonce stays raised |
| Alignment.SurvivesExactlyWhen | quorum/core/tx_pool.go:1267-1526 | what promotion and demotion after a reset keep of an account: what it has at or above the state nonce and can pay for, without the filter also what was not ready, less the excess in a remote queue |
| Alignment.EligibleExactly | quorum/core/tx_pool.go:1284-1296 | promotion looks at what is neither old nor, with the filter on, too dear or too large |
| Alignment.KeptPays | quorum/core/tx_pool.go:1474-1495 | what is pending after a demotion is not old, can be paid for and fits the block |
| Alignment.FrontKept | quorum/core/tx_pool.go:1497-1510 | and begins with the account nonce |
| Alignment.PostponedPays | quorum/core/tx_pool.go:1284-1496 | what is queued after promotion and demotion is not old, and with the filter on payable, postponed transactions included |
| Alignment.LoweredTop | quorum/core/tx_pool.go:1375-1392 | while lists are cut from the top each virtual nonce is the lowest nonce cut, and untouched as long as none is |
| Alignment.LoweredOnce | quorum/core/tx_pool.go:974-992 | the same while transactions are removed from anywhere |
| Truncation.TruncatedFlat | quorum/core/tx_pool.go:1398-1422 | when all offenders have been brought down together, everything promised of the truncation holds |
| Truncation.TruncatedEarly | quorum/core/tx_pool.go:1352-1396 | the same when the limit is reached while lists are being equalised |
| Truncation.PopStep | quorum/core/tx_pool.go:1362-1370 | the next longest list joins the offenders at the common level |
| Truncation.SweptLevelled | quorum/core/tx_pool.go:1372-1394 | one equalising sweep lowers all offenders but the last by one |
| Truncation.ClosePopping | quorum/core/tx_pool.go:1372-1422 | a sweep undershoots the limit by less than the number of lists it cut |
| Truncation.EmptyingDone | quorum/core/tx_pool.go:1427-1469 | dropping queues from the last in line removes the overflow exactly, or all there is of remote accounts |
| Truncation.ByHeartbeat | quorum/core/tx_pool.go:1436-1443 | all remote accounts with queued transactions, least recently active first |
| TxPools.TxPool.constructor | quorum/core/tx_pool.go:276-325 | the empty pool satisfies every invariant |
| TxPools.SanitizedIs | quorum/core/tx_pool.go:173-233 | a zero limit is replaced by its default, every other is kept |
| TxPools.TxPool.EnqueueTx | quorum/core/tx_pool.go:725-760 | queueing a new or moved transaction keeps pending, queue, lookup and price heap in agreement; refused exactly when the older one is not bettered |
| TxPools.TxPool.Requeue | quorum/core/tx_pool.go:981-985 | postponed transactions all arrive in the queue; none can be refused or replace another |
| TxPools.TxPool.CutPending | quorum/core/tx_pool.go:974-992 | a pending list is cut, the rest postponed, and the account's nonces stay in step |
| TxPools.TxPool.CutQueue | quorum/core/tx_pool.go:993-1003 | one queued transaction goes, with its heartbeat when it was the last |
| TxPools.TxPool.RemoveTx | quorum/core/tx_pool.go:958-1004 | the transaction leaves the lookup and the one list it is in; what followed it in pending is queued; nonces stay in step |
| TxPools.TxPool.RemoveDropped | quorum/core/tx_pool.go:669-675 | everything taken off the price heap leaves the pool, every pending list is cut at the lowest of its transactions among them, and all invariants are back at the end |
| TxPools.TxPool.SetGasPrice | quorum/core/tx_pool.go:438-454 | exactly the remote transactions below the new price go, with what followed them in pending queued and the nonces of their accounts lowered to the lowest cut, and nothing when gas price is not enabled |
| TxPools.TxPool.EvictCheapest | quorum/core/tx_pool.go:659-675 | whatever is discarded was no dearer than what stays, and not all of it could be spared; it succeeds if and only if forced or there is enough to discard, and otherwise nothing changes |
| TxPools.TxPool.MakeRoom | quorum/core/tx_pool.go:651-676 | a transaction is turned away if and only if it is remote, the pool is full, and no remote one is cheaper or all of them together do not free enough; otherwise there is room for one more |
| TxPools.TxPool.RoomOnce | quorum/core/tx_list.go:530-551 | without duplicate heap entries it is the slots of the remote transactions that decide |
| TxPools.TxPool.NeverTwice | quorum/core/tx_list.go:459-551 | a pool that never took the same remote transaction twice has no duplicate heap entries, whatever was removed, postponed or pushed back since |
| TxPools.TxPool.FullIsOver | quorum/core/tx_pool.go:651-660 | a full pool asks for a positive number of slots, so the capacity given to make in Discard is not negative |
| TxPools.TxPool.ReplacePending | quorum/core/tx_pool.go:677-701 | a pending transaction is replaced if and only if it is bettered, in all structures at once |
| TxPools.TxPool.MarkLocal | quorum/core/tx_pool.go:707-712 | a new local account's remote transactions become local and leave the price accounting straight |
| TxPools.TxPool.Add | quorum/core/tx_pool.go:633-720 | every outcome with its reason, by comparison of nonce, cost, gas, price and room: accepted means that all checks pass and that every rival left is bettered, refused names the check that fails and those before it that do not; an accepted transaction takes the place of all its rivals and is pending if its nonce was and queued otherwise; a remote one never takes the pool above GlobalSlots + GlobalQueue, and one never seen before brings no duplicate onto the price heap |
| TxPools.RefusedFor | quorum/core/tx_pool.go:585-660 | what each immediate refusal says of the transaction and of the pool, and what passing them all says |
| TxPools.ContestIs | quorum/core/tx_pool.go:677-706 | the contest for an account nonce is won exactly by betters of all rivals |
| TxPools.HandledEffects | quorum/core/tx_pool.go:651-720 | what goes is remote and no dearer than what stays, higher nonces first among equals; what comes takes the place of its rivals in one list and on one side of the lookup; when its account becomes local |
| TxPools.TxPool.Insert | quorum/core/tx_pool.go:677-719 | with room made, a transaction is accepted if and only if it betters what holds its account nonce |
| TxPools.RivalsAre | quorum/core/tx_pool.go:677-706 | the only rival of a transaction is what its account nonce holds, in whichever list |
| TxPools.TxPool.AddAll | quorum/core/tx_pool.go:908-920 | every outcome and every state between is that of an addition; with room for all, each transaction that is valid or known ends with its account nonce held by it or by one that it does not better; the batch pushes out only what it betters and, short of room, remote transactions no dearer than what stays |
| TxPools.AccountedMore | quorum/core/tx_pool.go:908-920 | one more addition keeps that account of what was pushed out |
| TxPools.HandledRepresents | quorum/core/tx_pool.go:677-719 | with room, an addition leaves the account nonce of a valid transaction with it or with one that it does not better, and takes away no account nonce |
| TxPools.OfferedStay | quorum/core/tx_pool.go:908-920 | so it is after any number of additions, whatever replaces what in between |
| TxPools.TxPool.PromoteTx | quorum/core/tx_pool.go:778-808 | what promotion does to the lists, the lookup and the nonce in each of its branches |
| TxPools.TxPool.PromoteAll | quorum/core/tx_pool.go:1301-1309 | no transaction offered for promotion is ever turned away |
| TxPools.TxPool.PromoteAccount | quorum/core/tx_pool.go:1277-1335 | one account's old and unpayable transactions go, the ready run becomes pending, the excess goes |
| TxPools.TxPool.PromoteExecutables | quorum/core/tx_pool.go:1267-1337 | each account gets exactly what was ready for it and the nonce after that, whatever the order; others are untouched; nonces stay in step or catch up |
| TxPools.TxPool.DemoteAccount | quorum/core/tx_pool.go:1476-1525 | old and unpayable transactions go, what they invalidate is queued, and with a gap in front so is all the rest |
| TxPools.TxPool.DemoteUnexecutables | quorum/core/tx_pool.go:1474-1526 | every account's two lists become what demotion promises; after an extending reset no gaps are left |
| TxPools.TxPool.CapOne | quorum/core/tx_pool.go:1375-1392 | the top of one list goes, its nonce is lowered to it, the invariants are back |
| TxPools.TxPool.Equalise | quorum/core/tx_pool.go:1367-1395 | the offenders before the last come down to its length or to the limit |
| TxPools.TxPool.Reduce | quorum/core/tx_pool.go:1398-1422 | the offenders come down together to the limit or to the guaranteed slots |
| TxPools.TxPool.TruncatePending | quorum/core/tx_pool.go:1342-1424 | within GlobalSlots or every remote account within AccountSlots; locals untouched, nobody cut below AccountSlots, the trimmed no shorter than the untrimmed, an undershoot smaller than the number of offenders, and only trimmed accounts have their nonce lowered, to the lowest cut |
| TxPools.TxPool.DropLast | quorum/core/tx_pool.go:1461-1467 | the last transactions of a queue go, highest nonce first |
| TxPools.TxPool.TruncateQueue | quorum/core/tx_pool.go:1427-1469 | exactly min(overflow, remote queued) transactions go, from the most recently active remote accounts; pending and nonces are untouched |
| TxPools.TxPool.RaiseNonces | quorum/core/tx_pool.go:1150-1154 | every account with pending transactions gets the nonce after its last; aligned accounts come out in step |
| TxPools.TxPool.SwitchState | quorum/core/tx_pool.go:1240-1251 | a later state leaves every account a run that may start too early, with a fresh virtual nonce |
| TxPools.TxPool.Reset | quorum/core/tx_pool.go:1176-1262 | a reset keeps the pool consistent; it is given up when there is no state, or the old block is gone and the chain did not go back; otherwise it has the new state and gas limit and adds exactly the transactions lost from the chain, one after the other: with room each valid one is back or its account nonce is held by one that it does not better, and they push out only what they better and, short of room, the cheapest remote ones; virtual nonces end no higher than the state and with room exactly there; a reset to a descendant of the old head changes no list and leaves the accounts lagging only |
| TxPools.TxPool.Reorganise | quorum/core/tx_pool.go:1131-1154 | every account is promoted and demoted exactly, then truncated within the limits; after an extending reset all nonces are in step if and only if every first ready transaction was payable |
| TxPools.TxPool.Conclude | quorum/core/tx_pool.go:1145-1154 | truncation, and then every account with pending transactions has the nonce after its last while the others keep theirs |
| TxPools.TxPool.Prepare | quorum/core/tx_pool.go:1109-1130 | the state, gas limit and lists with which promotion begins, with or without a reset |
| TxPools.TxPool.RunReorg | quorum/core/tx_pool.go:1109-1155 | whether the new state is taken up, and with it the gas limit of the new head; each lost transaction and what its addition did; how every account then stands, and what promotion, demotion and truncation make of it, exactly; after a reset every pending transaction is at or above its account nonce, costs no more than the balance and fits the gas limit, with nothing missing in front, and with the filter on so does every queued one of a promoted account; with room no valid lost transaction stays away unless its account nonce is held by one that it does not better; in step after a reset to a descendant if and only if, in the new state and under the new limit, every first ready transaction is payable, which the filter ensures |
| TxPools.BegunWhenTraced | quorum/core/tx_pool.go:1240-1255 | when blocks and state can be found the run has the new state and gas limit and has looked for exactly the lost transactions |
| TxPools.RunKeeps | quorum/core/tx_pool.go:1109-1155 | before truncation a run with a reset loses only what is below the account nonce, costs more than the balance or needs more than the gas limit, or is too much in the queue of a remote account |
| TxPools.NonceLeftBehind | quorum/core/tx_pool.go:1282-1309 | a concrete pool that gas prices disabled leave with a raised nonce and nothing pending |
| TxPools.TxPool.EvictExpired | quorum/core/tx_pool.go:368-386 | exactly the queues of expired remote accounts go |
| TxPools.TxPool.Do | quorum/core/tx_pool.go:333-400 | each locked section of the pool keeps its invariants, and its limit while only new remote transactions come in |
| TxPools.TxPool.Run | quorum/core/tx_pool.go:333-400 | over any sequence of additions, runs, price changes and evictions the pool stays consistent, and in step if every head extends the last under the filter; if only remote transactions of positive size come in, none of them twice, it never holds more than GlobalSlots + GlobalQueue |
| TxPools.Evicted | quorum/core/tx_pool.go:659-675 | taking the discarded transactions out frees exactly their slots |
| TxPools.RoomForOne | quorum/core/tx_pool.go:651-676 | a bound on slots is a bound on transactions, with one to spare |
| Reinjection.Reinject | quorum/core/tx_pool.go:1176-1239 | walking both branches back collects the transactions only the old one has; the cases in which the reset is given up |
| Reinjection.LostExactly | quorum/core/tx_pool.go:1188-1237 | a transaction is reinjected if and only if it is above the fork on the old branch and not on the new one |
| Reinjection.NothingLost | quorum/core/tx_pool.go:1180-1239 | a head whose chain runs through the old one loses nothing |
| Chains.TxDifference | quorum/core/types/transaction.go:368-385 | the first list without what the second contains, in order |
| Chains.DifferenceHolds | quorum/core/types/transaction.go:368-385 | membership in the difference |
| Schedulers.Scheduler.Launch | quorum/core/tx_pool.go:1051-1062 | a run starts only when none is under way, and takes over all that was merged |
| Schedulers.Scheduler.ReceiveReset | quorum/core/tx_pool.go:1065-1073 | a request merges into the pending reset; the resets keep tiling the history of heads |
| Schedulers.Scheduler.ReceivePromotion | quorum/core/tx_pool.go:1075-1083 | a request merges into the set of the run whose channel it is given |
| Schedulers.Scheduler.ReceiveTx | quorum/core/tx_pool.go:1085-1092 | an event is queued without asking for a run; none is lost or announced twice |
| Schedulers.Scheduler.SeeDone | quorum/core/tx_pool.go:1094-1095 | the loop is free again once the run has closed its channel |
| Schedulers.Scheduler.Shutdown | quorum/core/tx_pool.go:1097-1103 | after shutdown those waiting for the next run are released |
| Schedulers.Scheduler.ClosedMeansServed | quorum/core/tx_pool.go:1008-1026 | barring shutdown, the run that closes a requester's channel covers every address or head change it asked for |
| Schedulers.Scheduler.ShutdownLeavesOut | quorum/core/tx_pool.go:1097-1103 | a shutdown leaves out only those who were waiting for the next run |
| Schedulers.Scheduler.ResetsMeet | quorum/core/tx_pool.go:1051-1073 | of two successive resets the second starts from the head where the first ended |
| Schedulers.Scheduler.FirstResetStarts | quorum/core/tx_pool.go:1051-1073 | the first reset starts at the head the pool was made with |
| Schedulers.Scheduler.RunSpans | quorum/core/tx_pool.go:1051-1073 | each run takes the pool from where the run before left it to the last head asked for at its launch |
| Schedulers.Scheduler.ResetsReachHead | quorum/core/tx_pool.go:1051-1073 | with no reset pending, the last one reached the last head |
| Schedulers.Scheduler.Turn | quorum/core/tx_pool.go:1050-1105 | one turn of the loop for every event: a run is launched exactly when one is due and none is under way, which channel is closed or seen closed, and which request goes on record with which channel |
| Schedulers.Schedule | quorum/core/tx_pool.go:1039-1106 | over any sequence of events at most one run is in flight, no head and no transaction event is lost, and every request is on record; once the run under way has ended, that was seen, and the next has ended, its channel is closed by a run that does what was asked |
| Schedulers.EnoughProgress | quorum/core/tx_pool.go:1050-1105 | whatever else happens in between, one run ending, its end seen and another run ending is all the progress a request waits for |
| Schedulers.GatheredLast | quorum/core/tx_pool.go:1085-1092 | of the events with one account nonce the last is announced |
| Requests.CarryOut | quorum/core/tx_pool.go:1109-1155 | once its run is done, a requester finds the pool on a head at or after the one it announced, under that head's gas limit and with the lost transactions added, or everything ready for its accounts promoted and their lists as promotion and demotion make them |
| Requests.IsHonoured | quorum/core/tx_pool.go:1008-1026 | what the scheduler hands to a run and what the run does with it add up to what was asked |
| Requests.CarryOutAll | quorum/core/tx_pool.go:1039-1155 | the runs, one after the other, leave the pool on the last head of the chain when no reset is pending |
| HeaderChains.JoinedClosed | quorum/core/headerchain.go:169-196 | adding linked headers keeps the store closed under parents |
| HeaderChains.KnownFirst | quorum/core/headerchain.go:182-194 | of linked headers those already known come first |
| HeaderChains.RewriteBack | quorum/core/headerchain.go:244-256 | walking back until the stored index agrees puts the whole ancestor chain in place |
| HeaderChains.SplicedIsCanon | quorum/core/headerchain.go:235-272 | the pieces written by a switch make exactly the chain of the last header |
| HeaderChains.HeaderChain.MarkCanonical | quorum/core/headerchain.go:228-275 | after a switch the index is the new chain, unless no header was inserted: then the headers themselves are missing |
| HeaderChains.HeaderChain.Choose | quorum/core/headerchain.go:209-285 | heavier, or as heavy and shorter, or as heavy and long and lucky |
| HeaderChains.HeaderChain.WriteHeaders | quorum/core/headerchain.go:149-297 | with at least one new header the index is exactly the ancestor chain of the current header, difficulties sum back to genesis and the current header is the heaviest; with none, this holds if and only if there is no switch or it ends in the current header; heavier switches, lighter stays, as heavy and lower switches, as heavy and higher stays, and at the same height the coin decides |
| HeaderChains.NotEntered | quorum/core/headerchain.go:257-272 | a tie switch to known headers leaves a wrong index unless they end in the current header |
| HeaderChains.TieLeavesIndex | quorum/core/headerchain.go:217-272 | a concrete run in which it does |
| HeaderChains.KnownIsLight | quorum/core/headerchain.go:203-225 | known headers are no heavier than the current chain, so they never extend it |
| HeaderChains.HeaderChain.GetAncestor | quorum/core/headerchain.go:421-453 | the answer is that of the walk from parent to parent; none only when out of range, when a header is missing, or when more single steps are needed than allowed |
| HeaderChains.WalkIsAncestor | quorum/core/headerchain.go:444-451 | the walk fails at once or not at all |
| HeaderChains.JumpIsWalk | quorum/core/headerchain.go:433-440 | one jump along the index goes where the walk goes |
| Chains.ForkDivides | quorum/core/blockchain.go:2398-2422 | two chains agree exactly up to their fork |
| Chains.AncestorLighter | quorum/core/headerchain.go:168-180 | a proper ancestor has a smaller total difficulty |
| Chains.HeavierIsLonger | quorum/core/blockchain.go:1731-1735 | with constant difficulty heavier means longer |
| BlockChains.FindFork | quorum/core/blockchain.go:2378-2422 | the walk finds the common ancestor and both branches, or says which chain is broken |
| BlockChains.OverwriteMore | quorum/core/blockchain.go:2439-2450 | writing a block overwrites the lookups of its transactions only |
| BlockChains.ReorgIndexes | quorum/core/blockchain.go:2439-2456 | after the useless lookups are deleted the lookup index is that of the new chain |
| BlockChains.RenumberDone | quorum/core/blockchain.go:2457-2465 | after the stale numbers are deleted the number index is the new chain up to the current block |
| BlockChains.HeadCanon | quorum/core/blockchain.go:890-917 | with the new head written the number index is right if and only if the new branch has two blocks or its head is not below the old one |
| BlockChains.HeadIndexes | quorum/core/blockchain.go:890-917 | with the new head written the lookup index is right |
| BlockChains.BlockChain.WriteHeadBlock | quorum/core/blockchain.go:890-917 | one number, the block's lookups and the markers; head header and fast block move only to a block that did not have its number |
| BlockChains.BlockChain.NumberOfHead | quorum/core/blockchain.go:2441-2464 | whether the new head has its number is the same before and after a reorganisation, and it has it only on the old chain |
| BlockChains.BlockChain.WriteBranch | quorum/core/blockchain.go:2439-2450 | the new branch but for its head replaces what was there |
| BlockChains.BlockChain.Rewrite | quorum/core/blockchain.go:2439-2468 | what a reorganisation leaves for its caller to complete |
| BlockChains.BlockChain.Reorg | quorum/core/blockchain.go:2323-2468 | with a closed store it never fails, and leaves both indexes one block short of the new head |
| BlockChains.BlockChain.WriteKnownBlock | quorum/core/blockchain.go:1571-1583 | lookups always, numbers if and only if covered, describe exactly the chain of the new head; head header and fast block stay behind if and only if the block was canonical already |
| BlockChains.BlockChain.WriteBlock | quorum/core/blockchain.go:1622-1760 | which of the four outcomes it is: heavier wins, lighter loses, as heavy and lower wins, as heavy and higher loses, and at the same height this node's own current block stays, its own new one wins, and otherwise the coin decides; all markers and indexes; the head stays the heaviest block; the indexes are right unless the head moves to a lower block alone on its branch, which constant difficulty rules out |
| BlockChains.WinnerCovers | quorum/core/blockchain.go:1728-1745 | with constant difficulty a winner never ends below the old head |
| BlockChains.LowBranchLeavesNumber | quorum/core/blockchain.go:2457-2465 | a concrete chain in which an old number stays |
| ChainIndexers.ThroughSections | quorum/core/chain_indexer.go:388-418 | the chain of a section head runs through all section heads below |
| ChainIndexers.LastDecides | quorum/core/chain_indexer.go:422-429 | when the last section head is canonical, all are |
| ChainIndexers.ProgressStep | quorum/core/chain_indexer.go:397-412 | a block whose parent was the last one takes the section one block on, whatever the index did meanwhile |
| ChainIndexers.StoreSection | quorum/core/chain_indexer.go:350-353 | a finished section continues the one stored before |
| ChainIndexers.ChainIndexer.NewHead | quorum/core/chain_indexer.go:243-300 | a reorganisation cuts known and stored sections back to those ending at or below the ancestor; a new head raises what is known exactly as far as the required confirmations allow, and wakes the indexer when it does |
| ChainIndexers.ChainIndexer.VerifyLastHead | quorum/core/chain_indexer.go:422-429 | exactly the sections from the top down to the last canonical one go |
| ChainIndexers.ChainIndexer.SetValidSections | quorum/core/chain_indexer.go:479-491 | the heads of sections that are no longer valid are removed |
| ChainIndexers.ChainIndexer.Begin | quorum/core/chain_indexer.go:317-338 | the next section is taken up from the last one stored |
| ChainIndexers.ChainIndexer.ResetBackend | quorum/core/chain_indexer.go:391-395 | a backend that cannot be reset invalidates everything stored |
| ChainIndexers.ChainIndexer.ProcessBlock | quorum/core/chain_indexer.go:397-412 | one block, if it is there and follows the last |
| ChainIndexers.ChainIndexer.Commit | quorum/core/chain_indexer.go:413-416 | the finished section is handed over |
| ChainIndexers.ChainIndexer.Finish | quorum/core/chain_indexer.go:348-379 | it is stored only if what it continues is still the last one |
| ChainIndexers.ChainIndexer.StillLast | quorum/core/chain_indexer.go:350-351 | that test means nothing was rolled back meanwhile |
| ChainIndexers.ChainIndexer.Sections | quorum/core/chain_indexer.go:434-440 | whenever the index describes a chain, every section reported ends in a block of that chain |
| ChainIndexers.ChainIndexer.Work | quorum/core/chain_indexer.go:304-383 | one turn of the update loop, as a function of the state before, in each phase |
| ChainIndexers.ChainIndexer.Do | quorum/core/chain_indexer.go:243-440 | every event, as a function of the state before |
| ChainIndexers.Processes | quorum/core/chain_indexer.go:397-412 | on a chain that stands still block after block of a section is processed |
| ChainIndexers.OneSection | quorum/core/chain_indexer.go:317-383 | woken, the indexer stores one section more after its blocks and four turns, and is due again exactly if sections are missing |
| ChainIndexers.CatchesUp | quorum/core/chain_indexer.go:304-383 | woken with sections missing it stores them all and rests, whatever it has to take back first |
| ChainIndexers.Settles | quorum/core/chain_indexer.go:304-383 | whatever it is at, it is idle again within a section's blocks and three turns, and due again if sections are missing |
| ChainIndexers.CaughtUp | quorum/core/chain_indexer.go:304-383 | the same for any run that ends in enough undisturbed turns |
| ChainIndexers.Index | quorum/core/chain_indexer.go:304-383 | under any interleaving of notices, headers and work every section reported is canonical; and if the indexer was woken and then left to its work on the chain for as many turns as the missing sections have blocks and four each, it reports all it knew of |
| ChainIndexers.NoticeKeepsCanonical | quorum/core/chain_indexer.go:243-278 | a notice of the common ancestor keeps canonical what was |
| GasPools.GasPool.AddGas | quorum/core/gaspool.go:29-35 | adds, and may not pass 64 bits |
| GasPools.GasPool.SubGas | quorum/core/gaspool.go:39-45 | takes the gas if it is there, and nothing otherwise |
| StateTransitions.IntrinsicGas | quorum/core/state_transition.go:122-160 | the cost of data with its overflow checks, and of the access list modulo 2^64 |
| StateTransitions.OverflowCheck | quorum/core/state_transition.go:139-153 | the division test notices exactly the sums that do not fit |
| StateTransitions.IntrinsicExact | quorum/core/state_transition.go:122-160 | the answer is the true cost if and only if that fits 64 bits |
| StateTransitions.ByteByByte | quorum/core/state_transition.go:122-153 | 21000 or 53000 to begin with, 4 for a zero byte and 68 or 16 for any other |
| StateTransitions.EntryByEntry | quorum/core/state_transition.go:155-158 | 2400 for an address of the access list and 1900 for a storage key |
| StateTransitions.AccessListWraps | quorum/core/state_transition.go:155-158 | the unchecked sum wraps only when data bytes and access list entries are more than seven quadrillion together, and one such list with which it does |
| StateTransitions.StateTransition.BuyGas | quorum/core/state_transition.go:194-207 | all or nothing: the price from the sender and the gas from the pool |
| StateTransitions.StateTransition.Check | quorum/core/state_transition.go:209-222 | nonce, funds and pool, in this order; a checked nonce is too high or too low exactly as it compares with the sender's |
| StateTransitions.StateTransition.RefundGas | quorum/core/state_transition.go:425-448 | at most half of what was used is refunded; the pool never passes 64 bits |
| StateTransitions.StateTransition.TransitionDb | quorum/core/state_transition.go:248-423 | the whole transition in every branch, as a function of the state before; nonce, funds and pool refuse a message exactly when they have to, and then nothing has changed |
| StateTransitions.ChecksDecide | quorum/core/state_transition.go:194-222 | a message is refused for its nonce, its funds or the pool exactly when they do not suffice, and changes nothing then |
| StateTransitions.ExecutionDecides | quorum/core/state_transition.go:309-340 | beyond the checks it fails for the gas of its data or the funds for its value exactly when they do not suffice |
| StateTransitions.PrivacyDecides | quorum/core/state_transition.go:262-307 | a private message that cannot be received or prepared still costs its sender the gas, and a nonce |
| StateTransitions.OutcomeDecides | quorum/core/state_transition.go:352-423 | which errors of the EVM fail a message, and what a refusal or an early end by verification makes of it |
| StateTransitions.BeforeIs | quorum/core/state_transition.go:194-352 | the EVM starts with the gas paid for and, for a call, the sender's nonce one higher |
| StateTransitions.NoncesAdvance | quorum/core/state_transition.go:248-423 | a call that is carried out uses up a nonce of its sender, and no nonce goes down |
| StateTransitions.PublicAccounts | quorum/core/state_transition.go:309-448 | the pool drops by exactly the gas reported, the sender pays and the coinbase receives its price, the refund is at most half |
| StateTransitions.PrivateAccounts | quorum/core/state_transition.go:276-448 | a private transaction reports none and costs the pool its intrinsic gas less the refund, whatever its payload does |
| StateTransitions.PrivateSettlement | quorum/core/state_transition.go:276-448 | a party runs the payload and not the hash, and what that uses does not show in the settlement |
| StateTransitions.InnerCostsNothing | quorum/core/state_transition.go:425-448 | the inner transaction of a privacy marker costs nobody anything where the node is no party |
| StateTransitions.PoolShrinks | quorum/core/state_transition.go:194-448 | the pool never gains and never loses more than the message's gas |
| StateTransitions.MoneyConserved | quorum/core/state_transition.go:194-452 | money is conserved, except that a transition broken off by the privacy manager destroys what was paid for its gas |
| StateTransitions.PartyAgreesWithNonParty | quorum/core/state_transition.go:238-416 | a party and a non-party to a private message call agree on pool, report, balances and the sender's nonce |
| StateTransitions.PrivatePays | quorum/core/state_transition.go:276-448 | with nothing to refund, a private transaction takes exactly its intrinsic gas from the pool and its price from the sender |
| StateTransitions.BlankedIsCheaper | quorum/core/state_processor.go:124-125 | with its payload hash blanked a private transaction leaves the pool fuller and its sender richer than with the hash itself, unless that was all zeros |
| StateProcessors.ApplyTransaction | quorum/core/state_processor.go:403-438 | turned away without permission, or by Quorum's rule with a gas price while gas prices are disabled, and otherwise applied |
| StateProcessors.ApplyToState | quorum/core/state_processor.go:305-394 | the receipt counts on from the gas used so far |
| StateProcessors.ApplyTransactionOnMPS | quorum/core/state_processor.go:240-301 | runs on private states leave the pool, the count and the public state alone; the error is that of the payload or of the first private state that has one |
| StateProcessors.FirstErrorIs | quorum/core/state_processor.go:258-301 | it passes if it passes on every private state it is run on, and otherwise the first that fails decides |
| StateProcessors.ApplyInnerTransaction | quorum/core/state_processor.go:446-486 | the inner transaction never runs out of its own pool and leaves the block's alone; it has the errors of its checks and of its execution |
| StateProcessors.OneTransaction | quorum/core/state_processor.go:305-328 | what one transaction does to pool, count and money |
| StateProcessors.AllMet | quorum/core/state_processor.go:69-153 | each message of a valid block meets a state in which its checks pass |
| StateProcessors.NoReplay | quorum/core/state_processor.go:69-153 | of two nonce-checked messages of one sender, the first a call, the second has the higher nonce |
| StateProcessors.Process | quorum/core/state_processor.go:69-153 | gas left plus gas used stays within the limit, equals it without private transactions and falls short with them; receipts count up; money is lost only by private transactions; in a valid block every message is permitted, obeys the rule on gas prices, can be paid for and has the nonce its sender has at that point, so that no call is carried out twice |
| DerivationPaths.ParseDerivationPath | quorum/accounts/hd.go:68-118 | the loop accepts and refuses what the grammar says, with the first error |
| DerivationPaths.String | quorum/accounts/hd.go:122-136 | the canonical form |
| DerivationPaths.RoundTrip | quorum/accounts/hd.go:68-136 | a printed path parses to itself if and only if it is not empty |
| DerivationPaths.PrintsApart | quorum/accounts/hd.go:122-136 | different paths print differently |
| DerivationPaths.ParsedReads | quorum/accounts/hd.go:92-116 | every component of a successful parse is its number above its hardened base, within 32 bits; relative paths follow the default root |
| DerivationPaths.Canonical | quorum/accounts/hd.go:68-136 | printing what was parsed and parsing it again gives the same path |
| DerivationPaths.DecimalParses | quorum/accounts/hd.go:100-104 | a decimal is read back as its number, whatever other bases are accepted |
| DerivationPaths.PrefixedParses | quorum/accounts/hd.go:100-104 | binary, octal and hexadecimal numbers are read as their prefix says |
| DerivationPaths.OctalParses | quorum/accounts/hd.go:100-104 | a leading zero means octal |
| DerivationPaths.CapitalsToo | quorum/accounts/hd.go:100-104 | digits above nine can be capitals |
| DerivationPaths.StrangeDigit | quorum/accounts/hd.go:100-104 | a character that is no digit of the base makes a number invalid |
| DerivationPaths.Underscores | quorum/accounts/hd.go:100-104 | an underscore between digits does not matter, and is invalid elsewhere |
| DerivationPaths.OutsideRange | quorum/accounts/hd.go:104-111 | negative numbers and those beyond 32 bits, or 31 below a mark, are out of range |
| DerivationPaths.TrimAround | quorum/accounts/hd.go:92-97 | white space around a string does not matter |
| DerivationPaths.ComponentAround | quorum/accounts/hd.go:92-98 | a component may have white space around it and before its mark |
| DerivationPaths.SpacesAre | quorum/accounts/hd.go:92-97 | which characters are white space |
| DerivationPaths.Relative | quorum/accounts/hd.go:28-90 | a path that does not begin with m is read below m/44'/60'/0'/0 |
| DerivationPaths.RefusedPaths | quorum/accounts/hd.go:72-90 | nothing at all, a leading slash, a root alone and an empty last component are refused, each with its error |
| DerivationPaths.SplitLast | quorum/accounts/hd.go:72 | joining with slashes and splitting are inverse |

## Left out

- Lists inside the pool: `TxPool` holds its lists as values and applies to them the functions that the classes `TxSortedMap` and `TxList` are proved to compute, so what that part of the model does not capture is update in place of a list object and aliasing between lists.
- TxPools.TxPool.Add: the bound of `GlobalSlots + GlobalQueue` assumes positive sizes and no live transaction with two heap entries; re-adding a hash whose old entry is still on the heap is not covered by that bound (it is by every invariant), and neither are local transactions, which the code admits above it.
- TxPools.TxPool.PromoteExecutables: the delayed initialisation of a pool without virtual nonces (`quorum/core/tx_pool.go:1269-1272`, a reset without heads) is left out; the pool always has a state.
- TxPools.TxPool.RunReorg: after a reset to a head that does not descend from the old one the nonces are in step if promotion and demotion left no gap, and only then unless truncation cuts the gap off; that exception is not characterised further. The announced events are left out.
- TxPools.TxPool.EvictExpired: which heartbeats have expired is a parameter; heartbeats themselves are arbitrary integers.
- TxPools.TxPool.ValidateTx: the checks of type, size, value, signature, Quorum's price, privacy and permission rules and intrinsic gas are four given answers; recursion into the inner transaction of a privacy marker is not modelled.
- TxPools.TxPool.Run: the batch entry points that filter known transactions, the asynchronous channels and the reading methods (`Pending`, `Content`, `Status`) only add easy members.
- Reinjection.Reinject: the distance of two heads is computed on integers, not on floating point numbers, which differ only beyond 2^53.
- Schedulers.Schedule: the loop is a sequence of whole turns; the handshakes on its channels, and what a run does to the announced events before sending them, are not modelled.
- HeaderChains.HeaderChain.WriteHeaders: the caches are not modelled, so neither is their state after an import was aborted; the header checks before it are its preconditions.
- HeaderChains.HeaderChain.GetAncestor: nothing is said about a start at the zero hash, which the index also uses for "no entry".
- BlockChains.BlockChain.Reorg: logs, feeds and metrics, the private state commit, the garbage collection of tries and the ancient store are left out.
- BlockChains.BlockChain.WriteBlock: the store and both indexes are written atomically; a failing commit leaves the block stored, as the code does.
- ChainIndexers.ChainIndexer.NewHead: checkpoints and child indexers are left out; headers are never removed from the database.
- StateTransitions.StateTransition.TransitionDb: access list preparation, return data and revert reasons are left out; the EVM, the privacy manager and verification are oracles.
- StateTransitions.PartyAgreesWithNonParty: private execution is assumed to leave the sender's public nonce alone, besides the public balances and the refund counter.
- StateProcessors.Process: block rewards, receipts' logs and private receipts are left out; signatures and account permissions are given answers.
- Nonces of accounts are unbounded: the successor of nonce 2^64 - 1 does not wrap around.
- DerivationPaths.ParseDerivationPath: strings are sequences of characters; bytes that are not valid UTF-8 are not modelled.
- The freezer, `SetHead`, the journal file, metrics, mutexes (each locked section is one step), RLP, Keccak, tries and the consensus engines are left out.
