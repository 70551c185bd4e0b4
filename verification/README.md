# Verified core of the Blocknet node

A Dafny model of the parts of the node whose correctness rests on invariants that no single
function shows: the address manager, the stack of coin caches, the parallel check queue, the
256-bit arithmetic behind difficulty targets, the block index with its skip pointers, four
codecs (Base58, Bech32, compact blocks, Golomb-coded filters) and two caches with exact
guarantees (the cuckoo cache and the rolling Bloom filter).

Code that updates objects in place is a class here, with the same fields, loops and branches,
and every method is proved against a function or a property of the state it starts from. What
the system promises is then proved as lemmas over every input, every run and every reachable
state.

| files | component |
|---|---|
| `AddrManState`, `AddrManOps`, `AddrManRun` | state and operations of the address manager as values |
| `AddrManTheorems`, `AddrManOutcomes`, `AddrManClear` | what every operation keeps, what it does, what every run keeps, what Clear breaks |
| `AddrManBuckets` | how few buckets one address range can fill, in every run |
| `AddrManSave`, `AddrManRoundTrip`, `AddrManLayout` | the saved form field by field, and the proof that reading it back loses nothing |
| `AddrMan`, `AddrManCheck` | the mutable address manager, its saving and loading, its self-check |
| `CoinsState`, `CoinsTheorems`, `Coins` | coin views stacked to any depth |
| `CheckQueueState`, `CheckQueueTheorems`, `CheckQueue` | the check queue as a state machine and its sections |
| `Powers`, `Limbs`, `LimbSteps`, `ArithUint`, `Compact` | limb arithmetic for every width, compact targets, block work |
| `Chain` | skip list, active chain, forks and locators |
| `Base58`, `Bech32`, `Bech32Code`, `CompactBlocks`, `BlockFilter`, `CompactSize` | codecs; the Bech32 checksum as a remainder over GF(32) |
| `CuckooCache`, `RollingBloom` | caches |
| `SortedSets`, `Wrappers` | the order in which ordered sets and maps are walked, optional values |

Randomness, clocks, hash functions, the network's routability tests, the answer of the block
check and the unevenness of a hash table are parameters. Hashes are arbitrary functions; where
the code relies on their range, the range is what is required of them. Each atomic step of the
check queue is one section that a thread runs while it holds the mutex, or the run of one check.

Some promises turn out to hold only under a condition. The lemmas then state the exact
condition: `GoodTimes` and `AttemptTimes` (the self-check fails after a success at time zero),
`ClearConsistent`, `ClearSafe` and `ClearUnsafe` (clearing the address manager leaves the pending
collisions, and a later selection looks up an id that does not exist), `AddCoinKeeps` and
`WrongFreshResurrects` (when an unannounced overwrite breaks the flags), `SpendCoinAnswer` and
`SpentTwice` (when the answer of a spend is not "there was a coin", although its documentation
says that nothing happens then), `FlushBestBlock` and `FlushForgets` (when a flush makes the
parent forget its block), `AllLookedAt` and `MissedConflict` (when the early exit of a scan leaves
a collision of short ids unnoticed), `EncodeDecode` of `Compact`, `DecodeEncode` of `Bech32`,
`IndexesRoundTrip`, `BuiltOpens` (a block filter with more elements than a reader accepts can be
built but not opened), `EpochSizeExact` (the size of an epoch wraps around in large caches) and
the constructor of `RollingBloomFilter` (the size of a generation wraps around at one number).

Where the code and its comments disagree, the model follows the code: a spend of an outpoint that
a cache holds as spent answers true, and an insert into the cuckoo cache that finds no free place
displaces the element at the second of the eight places first, not at the first
(src/cuckoocache.h:416-430).

## Model

| member | source | states |
|---|---|---|
| `AddrManState.EmptyConsistent` | src/addrman.h:456-478 | a cleared manager without pending collisions is consistent |
| `AddrManState.ConsistentPassesCheck` | src/addrman.cpp:399-473 | the kept invariant, with sane times and a key, implies everything the self-check demands |
| `AddrManState.PassesCheckTimes` | src/addrman.cpp:407-431 | conversely a state that passes has no negative times and no tried entry without a success |
| `AddrManState.WorthKeeping` | src/addrman.cpp:33-53 | when an entry is not terrible: the times and numbers of failures that keep it |
| `AddrManState.RandomCounts` | src/addrman.cpp:404-405 | a random order that lists every id once is as long as there are ids |
| `AddrManOps.SwapIndexed` | src/addrman.cpp:93-111 | swapping exchanges two places of the random order and keeps all indexes inverse to each other |
| `AddrManOps.DeleteEntries` | src/addrman.cpp:113-125 | Delete forgets one entry, moves at most one other and touches no table |
| `AddrManOps.DeleteTabled` | src/addrman.cpp:113-125 | without references, Delete keeps tables and reference counts exact |
| `AddrManOps.ClearNewKeeps` | src/addrman.cpp:127-140 | the occupant of a cleared slot loses exactly one reference and goes with its last one |
| `AddrManOps.UnlistTabled` | src/addrman.cpp:142-153 | taking an entry out of all new buckets leaves it with no reference and the rest exact |
| `AddrManOps.EvictKeeps` | src/addrman.cpp:156-178 | the displaced tried entry gets its own new slot, and the entry that displaces it is not touched |
| `AddrManOps.MakeTriedKeeps` | src/addrman.cpp:142-188 | the entry ends in its own tried slot, all five indexes and both counters stay exact |
| `AddrManTheorems.BucketFound` | src/addrman.cpp:219-235 | the "no bucket found" exit cannot be reached: an untried entry is in some new bucket |
| `AddrManTheorems.GoodKeeps` | src/addrman.cpp:190-254 | Good_ keeps the invariant; ids never come back and a filled tried slot stays filled |
| `AddrManTheorems.PlaceKeeps` | src/addrman.cpp:305-324 | placing an entry into its new bucket, or dropping it, ends in a consistent state |
| `AddrManTheorems.AddKeeps` | src/addrman.cpp:256-327 | Add_ keeps the invariant for known, unknown and unroutable addresses |
| `AddrManTheorems.AttemptKeeps` | src/addrman.cpp:329-349 | Attempt_ keeps the invariant |
| `AddrManTheorems.ConnectedKeeps` | src/addrman.cpp:497-515 | Connected_ keeps the invariant |
| `AddrManTheorems.SetServicesKeeps` | src/addrman.cpp:517-533 | SetServices_ keeps the invariant |
| `AddrManTheorems.GetAddrKeeps` | src/addrman.cpp:476-495 | for all draws the answer keeps the limit, has no entry twice and exactly the entries that were not terrible in the round that looked at them; it is short of the limit only if all others were looked at and terrible |
| `AddrManTheorems.ResolveOneKeeps` | src/addrman.cpp:537-590 | one pending collision, in all its branches, keeps the invariant |
| `AddrManTheorems.ResolveKeeps` | src/addrman.cpp:535-592 | so does the whole loop over the pending set while entries leave it |
| `AddrManTheorems.SelectionKnown` | src/addrman.cpp:594-619 | the occupant of the slot that the drawn id waits for is returned; nothing exactly if no id is pending or the drawn one is gone, and only then it leaves; no unknown id is looked up |
| `AddrManTheorems.EveryOneSelected` | src/addrman.cpp:598-602 | every pending id can be drawn, and its occupant is then returned for a test |
| `AddrManTheorems.RunKeeps` | src/addrman.cpp:81-619 | every sequence of operations keeps the invariant, never reuses an id and never empties a tried slot |
| `AddrManTheorems.GoodTimes` | src/addrman.cpp:190-214 | Good_ keeps the times that the self-check demands if and only if its time fits |
| `AddrManTheorems.AttemptTimes` | src/addrman.cpp:329-349 | Attempt_ keeps them if and only if the address is unknown or its time is not negative |
| `AddrManTheorems.RunPassesCheck` | src/addrman.cpp:399-473 | from the constructor, every run with positive times passes the self-check |
| `AddrManTheorems.GoodAtTimeZeroFailsCheck` | src/addrman.cpp:411-412 | a success reported at time zero makes the self-check fail |
| `AddrManOutcomes.TablesDecide` | src/addrman.cpp:399-473 | in a consistent state the two tables decide which entries exist, which are tried and their counts |
| `AddrManOutcomes.MakeTriedTables` | src/addrman.cpp:142-188 | the new table after a move: all references of the entry are gone and the displaced entry has one |
| `AddrManOutcomes.GoodOutcome` | src/addrman.cpp:190-254 | both tables, every field of all entries and the pending set after Good_, in every case; the published time of the entry does not change |
| `AddrManOutcomes.ResolveOneOutcome` | src/addrman.cpp:537-590 | a pending id waits exactly while the test of the occupant is under way; it leaves because it is gone, because the occupant was reached recently, or with the tried slot |
| `AddrManOutcomes.TurnHeld` | src/addrman.cpp:556-580 | an entry reached during the pass keeps its tried slot against every later pending id |
| `AddrManOutcomes.PassOutcome` | src/addrman.cpp:535-592 | which ids are pending after the whole pass, and that an id which left for neither other reason holds its tried slot at the end, if the clock moves less than the replacement hours |
| `AddrManOutcomes.AddOutcome` | src/addrman.cpp:256-327 | Add_ answers true exactly for unknown routable addresses, and the new table afterwards, in every case: which slot changes and when |
| `AddrManOutcomes.AddEntryOutcome` | src/addrman.cpp:256-327 | every field of all entries after Add_: a new entry has the announced services, the time less the penalty and no statistics; a known one changes its time and services only |
| `AddrManOutcomes.HitIs` | src/addrman.cpp:67-80 | an operation finds an entry exactly if one has this address and port |
| `AddrManOutcomes.AttemptOutcome` | src/addrman.cpp:329-349 | only the last try and, exactly if it counts, the failures of that entry change |
| `AddrManOutcomes.CountedOnce` | src/addrman.cpp:345-348 | without a success in between, failures of an entry are counted once |
| `AddrManOutcomes.FirstFailureCounts` | src/addrman.h:475-475 | the first failure in a new manager is counted |
| `AddrManOutcomes.ConnectedOutcome` | src/addrman.cpp:497-515 | only the time of that entry changes, exactly if it is more than twenty minutes old |
| `AddrManOutcomes.SetServicesOutcome` | src/addrman.cpp:517-533 | only the services of that entry change |
| `AddrManOutcomes.LimitIs` | src/addrman.cpp:478-480 | the limit is the largest number of at most 2500 that is at most 23 percent of the entries |
| `AddrManOutcomes.EveryOneReturned` | src/addrman.cpp:483-494 | every entry that is not terrible can be returned |
| `AddrManBuckets.SlotsAre` | src/addrman.cpp:12-31 | the slots of an address, in numbers |
| `AddrManBuckets.RangesDecide` | src/addrman.cpp:19-25 | the address range and the source range decide the new bucket |
| `AddrManBuckets.TriedSpread` | src/addrman.h:111-113 | the tried addresses of one range are in at most eight buckets |
| `AddrManBuckets.RunFrom` | src/addrman.h:104-107 | every run keeps all references in the buckets that the announcing ranges select |
| `AddrManBuckets.RunSpread` | src/addrman.h:95-119 | in every run, sources of k ranges fill at most 64 * k new buckets, and a range of addresses at most eight tried ones |
| `AddrManBuckets.RunSlots` | src/addrman.h:95-119 | so at most 4096 * k new slots |
| `AddrManClear.ClearConsistent` | src/addrman.h:456-478 | after Clear the state is consistent if and only if no collision was pending |
| `AddrManClear.AddsIgnore` | src/addrman.cpp:256-327 | pending collisions have no influence on any run of Add_ |
| `AddrManClear.AnnounceAll` | src/addrman.cpp:256-327 | addresses announced without a time get consecutive ids, and the last one is always there |
| `AddrManClear.StaleCollision` | src/addrman.cpp:594-619 | for every collision that Clear leaves, announcing addresses until its id is given out again makes a selection look up an id that does not exist |
| `AddrManClear.ClearSafe` | src/addrman.h:456-478 | given addresses enough, no run after Clear leads to such a look-up if and only if no collision was pending |
| `AddrManClear.PendingReached` | src/addrman.cpp:237-247 | two addresses with one tried slot: a run from the constructor ends with a collision pending |
| `AddrManClear.ClearUnsafe` | src/addrman.h:456-478 | with more routable addresses than tried slots and any hash functions, runs from the constructor over Clear to the failing look-up exist |
| `AddrManRoundTrip.CountsFit` | src/addrman.h:371-377 | the counts of a consistent state never exceed the limits that reading enforces |
| `AddrManRoundTrip.LoadNewAll` | src/addrman.h:380-397 | the new entries come back numbered in the order of writing |
| `AddrManRoundTrip.LoadTriedAll` | src/addrman.h:400-418 | every tried entry comes back in its own slot; none is counted as lost |
| `AddrManRoundTrip.LoadBucketsAll` | src/addrman.h:421-436 | every new slot and every reference count comes back |
| `AddrManRoundTrip.RoundTrip` | src/addrman.h:301-454 | reading what was written succeeds, reads all of it, and gives the same manager up to one renaming of ids; it is consistent if no stale collision remains |
| `AddrManLayout.SavedLayout` | src/addrman.h:269-299 | the written stream field by field: header, untried entries, tried entries, buckets |
| `AddrManLayout.SavedBucket` | src/addrman.h:334-347 | a written bucket: the number of references and, by position, the numbers of the entries |
| `AddrManLayout.SavedIndex` | src/addrman.h:314-324 | an untried entry is numbered by how many untried ids are smaller |
| `AddrManLayout.ForeignNew` | src/addrman.h:386-396 | without usable buckets every slot goes to the first entry whose source selects it |
| `AddrManLayout.ForeignBuckets` | src/addrman.h:421-436 | and the buckets of such a file are skipped |
| `AddrManLayout.FirstTriedKept` | src/addrman.h:400-418 | of several tried entries with one slot the first gets it |
| `AddrMan.AddrMan.constructor` | src/addrman.h:480-483 | a new manager is empty and valid |
| `AddrMan.AddrMan.Clear` | src/addrman.h:456-478 | everything but the pending collisions is reset |
| `AddrMan.AddrMan.Create` | src/addrman.cpp:81-91 | appends an entry with the next id to the maps and the random order |
| `AddrMan.AddrMan.SwapRandom` | src/addrman.cpp:93-111 | swaps two places and their back-pointers |
| `AddrMan.AddrMan.Delete` | src/addrman.cpp:113-125 | removes an unreferenced entry from all indexes |
| `AddrMan.AddrMan.ClearNew` | src/addrman.cpp:127-140 | clears one slot of the new array |
| `AddrMan.AddrMan.Unlist` | src/addrman.cpp:145-152 | the loop over all buckets takes out exactly the entry's slots |
| `AddrMan.AddrMan.Evict` | src/addrman.cpp:160-178 | moves the occupant of a tried slot back; the source's asserts hold |
| `AddrMan.AddrMan.MakeTried` | src/addrman.cpp:142-188 | the arrays and maps change as the value says; the source's asserts hold |
| `AddrMan.AddrMan.FindBucket` | src/addrman.cpp:219-229 | the search from a random bucket finds one if there is one |
| `AddrMan.AddrMan.Good` | src/addrman.cpp:190-254 | does what the operation on values does, and stays valid |
| `AddrMan.AddrMan.Place` | src/addrman.cpp:305-324 | places or drops the entry |
| `AddrMan.AddrMan.Add` | src/addrman.cpp:256-327 | answers and changes what the operation on values does, and stays valid |
| `AddrMan.TestReference` | src/addrman.cpp:280-297 | a known entry may get one more reference only if it is announced with a newer time, untried, below the limit, and with a chance of one in two to the number it has |
| `AddrMan.AddrMan.Attempt` | src/addrman.cpp:329-349 | counts an attempt; stays valid |
| `AddrMan.AddrMan.Connected` | src/addrman.cpp:497-515 | refreshes the time; stays valid |
| `AddrMan.AddrMan.SetServices` | src/addrman.cpp:517-533 | sets the services; stays valid |
| `AddrMan.AddrMan.GetAddr` | src/addrman.cpp:476-495 | the addresses of the selection, while the random order is shuffled in place |
| `AddrMan.GetAddrAddresses` | src/addrman.cpp:491-493 | the addresses returned are those of the selected entries, with their services and times |
| `AddrMan.AddrMan.ResolveCollisions` | src/addrman.cpp:535-592 | walks the pending set while erasing from it |
| `AddrMan.AddrMan.SelectTriedCollision` | src/addrman.cpp:594-619 | never meets an id that is not there |
| `AddrMan.AddrMan.Serialize` | src/addrman.h:301-349 | writes the header, the entries and the buckets; the source's asserts hold |
| `AddrMan.AddrMan.Unserialize` | src/addrman.h:351-454 | on any stream, ends as the reader on values ends |
| `AddrManCheck.CheckTried` | src/addrman.cpp:438-450 | the walk over the tried array accepts exactly the right arrays |
| `AddrManCheck.CheckNew` | src/addrman.cpp:452-462 | the walk that uses up reference counts accepts exactly the right arrays |
| `AddrManCheck.CheckEntries` | src/addrman.cpp:407-431 | the loop over the entries accepts exactly the entries that pass, and what its look-ups insert into the address map |
| `AddrManCheck.Check` | src/addrman.cpp:399-473 | the self-check answers 0 if and only if the state passes; it changes only the address map, and when it passes at most by the address of entry 0 |
| `AddrManCheck.NothingInserted` | src/addrman.cpp:423-424 | in a consistent manager the look-ups insert nothing |
| `AddrManCheck.SelfCheckExact` | src/addrman.cpp:399-473 | the self-check passes exactly the states with right indexes, tables, counts, counters and times |
| `CoinsState.TotalUpdate` | src/coins.h:211-212 | how one changed entry changes the memory of a cache |
| `CoinsTheorems.FetchKeeps` | src/coins.cpp:41-56 | filling the caches of all layers changes no view and yields the view's coin |
| `CoinsTheorems.GetKeeps` | src/coins.cpp:58-65 | a view of any kind answers with its coin, however deep it is |
| `CoinsTheorems.GetBestKeeps` | src/coins.cpp:136-140 | asking for the best block changes no answer |
| `CoinsTheorems.AddCoinKeeps` | src/coins.cpp:67-86 | when AddCoin throws, what the view shows afterwards, and exactly when the flags stay right |
| `CoinsTheorems.WrongFreshResurrects` | src/coins.cpp:67-113 | a wrong FRESH flag lets a spent coin come back |
| `CoinsTheorems.SpendCoinKeeps` | src/coins.cpp:99-113 | spending removes the coin from the view and nothing else, and moves it out |
| `CoinsTheorems.SpendCoinAnswer` | src/coins.cpp:99-113 | the exact meaning of the answer, including true for an outpoint held as spent |
| `CoinsTheorems.SpentTwice` | src/coins.cpp:99-113 | the second spend of a coin that was fetched from the database answers true although there is no coin |
| `CoinsTheorems.UncacheKeeps` | src/coins.cpp:211-218 | exactly an entry without flags is dropped, and no view changes |
| `CoinsTheorems.FetchEntry` | src/coins.cpp:41-56 | what reading caches, and with which flags |
| `CoinsTheorems.AddCoinEntry` | src/coins.cpp:67-86 | the entry of an added coin and exactly when it is FRESH |
| `CoinsTheorems.SpendCoinEntry` | src/coins.cpp:99-113 | a spent coin is forgotten exactly if its entry was FRESH, and left to write otherwise |
| `CoinsTheorems.ReadsStayClean` | src/coins.cpp:41-56 | runs that only read or trim leave nothing to write |
| `CoinsTheorems.FlushNothing` | src/coins.cpp:147-209 | and then a flush hands down the block hash and nothing else |
| `CoinsTheorems.MergeFlags` | src/coins.cpp:147-202 | the flags of the parent's entry after a merge, and exactly when it goes |
| `CoinsTheorems.BornAndSpent` | src/coins.cpp:67-209 | a coin new to two caches, flushed from one and spent in the other leaves no entry, and a second spend answers false unless the database holds it as spent |
| `CoinsTheorems.NeverMisapplied` | src/coins.cpp:170-176 | with right flags the "FRESH flag misapplied" exception is unreachable |
| `CoinsTheorems.MergeSound` | src/coins.cpp:146-198 | one merged entry: the parent takes the child's coin, its flags stay right towards the grandparent |
| `CoinsTheorems.BatchWriteKeeps` | src/coins.cpp:146-202 | after a batch write the parent shows the child's coins and its flags are right |
| `CoinsTheorems.FlushKeeps` | src/coins.cpp:204-209 | Flush never throws, makes the parent's view the child's and keeps the child's |
| `CoinsTheorems.FlushBestBlock` | src/coins.cpp:200-209 | the parent's best block is the child's exactly when the child knew its own or nothing differs below |
| `CoinsTheorems.FlushForgets` | src/coins.cpp:200-209 | a run after which a flush takes the parent back to the block of the database |
| `CoinsTheorems.AddCoinsKeeps` | src/coins.cpp:88-97 | a transaction's spendable outputs become coins, nothing else changes, nothing is thrown |
| `CoinsTheorems.AddCoinsFresh` | src/coins.cpp:88-97 | outputs that the view does not have yet are FRESH, with or without the check |
| `CoinsTheorems.StepAgrees` | src/coins.cpp:41-218 | every allowed step on a stack of any depth does to the view what a plain map does |
| `CoinsTheorems.RunAgrees` | src/coins.cpp:41-218 | so does every run, on layers at any depth, with pushes, pops and intermediate flushes |
| `CoinsTheorems.RunStoresUnspent` | src/txdb.cpp:107-160 | no run makes the database store a spent coin |
| `CoinsTheorems.RunAccounted` | src/coins.cpp:37-39 | over every run each layer's usage counter is the memory of its coins |
| `Coins.CoinsDb.BatchWrite` | src/txdb.cpp:95-144 | the database after a batch, in any order of entries |
| `Coins.CoinsCache.FetchCoin` | src/coins.cpp:41-56 | fills this and lower layers |
| `Coins.CoinsCache.GetCoin` | src/coins.cpp:58-65 | found flag and coin |
| `Coins.CoinsCache.AccessCoin` | src/coins.cpp:117-124 | the view's coin or a spent one |
| `Coins.CoinsCache.HaveCoin` | src/coins.cpp:126-129 | whether the view has a coin |
| `Coins.CoinsCache.AddCoin` | src/coins.cpp:67-86 | the new layer; a throw has already changed the usage counter |
| `Coins.CoinsCache.SpendCoin` | src/coins.cpp:99-113 | the new stack, the answer and the moved coin |
| `Coins.CoinsCache.Uncache` | src/coins.cpp:211-218 | drops a clean entry |
| `Coins.CoinsCache.GetBestBlock` | src/coins.cpp:136-140 | the best block, remembered in every layer asked |
| `Coins.CoinsCache.SetBestBlock` | src/coins.cpp:142-144 | sets this layer's block and nothing else |
| `Coins.CoinsCache.BatchWrite` | src/coins.cpp:146-202 | the merge of all child entries in any order, usage counted entry by entry; throws exactly on a misapplied flag, with the entries erased from the child merged and the others left in it |
| `Coins.CoinsCache.Flush` | src/coins.cpp:204-209 | hands everything to the base and empties the cache; after a throw both layers are as far as the merge got |
| `Coins.CoinsCache.GetValueIn` | src/coins.cpp:224-234 | the sum of the view's coins, -1 for a missing one |
| `Coins.CoinsCache.HaveInputs` | src/coins.cpp:236-246 | true exactly when all inputs are coins of the view |
| `Coins.AddCoins` | src/coins.cpp:88-97 | adds the outputs one by one, asking the view if told to |
| `CheckQueueTheorems.TopMultiset` | src/checkqueue.h:107-114 | taking a batch off the stack neither loses nor doubles a check |
| `CheckQueueState.BatchIsShare` | src/checkqueue.h:102-107 | a batch is the largest that leaves as much for every other thread and one newcomer, within the limit, and at least one |
| `CheckQueueState.WhoWakes` | src/checkqueue.h:154-157 | who is woken by added work |
| `CheckQueueState.FailureSkips` | src/checkqueue.h:115-121 | after a failure checks are skipped |
| `CheckQueueTheorems.InitialInv` | src/checkqueue.h:131-131 | the invariant holds at the start, for any set of workers |
| `CheckQueueTheorems.AddKeeps` | src/checkqueue.h:146-158 | adding work keeps the invariant |
| `CheckQueueTheorems.Leaves` | src/checkqueue.h:89-97 | the master leaves with the verdict on all checks of the round, and the reset leaves nothing behind |
| `CheckQueueTheorems.Waits` | src/checkqueue.h:98-99 | going to sleep keeps the invariant |
| `CheckQueueTheorems.Takes` | src/checkqueue.h:107-116 | taking a batch keeps the invariant |
| `CheckQueueTheorems.ExecuteKeeps` | src/checkqueue.h:119-121 | running or skipping one check keeps it |
| `CheckQueueTheorems.FinishInner` | src/checkqueue.h:77-82 | reporting a batch closes its checks and keeps the verdict right |
| `CheckQueueTheorems.StepKeeps` | src/checkqueue.h:66-124 | every step of any thread keeps the invariant, and a verdict is right |
| `CheckQueueTheorems.RunVerdicts` | src/checkqueue.h:66-158 | for any number of workers and any interleaving, each Wait answers whether all checks added since the last one pass |
| `CheckQueueTheorems.BlockedMaster` | src/checkqueue.h:88-101 | a blocked master implies an empty queue and a worker that holds a batch |
| `CheckQueueTheorems.LastReportSignals` | src/checkqueue.h:79-82 | the worker that brings the count to zero signals the master |
| `CheckQueueTheorems.NoDeadlock` | src/checkqueue.h:66-124 | while the master is in Wait, some thread has a check to run or a batch to finish, or the master is awake with nothing left to do |
| `CheckQueueTheorems.RunWork` | src/checkqueue.h:66-124 | a bound on the checks and reports before new work is added |
| `CheckQueueTheorems.DoneMasterLeaves` | src/checkqueue.h:88-97 | a master that wakes when all work is reported leaves |
| `CheckQueueTheorems.FreshQueue` | src/checkqueue.h:66-158 | from a fresh queue, for any workers and any interleaving: all verdicts so far are right, a master in Wait is never stuck, and the work left bounds every run that adds none |
| `CheckQueue.CheckQueue.Add` | src/checkqueue.h:146-158 | pushes the checks and tells whom to notify |
| `CheckQueue.CheckQueue.Arrive` | src/checkqueue.h:77-86 | reports a batch or joins |
| `CheckQueue.CheckQueue.Woken` | src/checkqueue.h:99-100 | a woken thread is no longer idle |
| `CheckQueue.CheckQueue.Decide` | src/checkqueue.h:88-116 | returns, sleeps or takes a batch exactly as the state machine does |
| `CheckQueue.CheckQueue.TakeBatch` | src/checkqueue.h:108-114 | moves the top of the queue, topmost first |
| `CheckQueue.Execute` | src/checkqueue.h:119-121 | true exactly when the batch started well and all its checks pass |
| `Limbs.ModulusIsPower` | src/arith_uint256.h:29-30 | w limbs hold 32w bits |
| `Limbs.ShlValue` | src/arith_uint256.cpp:24-39 | shifted limbs stand for the product by a power of two modulo 2^BITS |
| `Limbs.ShrValue` | src/arith_uint256.cpp:41-56 | shifted limbs stand for the floor of the quotient |
| `Limbs.ComplementValue` | src/arith_uint256.h:68-74 | complemented limbs stand for 2^BITS - 1 - x |
| `ArithUint.BaseUint.Set` | src/arith_uint256.h:87-94 | assignment of a 64-bit number |
| `ArithUint.BaseUint.Add` | src/arith_uint256.h:134-144 | the sum modulo 2^BITS, also when both operands are one object |
| `ArithUint.BaseUint.Complement` | src/arith_uint256.h:68-74 | 2^BITS - 1 - x |
| `ArithUint.BaseUint.Increment` | src/arith_uint256.h:172-179 | x + 1 modulo 2^BITS |
| `ArithUint.BaseUint.Negate` | src/arith_uint256.h:76-83 | -x modulo 2^BITS |
| `ArithUint.BaseUint.Subtract` | src/arith_uint256.h:146-150 | the difference modulo 2^BITS |
| `ArithUint.BaseUint.CompareTo` | src/arith_uint256.cpp:112-122 | the order of the numbers |
| `ArithUint.BaseUint.EqualTo` | src/arith_uint256.cpp:124-136 | equality with a 64-bit number |
| `ArithUint.BaseUint.Bits` | src/arith_uint256.cpp:174-187 | the position of the highest bit plus one, zero for zero |
| `ArithUint.BaseUint.ShiftLeft` | src/arith_uint256.cpp:24-39 | multiplies by 2^shift modulo 2^BITS, for every shift |
| `ArithUint.BaseUint.ShiftRight` | src/arith_uint256.cpp:41-56 | floor of the quotient by 2^shift, for every shift |
| `ArithUint.BaseUint.MultiplySmall` | src/arith_uint256.cpp:58-68 | the product modulo 2^BITS; no 64-bit number overflows |
| `ArithUint.BaseUint.Row` | src/arith_uint256.cpp:75-81 | one row of the long multiplication, up to a multiple of 2^BITS |
| `ArithUint.BaseUint.Multiply` | src/arith_uint256.cpp:70-84 | the product modulo 2^BITS |
| `ArithUint.BaseUint.SetBit` | src/arith_uint256.cpp:103-103 | setting a clear bit adds its power of two |
| `ArithUint.BaseUint.QuotientBit` | src/arith_uint256.cpp:100-107 | one round of the division |
| `ArithUint.BaseUint.Divide` | src/arith_uint256.cpp:86-110 | the exact floor quotient; throws exactly on a zero divisor |
| `Compact.OverflowExact` | src/arith_uint256.cpp:220-223 | the overflow test holds exactly when the number needs more than 256 bits |
| `Compact.EncodedFits` | src/arith_uint256.cpp:243-247 | every 256-bit number has a 32-bit compact form |
| `Compact.EncodeDecode` | src/arith_uint256.cpp:207-248 | decoding an encoded number never exceeds it, and equals it exactly when the bytes below the mantissa are zero |
| `Compact.DecodeEncodeDecode` | src/arith_uint256.cpp:207-248 | every decoded number survives encoding and decoding |
| `Compact.SetCompact` | src/arith_uint256.cpp:207-225 | the number modulo 2^256 and the exact meaning of both flags |
| `Compact.GetLow64` | src/arith_uint256.h:244-248 | the number modulo 2^64 |
| `Compact.GetCompact` | src/arith_uint256.cpp:227-248 | the canonical compact form; the source's asserts hold |
| `Compact.TargetPlusOne` | src/chain.cpp:133-133 | target + 1 does not wrap around |
| `Compact.WorkFormula` | src/chain.cpp:129-133 | ~t / (t + 1) + 1 is the floor of 2^256 / (t + 1) |
| `Compact.GetBlockProof` | src/chain.cpp:121-134 | the exact work of a block, zero for an unusable target |
| `Chain.InvertLowestOneIs` | src/chain.cpp:69-70 | the lowest 1 bit, and only it, is cleared |
| `Chain.GetSkipHeight` | src/chain.cpp:72-81 | a skip height is strictly lower |
| `Chain.SkipFromEven` | src/chain.cpp:72-81 | from an even height the lowest 1 bit is cleared |
| `Chain.SkipFromOdd` | src/chain.cpp:72-81 | from an odd height the two lowest 1 bits above the last one |
| `Chain.Block.GetAncestor` | src/chain.cpp:83-108 | whatever mix of pointers is followed, the block that the parent walk reaches; null out of range |
| `Chain.Block.BuildSkip` | src/chain.cpp:115-119 | a block whose parent is linked becomes linked |
| `Chain.LineIs` | src/chain.h:191-198 | a block's line is its ancestors, one for each height |
| `Chain.LastCommonAncestor` | src/chain.cpp:155-170 | the highest common ancestor, null exactly when there is none |
| `Chain.ActiveChain.SetTip` | src/chain.cpp:11-21 | the chain is the tip's line although the loop stops early |
| `Chain.ActiveChain.ContainsLine` | src/chain.h:561-564 | a block is in the chain exactly when it is on the tip's line |
| `Chain.ActiveChain.FindFork` | src/chain.cpp:51-60 | the highest block of the line that is in the chain, null exactly when none is |
| `Chain.LocatorShort` | src/chain.cpp:23-49 | at most 11 entries plus the bit length of the height |
| `Chain.Offsets` | src/chain.cpp:30-46 | the distances of a locator: one apart up to the eleventh, then each gap twice the one before |
| `Chain.ActiveChain.LocatorFrom` | src/chain.cpp:30-46 | the hashes of strictly descending ancestors, single steps and then doubling ones, ending at genesis |
| `Chain.ActiveChain.GetLocator` | src/chain.cpp:23-49 | the locator of a block or of the tip, empty exactly for an empty chain |
| `Base58.ConvertTwice` | src/base58.cpp:35-122 | converting between bases and back gives every digit string again, leading zeros included |
| `Base58.AlphabetDigits` | src/base58.cpp:14-33 | the table is the inverse of the alphabet |
| `Base58.AlphabetChars` | src/base58.cpp:14-33 | and the alphabet of the table; no digit is a space |
| `Base58.AlphabetExact` | src/base58.cpp:14-15 | the alphabet is the digits and letters without 0, O, I and l |
| `Base58.AlphabetAscends` | src/base58.cpp:14-15 | characters ascend strictly with the digits |
| `Base58.DecodeEncode` | src/base58.cpp:35-122 | decoding an encoded byte string gives it back, for all byte strings |
| `Base58.EncodeDecode` | src/base58.cpp:35-122 | encoding a decoded word gives it back, for all words of the alphabet |
| `Base58.SpacesIgnored` | src/base58.cpp:37-70 | spaces around a word do not matter |
| `Base58.DecodeExact` | src/base58.cpp:35-82 | decoding accepts exactly the encoded forms with blanks around them |
| `Base58.Room58` | src/base58.cpp:94-94 | 256^n <= 58^(138n/100 + 1) for all n |
| `Base58.Room256` | src/base58.cpp:48-48 | 58^n <= 256^(733n/1000 + 1) for all n |
| `Base58.MulAdd` | src/base58.cpp:97-110 | one round on the buffer multiplies and adds in place, and the carry is used up |
| `Base58.Collect` | src/base58.cpp:94-110 | the buffer ends with the number of all digits; no assert fires |
| `Base58.EncodeBase58` | src/base58.cpp:84-122 | the alphabet form of a byte string |
| `Base58.DecodeBase58` | src/base58.cpp:35-82 | accepts exactly one word of digits with spaces around it, and converts it |
| `Bech32.StepLinear` | src/bech32.cpp:64-92 | a step of the checksum is linear over GF(2) |
| `Bech32.StepInjective` | src/bech32.cpp:64-92 | and forgets nothing |
| `Bech32.FoldLinear` | src/bech32.cpp:37-94 | so is the whole checksum |
| `Bech32.ChecksumVerifies` | src/bech32.cpp:118-139 | what is appended is accepted, for every prefix and every data |
| `Bech32.BurstDetected` | src/bech32.cpp:118-125 | any change within six neighbouring symbols of a valid string is rejected, at any length |
| `Bech32.SymbolDetected` | src/bech32.cpp:118-125 | one changed symbol is rejected |
| `Bech32.DecodeEncode` | src/bech32.cpp:147-190 | Decode gives back exactly the prefixes and data that are printable, not upper-case and short enough |
| `Bech32.RunPolyMod` | src/bech32.cpp:37-94 | the loop computes the checksum that is proved to be the remainder |
| `Bech32.Encode` | src/bech32.cpp:147-156 | the string of prefix, separator, data and the one checksum that is accepted |
| `Bech32.Decode` | src/bech32.cpp:159-190 | what a string stands for, or nothing, which is proved to invert Encode exactly |
| `Bech32Code.MulAdds` | src/bech32.cpp:51-56 | multiplication in GF(32) distributes over addition |
| `Bech32Code.MulOne` | src/bech32.cpp:51-56 | one is neutral |
| `Bech32Code.MulNonzero` | src/bech32.cpp:51-56 | and no product of nonzero symbols is zero |
| `Bech32Code.Multiples` | src/bech32.cpp:87-91 | the five constants are the generator's lower part times 1, 2, 4, 8 and 16 |
| `Bech32Code.StepCoefficient` | src/bech32.cpp:64-92 | a step is c(x) * x + v with x^6 replaced by the rest of the generator |
| `Bech32Code.PolyModIsRemainder` | src/bech32.cpp:34-94 | the checksum is the remainder modulo the generator, if and only if |
| `Bech32Code.HrpExpanded` | src/bech32.cpp:102-116 | the upper three and the lower five bits of every character around a zero |
| `Bech32Code.VerifyIsRemainderOne` | src/bech32.cpp:118-125 | symbols are accepted if and only if their polynomial is one more than a multiple of the generator |
| `Bech32Code.ChecksumUnique` | src/bech32.cpp:127-140 | only the created checksum is accepted |
| `Bech32Code.CharsetIs` | src/bech32.cpp:12-13 | the characters of the symbols |
| `Bech32Code.RevExact` | src/bech32.cpp:15-25 | a character stands for a symbol if and only if its lower case is the symbol's character |
| `Bech32Code.DecodeExact` | src/bech32.cpp:159-190 | Decode accepts exactly the printable strings in one case of at most 90 characters whose lower-case form Encode writes |
| `CompactBlocks.PartialBlock.Prefill` | src/blockencodings.cpp:57-75 | accepts exactly the messages whose indexes fit and puts the transactions in their slots |
| `CompactBlocks.PrefilledPlaces` | src/blockencodings.cpp:57-75 | the indexes of prefilled transactions are distances between their places |
| `CompactBlocks.FreeComplete` | src/blockencodings.cpp:83-89 | every empty slot is counted |
| `CompactBlocks.PartialBlock.MapIds` | src/blockencodings.cpp:81-105 | the i-th short id is mapped to the i-th free slot, never out of range; fails exactly on a crowded table or a repeated id |
| `CompactBlocks.PartialBlock.LookInPool` | src/blockencodings.cpp:106-133 | exactly which transaction every slot holds after the mempool scan, and after which one the scan stops |
| `CompactBlocks.PartialBlock.LookInExtra` | src/blockencodings.cpp:135-164 | the same for the extra transactions: the first offer, or nothing if a different one was offered too |
| `CompactBlocks.PartialBlock.InitData` | src/blockencodings.cpp:49-169 | exactly when a message is invalid and when it fails; otherwise every slot holds the first transaction offered under its id by those looked at, or nothing if two of them conflict |
| `CompactBlocks.StopsOnce` | src/blockencodings.cpp:127-131 | how far a scan looks is determined by the candidates |
| `CompactBlocks.SlotReason` | src/blockencodings.cpp:106-164 | against all candidates: a slot holds one of the offers, and is empty only if there is none or two conflict |
| `CompactBlocks.AllLookedAt` | src/blockencodings.cpp:106-164 | if no scan stops early, all candidates decide every slot |
| `CompactBlocks.MissedConflict` | src/blockencodings.cpp:127-131 | candidates for which a scan stops early, leaves a conflict unnoticed and another slot empty |
| `CompactBlocks.PartialBlock.FillBlock` | src/blockencodings.cpp:177-216 | the slots with the missing transactions in order; too few or too many are invalid, and what is left in the object |
| `CompactBlocks.RightSlots` | src/blockencodings.cpp:49-169 | if short ids tell the transactions apart, no slot holds a wrong one |
| `CompactBlocks.Rebuilds` | src/blockencodings.cpp:177-198 | right slots and the missing transactions give the block |
| `CompactBlocks.MadeDescribes` | src/blockencodings.cpp:19-29 | the sender's message describes its block |
| `CompactBlocks.Relay` | src/blockencodings.cpp:19-216 | from end to end: if short ids tell the transactions of the block and of both pools apart, every message that can be read gives the block that was sent, and reading fails only for a crowded table or a repeated transaction |
| `CompactBlocks.WriteIndexes` | src/blockencodings.h:63-66 | the differences that are written |
| `CompactBlocks.ReadIndexes` | src/blockencodings.h:42-61 | accepts exactly what fits into 16 bits, and sums up in place |
| `CompactBlocks.IndexesRoundTrip` | src/blockencodings.h:38-69 | an index list can be read back exactly when it is strictly ascending |
| `CompactBlocks.DifferencesBack` | src/blockencodings.h:38-69 | and whatever can be read is ascending and written the same |
| `BlockFilter.DecodeCode` | src/blockfilter.cpp:18-47 | a Golomb-Rice code is read back, whatever follows it |
| `BlockFilter.CodeDecode` | src/blockfilter.cpp:18-47 | only the code of a number is read as that number |
| `BlockFilter.CodeAt` | src/blockfilter.cpp:18-33 | a code bit by bit |
| `BlockFilter.CodeAllAt` | src/blockfilter.cpp:142-150 | each number of a list is coded by its distance to the one before |
| `BlockFilter.DecodeCodeAll` | src/blockfilter.cpp:103-154 | decoding an encoded sorted list gives the list |
| `BlockFilter.MapIntoRange` | src/blockfilter.cpp:54-78 | floor(x * n / 2^64) from 32-bit halves without overflow, and below n |
| `BlockFilter.HashedSet` | src/blockfilter.cpp:88-97 | the hashes of a set in the range N * M, sorted, and nothing else |
| `BlockFilter.BuildHashedSet` | src/blockfilter.cpp:80-97 | mapping every hash into the range and sorting gives that list |
| `BlockFilter.GolombRiceEncode` | src/blockfilter.cpp:18-33 | writes exactly the code |
| `BlockFilter.Reader.GolombRiceDecode` | src/blockfilter.cpp:35-47 | reads exactly one code; throws when the bits run out |
| `BlockFilter.BuildFilter` | src/blockfilter.cpp:126-154 | the size and the coded hashes of a set, filled up to whole bytes; throws exactly when the size does not fit into 32 bits |
| `BlockFilter.CheckFilter` | src/blockfilter.cpp:115-123 | accepts exactly n codes with no whole byte after them |
| `BlockFilter.OpenFilter` | src/blockfilter.cpp:103-124 | accepts exactly the bytes of a readable size and so many codes |
| `BlockFilter.BuiltFilter` | src/blockfilter.cpp:103-154 | a filter that was built is accepted and holds the sorted hashes |
| `BlockFilter.UnpackPack` | src/streams.h:510-600 | bits written to bytes are read back |
| `BlockFilter.UnpackAt` | src/streams.h:510-600 | the highest bit of a byte comes first |
| `BlockFilter.BuiltOpens` | src/blockfilter.cpp:103-154 | a filter that was built can be opened if and only if it has at most 0x02000000 elements, and then has the sorted hashes |
| `CompactSize.ReadWritten` | src/serialize.h:252-307 | a written size is read back if and only if it is at most 0x02000000 |
| `CompactSize.WrittenRead` | src/serialize.h:252-307 | only the written form of a size is read as that size |
| `CompactSize.WriteIs` | src/serialize.h:252-276 | the written form byte by byte |
| `BlockFilter.MatchInternal` | src/blockfilter.cpp:156-186 | the joint walk finds a common value exactly when there is one |
| `BlockFilter.MatchAny` | src/blockfilter.cpp:156-198 | true exactly when a query and an element have the same hash; throws exactly when the size cannot be read |
| `BlockFilter.MemberMeets` | src/blockfilter.cpp:194-198 | no false negatives |
| `CuckooCache.LocationInRange` | src/cuckoocache.h:243-253 | every location is inside the table |
| `CuckooCache.PlacesAre` | src/cuckoocache.h:243-253 | the places of an element are the slots that its eight hashes, as fractions of 2^32, fall into |
| `CuckooCache.LaterSlots` | src/cuckoocache.h:243-253 | larger hashes fall into the same or later slots |
| `CuckooCache.EverySlotReached` | src/cuckoocache.h:243-253 | and some hash into every slot |
| `CuckooCache.NextPlaceIs` | src/cuckoocache.h:416-430 | which place is displaced: the second of a fresh element, then the next one, never the one just filled if places differ |
| `CuckooCache.Flags.Set` | src/cuckoocache.h:92-95 | sets one flag of the packed bytes and no other |
| `CuckooCache.Flags.Unset` | src/cuckoocache.h:103-106 | clears one flag and no other |
| `CuckooCache.Cache.Setup` | src/cuckoocache.h:340-353 | an empty valid cache of the given size |
| `CuckooCache.EpochSizeExact` | src/cuckoocache.h:348-349 | the epoch size is 45 percent of the slots if and only if there are at most 95443717 |
| `CuckooCache.Cache.EpochCheck` | src/cuckoocache.h:289-321 | which entries survive, which of them are recent and which are marked, and when the next scan is due; the epoch has room for one more |
| `CuckooCache.Cache.CountRecent` | src/cuckoocache.h:297-300 | the number of live entries of the current epoch |
| `CuckooCache.Cache.Age` | src/cuckoocache.h:306-310 | the old epoch is marked and the current one becomes old |
| `CuckooCache.Cache.Insert` | src/cuckoocache.h:392-446 | if the element is there or its displacements reach a collectable place within the depth limit, exactly it is added to the live and to the recent elements; otherwise exactly one of all is lost; every live element stays where a search finds it |
| `CuckooCache.Cache.Contains` | src/cuckoocache.h:445-477 | finds exactly the elements at their places, so every live one; erasing marks the place that was found and removes exactly that element, whatever the element |
| `CuckooCache.Cache.FoundAgain` | src/cuckoocache.h:445-454 | after an insert, an element that is found and erased is still found, as the documentation promises |
| `CuckooCache.LiveErase` | src/cuckoocache.h:467-477 | as every live element is in the one slot where it is found, marking that slot removes it |
| `CuckooCache.LiveOnce` | src/cuckoocache.h:397-405 | no element is live in two slots, not even the one that fills a new table |
| `CuckooCache.Cache.MakeRoom` | src/cuckoocache.h:406-441 | the loop of insert: everything is kept exactly when the chain of displacements ends in time, and otherwise one element is lost |
| `RollingBloom.WipedCell` | src/bloom.cpp:253-261 | the masks unset exactly the cells of one generation |
| `RollingBloom.WrittenCell` | src/bloom.cpp:271-272 | writing a position changes that position only |
| `RollingBloom.WipeRight` | src/bloom.cpp:247-261 | exactly the cells last written three generations ago are wiped |
| `RollingBloom.RollingBloomFilter.constructor` | src/bloom.cpp:205-230 | two generations cover the elements to remember, and no more than one beyond; the filter is usable exactly if there are any and fewer than 2^32 - 1 |
| `RollingBloom.RollingBloomFilter.Reset` | src/bloom.cpp:302-310 | an empty filter |
| `RollingBloom.RollingBloomFilter.Insert` | src/bloom.cpp:245-274 | the key joins the history, and every cell holds the name of the generation that last wrote it unless that is three generations old |
| `RollingBloom.RollingBloomFilter.Contains` | src/bloom.cpp:282-294 | true if and only if every hash of the key agrees, modulo 64 and in its half position, with some hash of an entry of the last three generations; always for those entries |
| `RollingBloom.RollingBloomFilter.LastOnes` | src/bloom.h:114-115 | the last 2 * nEntriesPerGeneration keys are among those |
| `RollingBloom.EveryCellSelected` | src/bloom.cpp:264-269 | every cell of an array of up to 2^26 words is selected by some hash |

## Left out

- Select_ of the address manager and entry chances: they are probabilistic, and their loops end with probability one only.
- Names, files, locks and logging around the address manager; `Find` is inlined as a look-up.
- Addresses, services and hashes have no inner structure; ids do not overflow 32 bits.
- AddrManCheck.Check: which of the error codes is returned for a state that fails in several ways.
- Streams of tokens stand for the saved bytes; byte formats of addresses and integers are not modelled.
- Coins.CoinsDb.BatchWrite: the batches of src/txdb.cpp are written at once, because crash recovery and head blocks belong to the database.
- SetBackend, cursors and size estimates of the coin views, and the lookup of any output of a transaction id.
- The controller object of the check queue, which only keeps a second master away, is the rule that work is added by one master outside Wait.
- Fairness of the scheduler: that a fair run ends is stated by the bound on work and the absence of deadlock.
- Hexadecimal text, doubles, the bitwise operators of whole numbers, postfix and decrement operators of the wide integers.
- The equivalent time of block work, which is one division of numbers already covered, and the search for the earliest block by time, which the chain delegates to a library search over a field that is not modelled.
- Chain.Block: parent and height are fixed when a block enters the index, as in the node; steps of a locator do not overflow 32 bits.
- Base58Check, whose checksum is a hash, and strings with an embedded NUL.
- Bech32 detection of up to four arbitrary errors, which needs a search over the code.
- CompactBlocks.PartialBlock.InitData: messages of at most 65535 transactions, which reading a message enforces (src/blockencodings.h:189-190); slot numbers are kept in 16 bits.
- Growing an index list in steps of 1000 while it is read; short id serialization and the statistics of compact blocks; the transactions' own format.
- BlockFilter.CheckFilter: bits are a list packed into bytes at once; the one-byte buffer of the bit streams, code parameters above 64 and sums of a foreign filter above 2^64 are not modelled.
- The basic filter's choice of scripts from a block.
- Concurrency of erasures in the cuckoo cache.
- CuckooCache.Cache.Setup: the depth limit is a parameter instead of a floating-point logarithm.
- RollingBloom.RollingBloomFilter.constructor: the number of words is a parameter instead of a quotient of logarithms; a filter for no elements has none, and looking anything up in it reads outside its data.
- Plain Bloom filters, amount compression and ban lists, which have no invariant beyond one function.
