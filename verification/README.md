# Landscape: verified models of the router's core

This project models the parts of the Landscape router that carry its hardest promises and proves those promises in Dafny 4.11. `dafny verify dfyconfig.toml` checks all of it.

| modules | what they model |
|---|---|
| `Store`, `StoreHistory`, `StoreProtocol`, `StoreTheorems`, `StoreWriter`, `StoreRefinement` | the optimistic-lock configuration store: rows, versions, snapshot transactions, the retry loop, the import |
| `DnsLifecycle`, `DnsTheorems`, `DnsRefresh` | start, stop, refresh, renewal and probes of the per-flow DNS listeners, with their locks and cancel tokens |
| `Bits`, `Allocator`, `AccountingHeap`, `MemoryHistory` | the accounting allocator, its counters, and the ring of memory snapshots |
| `ClientHello` | the server-name parser of the TLS proxy |
| `Text`, `AdguardLines`, `Adguard`, `AdguardMeaning` | the AdGuard rule compiler, from lines of text to the rule list and the names it blocks |
| `PathRouting`, `RoutingLaws`, `WeightedTargets` | host and path routing, redirects, prefix stripping, weighted target choice |
| `BuildCache`, `WorkQueue` | the build-script cache key, its FNV-1a digest, the cached-hash test, the worker pool |
| `DnrNames`, `Dnr`, `DnrDecode`, `NameForms` | the encrypted-resolver option of DHCPv4, a decoder for it, and the names it advertises |
| `Rollback` | validation of release boundaries and rollback planning |

**The store.** The database is one map from keys to rows. `Store` gives the serial meaning of each call, and `StoreWriter` runs a call as the code does, statement by statement, inside the retry loop. `StoreProtocol` lets any number of clients interleave, one database statement at a time, with arbitrary clocks and failures; `StoreRefinement` shows that the writer's retry loop, with rivals between its attempts, is one of its runs. The only thing assumed of SQLite is its write-ahead-log rule: a write succeeds only while no other transaction holds the write lock and nothing was published since the snapshot. Versions are whole milliseconds, and `+ 1.0` rounds as a 64-bit float does.

**The DNS listeners.** Every operation is a program counter, and a step is what one operation does between two points where another may run. Listeners may die at any step. The calling discipline is explicit: a start is enabled only when no run is present and no stop is under way.

**The allocator.** Memory is a sequence of bytes, and the system allocator is an oracle that grants disjoint aligned ranges or refuses. Addresses, header fields and counters have their real widths.

## Where the code and a plausible reading of it part ways

Each of these has a lemma at a concrete input and, beside it, the exact condition under which the property holds; for the overlapping stop it is instead where whatever is left must lie.

- A stale client is documented to get a conflict always. Over a deleted row its checked write inserts instead (`DeletedRowAcceptsStaleEcho`), over a row re-created under a rolled-back clock its echo can pass (`RecreatedRowAcceptsStaleEcho`), and so it can over a stuck version (`StuckRowAcceptsStaleEcho`). In every run, when the key was not removed since the client read, it is refused if and only if some write raised the version since, which below 2^53 means if and only if anybody touched the key; when the key was removed, if and only if it stands there again under another version (`RunStaleClient`, `RunStaleAfterRemoval`).
- Versions stop growing where `+ 1.0` cannot raise a float, from 2^53 on (`StuckVersions`, `SecondEcho`). A write gets there exactly when the clock is there or the replaced version is at least 2^53 - 1 (`ReachesLimit`, `StuckByClockOrStep`); an import stores whatever version it is given.
- A second stop that overlaps the first returns while listeners may still be live (`OverlappingStopReturnsEarly`). What is left when it returns lies only in flows the other stop has still to sweep (`HowStopReturns`).
- A refresh that loaded the run before the stop can spawn a task after the stop has waited (`LateBinderIsReachable`, `LateTask`); the wait is final exactly when no such refresh exists (`WaitIsFinalIffNoBinder`).
- A block with alignment of 2^32 or more cannot be freed, because its header stores alignment 0 (`WideAlignmentIsLost`, `RecoveryIffSmallAlign`).
- A tag of 2^32 or more whose low 32 bits name a subsystem is credited to the wrong slot (`WhichTagsKeepTheirSlot`, which also gives 2^32 as the input). Conservation holds slot by slot exactly when no freed block went astray so (`BalancedIffNothingAstray`).
- A slot's live bytes are shown right exactly when its captured difference has not drifted from them, by lost wraps or by strays, or has drifted below zero with nothing live (`WrappedSlotShowsNothing`, `StraySlotShowsFreedBytes`, `LiveBytesShown`). In the total the strays cancel: it is right exactly when no wrap was lost over all slots and the memory fits a word, or the clamp happens to hit (`TotalShown`). With nothing astray and less than 2^64 live bytes both come down to equally many wraps of both byte counters.
- Weighted choice is proportional exactly when the weights sum to a positive 32-bit value (`WrappedWeightsAreUnfair`, `ProportionalIffNoWrap`). This is the wrap-around of a release build; a debug build panics instead.
- A redirected request goes to the same group, except from an empty path with an empty prefix beside a root group (`EmptyPathChangesGroup`, `SameGroup`).
- A failing hash write after a new skeleton was generated leaves the old hash behind, and undoing the edit is then served from the cache with the wrong skeleton (`FailedHashServesWrongSkeleton`). In the model, where a failed generation leaves the old skeleton and a failed hash write the old hash, nothing else breaks the cache (`TruthKeptIffHashFollows`).

## Model

| member | source | states |
|---|---|---|
| Store.PlusStep | landscape-common/src/database/repository.rs:27-29 | adding 1.0 to a whole version never lowers it, and raises it exactly below 2^53 or where rounding to even goes up |
| Store.NextVersion | landscape-common/src/database/repository.rs:27-29 | the next version is not below the clock, not below the stepped old version, and one of the two |
| Store.BatchByClock | landscape-database/src/writer.rs:279-284 | each write of a batch is versioned by the clock its own item read: a new row gets it, a replaced row no less, and more only where the stepped old version is past it |
| Store.DeleteRemovesTheKey | landscape-database/src/writer.rs:207-218 | a delete always goes through: it removes the key and nothing else and reports the row; over a missing key it reports nothing and leaves the database alone |
| Store.PrefixSound | landscape-database/src/writer.rs:248-321 | whatever the items of a call write continues the history truthfully: each event found what the database held, and rows stay under their own keys |
| Store.PrefixShorter | landscape-database/src/writer.rs:248-259 | a prefix of a batch that goes through goes through too, with a prefix of its events |
| Store.BatchEvents | landscape-database/src/writer.rs:248-259 | a batch publishes exactly one write per configuration, in order, carrying that configuration's data and echoed version |
| StoreHistory.HistoryChain | landscape-database/src/writer.rs:269-320 | per key, the old value each event reports is what the previous event on that key left, and nothing after a delete |
| StoreHistory.HistoryStart | landscape-database/src/writer.rs:269-320 | the first event on a key reports what the database held at the start |
| StoreHistory.VersionsNeverFall | landscape-common/src/database/repository.rs:27-29 | without a removal a written row stays and its version never falls, whatever the clocks show |
| StoreHistory.VersionsIncrease | landscape-common/src/database/repository.rs:27-29 | between removals every later write of a key is at least 1 above every earlier one, up to 2^53 |
| StoreHistory.NoLostUpdate | landscape-database/src/writer.rs:263-321 | in any truthful history two checked writes over the same version of a key have a removal of that key between them |
| StoreHistory.SecondEcho | landscape-database/src/writer.rs:263-321 | a second checked write echoing one version goes through if and only if the clock is not ahead and the float sum is stuck |
| StoreHistory.StuckVersions | landscape-common/src/database/repository.rs:27-29 | a clock that leaves a version unchanged exists if and only if adding 1.0 does not raise it; 2^53 is such a version |
| StoreHistory.SupersededIsHigher | landscape-database/src/writer.rs:263-321 | without a removal a key read at version v stays, at v until a blind or checked write raises it and above v from then on |
| StoreHistory.TouchRaises | landscape-common/src/database/repository.rs:27-29 | without a removal, and where adding 1.0 can raise the version read, the version was raised if and only if the key was touched |
| StoreHistory.StaleClient | landscape-common/src/database/store.rs:29-40 | on any truthful history a client that read a version is refused, without a removal since, if and only if some write raised it (if and only if the key was touched, where 1.0 can raise it); after a removal, if and only if the key is there under another version |
| StoreHistory.StaleAfterRemoval | landscape-database/src/writer.rs:263-321 | when the last touch removed the key a stale write inserts; after a write that nothing removed, a client echoing less is refused for good and one echoing that version is refused if and only if a later write raised it |
| StoreHistory.StuckRowAcceptsStaleEcho | landscape-common/src/database/store.rs:29-40 | concrete history where a stale echo of 2^53 passes over an undeleted row |
| StoreHistory.NoStaleWrite | landscape-database/src/writer.rs:263-321 | a checked write that echoes a version raised since it was read is in no truthful history without a removal of the key in between |
| StoreHistory.ReachesLimit | landscape-common/src/database/repository.rs:27-29 | a write stores a version from 2^53 on if and only if the clock is there or the replaced version is at least 2^53 - 1 |
| StoreHistory.StuckByClockOrStep | landscape-common/src/database/repository.rs:27-29 | both ways to the stuck version 2^53, each at a concrete input |
| StoreHistory.DeletedRowAcceptsStaleEcho | landscape-common/src/database/store.rs:29-40 | the documented conflict for every stale client fails on a deleted row: the write inserts |
| StoreHistory.RecreatedRowAcceptsStaleEcho | landscape-common/src/database/store.rs:29-40 | a row deleted and re-created under a rolled-back clock accepts a stale echo |
| StoreHistory.BlindIgnoresEcho | landscape-database/src/writer.rs:263-321 | the outcome of a blind write does not depend on the version its client sent |
| StoreHistory.DoubleEcho | landscape-database/src/writer.rs:248-259 | a checked batch naming one existing key twice with one version never succeeds |
| StoreProtocol.KeepCommit | landscape-database/src/writer.rs:32-72 | a commit appends one whole call to the serial log and keeps the invariant |
| StoreProtocol.KeepInv | landscape-database/src/writer.rs:32-72 | every step of every client keeps the protocol invariant |
| StoreTheorems.RunsAreSerial | landscape-database/src/writer.rs:32-72 | in every interleaving the database is what running the published calls one after another gives |
| StoreTheorems.RunHistoryChain | landscape-database/src/writer.rs:269-320 | in every interleaving the events on a key form one chain |
| StoreTheorems.RunVersionsIncrease | landscape-common/src/database/repository.rs:27-29 | in every interleaving versions of a key grow by at least 1 between removals, below 2^53 |
| StoreTheorems.RunVersionsFollowTheClock | landscape-database/src/writer.rs:269-320 | in every run each write of a published upsert carries its configuration and a version not below the clock its item read, above it only as the stepped old version, and that clock was read by the publishing client |
| StoreTheorems.RunWritesValidatedRows | landscape-database/src/lib.rs:153-190 | in every run a committed checked batch wrote exactly the rows its validators passed, in order |
| StoreTheorems.RunNoLostUpdate | landscape-database/src/writer.rs:32-72 | in every interleaving at most one of the checked writers sharing one base version commits, unless the key was removed in between |
| StoreTheorems.RunChecksTheEcho | landscape-database/src/writer.rs:263-321 | in every run a checked write over a row replaced exactly the version its client echoed, and reports the row that stood there |
| StoreTheorems.HistoryGrows | landscape-database/src/writer.rs:32-72 | in every run later histories extend earlier ones |
| StoreTheorems.RunStaleClient | landscape-common/src/database/store.rs:29-40 | in every run, a client that read a row at one moment conflicts at a later one, without a removal in between, if and only if some write raised the version (if and only if anybody touched the key, where 1.0 can raise it); after a removal, if and only if the key is there under another version |
| StoreTheorems.RunStaleAfterRemoval | landscape-common/src/database/store.rs:29-40 | in every run a stale write inserts when the last touch removed the key; after a write that nothing removed, a client echoing less is refused for good and one echoing that version is refused if and only if a later write raised it |
| StoreTheorems.RunNoStaleWrite | landscape-common/src/database/store.rs:29-40 | in every run no checked write echoing a version raised since it was read commits unless the key was removed in between |
| StoreTheorems.AllOrNothing | landscape-database/src/writer.rs:32-72 | in every run each call has published its whole batch exactly once or nothing at all, according to its outcome |
| StoreTheorems.NoDoubleEchoCommits | landscape-database/src/writer.rs:248-259 | no published checked batch named one then-existing key twice with one version |
| StoreTheorems.ImportReplacesEverything | landscape-database/src/provider.rs:154-191 | an import goes through if and only if its keys are distinct, and then leaves exactly its rows |
| StoreTheorems.BoundedAttempts | landscape-database/src/writer.rs:32-72 | in every run no call begins more than 12 transactions |
| StoreTheorems.HowCallsEnd | landscape-database/src/writer.rs:32-72 | a call ends by its own step with that step's outcome; a fatal error ends it at once, a lost race only after the last attempt and otherwise starts the next one |
| StoreTheorems.ExhaustedLostTwelveRaces | landscape-database/src/writer.rs:32-72 | in every run a call that gave up lost exactly 12 races and met no fatal error |
| StoreTheorems.CallsTerminate | landscape-database/src/writer.rs:32-72 | in every run the steps of a call are bounded by its arrival fuel, whatever its rivals do |
| StoreTheorems.WinnerIsNotBlocked | landscape-database/src/writer.rs:32-72 | in every run a client that may write always has its next step enabled |
| StoreTheorems.OneUncommittedWriter | landscape-database/src/writer.rs:20-28 | in every run at most one open transaction has written, and the database is still its snapshot |
| StoreTheorems.ConflictIsReal | landscape-database/src/writer.rs:263-321 | a conflict outcome means the row is there under another version at that moment |
| StoreWriter.Transaction.UpsertInner | landscape-database/src/writer.rs:263-321 | one upsert in a transaction does what the serial meaning says; it fails if and only if the read fails, or over an existing row of a checked write the conditional update fails or finds another version, or the save fails, with the error of the first of these |
| StoreWriter.Transaction.UpsertManyInner | landscape-database/src/writer.rs:248-259 | a batch in a transaction has the serial effect of the whole call, or the error of its first failing item |
| StoreWriter.Transaction.DeleteInner | landscape-database/src/writer.rs:207-218 | a delete removes the row it read and reports it, or fails exactly when the read fails or, over a row, the delete does |
| StoreWriter.StoreWriter.Execute | landscape-database/src/writer.rs:32-72 | at most 12 attempts; every attempt but the last ended in a lost race, and the last one decides: committed with the whole serial effect if it had no error, a conflict, failed or, after the twelfth lost race, exhausted; without a commit the database is as the rivals left it |
| StoreWriter.AttemptErrorIsExplained | landscape-database/src/writer.rs:32-72 | an attempt fails for good only for a failing begin, a commit with a code that is not retried or a statement with one; it conflicts only where the call has no effect; an attempt without faults commits if the call has an effect on what it sees and conflicts if not |
| StoreWriter.BodyErrorIsExplained | landscape-database/src/writer.rs:248-259 | the same for the items of an attempt: a conflict only where the prefix has no effect, any other error by a fault of some item, none where the items succeed |
| StoreWriter.LoopEndsAtFirstWin | landscape-database/src/writer.rs:32-72 | after any number below 12 of lost races, an attempt without faults is the last one: committed if the call has an effect there, else a conflict |
| StoreWriter.WhichCodesRetry | landscape-database/src/writer.rs:331-342 | the codes 5, 517 and 1555 are retried, no code and every other one, such as 2067, is not |
| StoreWriter.StoreWriter.CheckedUpsertMany | landscape-database/src/lib.rs:153-190 | a validator's refusal begins no transaction and changes nothing; otherwise the rewritten configurations go through the retry loop, with its outcome |
| StoreWriter.StoreWriter.TruncateAndFit | landscape-database/src/provider.rs:193-221 | the import succeeds if and only if every statement, the hook and the commit do and keys are distinct; then the database holds exactly its rows, else it is unchanged |
| StoreRefinement.SerialCallCommits | landscape-database/src/writer.rs:32-72 | a call with a serial effect, run alone statement by statement from a free write lock, is a run of the protocol that publishes exactly that effect |
| StoreRefinement.SerialCallConflicts | landscape-database/src/writer.rs:32-72 | a checked batch that fails at an item, run alone, is a run of the protocol that ends in a conflict with nothing changed |
| StoreRefinement.LostAttemptRuns | landscape-database/src/writer.rs:32-72 | an attempt lost after any number of items is a run of the protocol that changes nothing but the retry count |
| StoreRefinement.RetryLoopCommits | landscape-database/src/writer.rs:32-72 | lost attempts with any rival steps in between, then an attempt that begins with the write lock free and commits, are one run that publishes the call's effect on what the database holds by then |
| StoreRefinement.RetryLoopConflicts | landscape-database/src/writer.rs:32-72 | the same loop ending in a conflict is one run that leaves the database as the rivals left it |
| StoreRefinement.RetryLoopExhausts | landscape-database/src/writer.rs:32-72 | eleven lost attempts and a twelfth are one run that gives up with the database as the rivals left it |
| DnsLifecycle.KeepInv | landscape-dns/src/server.rs:196-348 | every step of every operation, listener death and task end keeps the lock, run, listener and visit invariants; what a refresh achieves is stated by `RefreshRevives`, `RefreshServes` and `RefreshOutcome` |
| DnsLifecycle.StoppedOwnsNothing | landscape-dns/src/server.rs:205-221 | with no run and no stop at work nothing is stored, live or being built |
| DnsTheorems.OneLiveListenerPerFlow | landscape-dns/src/server.rs:300-348 | in every run each live listener is stored in its flow's entry or being installed under that flow's lock, and a flow never has two |
| DnsTheorems.NoRebuildWhileLive | landscape-dns/src/server.rs:310-348 | nobody is installing a listener for a flow whose stored one lives |
| DnsTheorems.StopSweepsUntilStart | landscape-dns/src/server.rs:205-221 | once a sweeping stop returned, every entry is empty and every listener cancelled, and stays so until the next start |
| DnsTheorems.HowStopReturns | landscape-dns/src/server.rs:205-221 | a stop returns after its sweep with everything gone, or at once because the run was taken; what is left then lies only in flows another stop has still to sweep |
| DnsTheorems.LeftoversAwaitSweep | landscape-dns/src/server.rs:205-221 | with no run present every stored runtime, live listener and rebuild is in a flow that a stop at work has still to sweep |
| DnsTheorems.OverlappingStopReturnsEarly | landscape-dns/src/server.rs:205-209 | a reachable state where a second stop returns while a listener is live |
| DnsTheorems.WaitIsFinalIffNoBinder | landscape-dns/src/server.rs:205-213 | after the wait no task of the run ever runs again if and only if no refresh stands between loading the run and spawning |
| DnsTheorems.LateTask | landscape-dns/src/server.rs:413-447 | a refresh that loaded the run can always still spawn a task of it |
| DnsTheorems.LateBinderIsReachable | landscape-dns/src/server.rs:205-213 | a reachable state with a refresh about to spawn for a run beside a stop that has already waited for that run |
| DnsTheorems.QuiescedForever | landscape-dns/src/listener.rs:145-211 | once a run has no tasks, no refresh about to spawn and is no longer current, it never has tasks again |
| DnsTheorems.FlowHolderMoves | landscape-dns/src/server.rs:310-348 | whoever holds a refresh lock can itself move: that section takes no further lock |
| DnsTheorems.IterationIsServed | landscape-dns/src/server.rs:213-267 | whichever flow an iterating operation has to visit next, it can take that flow's lock or the lock's holder can move |
| DnsTheorems.MapHolderMoves | landscape-dns/src/server.rs:213-221 | for every iteration order, whoever holds the map lock can itself move, or the holder of the flow it visits next can |
| DnsTheorems.NoDeadlock | landscape-dns/src/server.rs:205-411 | in every reachable state with an unfinished operation, and for every iteration order, some internal step that keeps to the order is enabled |
| DnsTheorems.InternalStepsShrink | landscape-dns/src/server.rs:205-411 | every internal step lowers a lexicographic measure of the work left |
| DnsTheorems.ServerComesToRest | landscape-dns/src/server.rs:205-411 | under every schedule the server left alone comes to rest |
| DnsTheorems.RestIsCompletion | landscape-dns/src/server.rs:205-411 | a reachable state without an enabled internal step that keeps to the iteration order has every operation finished |
| DnsTheorems.CallsComplete | landscape-dns/src/server.rs:205-411 | from every state of the invariant internal steps that keep to the iteration order complete every call |
| DnsRefresh.RefreshRevives | landscape-dns/src/server.rs:310-347 | a refresh that finds the flow's runtime missing or dead while a run is present ends, five steps later, with a new live listener of that run stored and every other entry untouched |
| DnsRefresh.RefreshKeepsLive | landscape-dns/src/server.rs:310-325 | a refresh of a live flow leaves its listener in place |
| DnsRefresh.RefreshServes | landscape-dns/src/server.rs:300-348 | while a run is present a refresh nobody disturbs leaves its flow served, whatever the flow was before |
| DnsRefresh.StartServesAgain | landscape-dns/src/server.rs:196-201 | a start brings a run that is not cancelled, after which such a refresh serves again |
| DnsRefresh.RefreshOutcome | landscape-dns/src/server.rs:300-348 | in every run, when a refresh returns the flow is served, or there was no run, or the bind failed, or the listener it found live or built on the run it found present has been cancelled since |
| DnsRefresh.OnlyLiveIsStored | landscape-dns/src/server.rs:413-427 | in every run a listener about to be stored was seen live after its bind |
| DnsRefresh.RenewalVisitsEveryFlow | landscape-dns/src/server.rs:255-267 | in every run a renewal that has returned held the lock of every flow that was in the map when it looked |
| DnsRefresh.StopWaitsForTasks | landscape-dns/src/server.rs:205-213 | in every run a stop goes past its wait only with every task of its run ended, and none runs again unless a refresh was about to spawn one |
| Allocator.Placement | landscape-common/src/memtrack/allocator.rs:55-73 | the data address is aligned, header and data lie disjoint inside the base block, and no addition overflows |
| Allocator.HeaderRoundTrip | landscape-common/src/memtrack/allocator.rs:29-53 | a representable header written to 32 bytes reads back |
| Allocator.FieldsFit | landscape-common/src/memtrack/allocator.rs:74-84 | no header field truncates, except alignment and offset from 2^32 on and the owner of a wide tag |
| Allocator.RecoveryIffSmallAlign | landscape-common/src/memtrack/allocator.rs:91-105 | the header gives back base, size and alignment if and only if the alignment is below 2^32 |
| AccountingHeap.WideAlignmentIsLost | landscape-common/src/memtrack/allocator.rs:91-105 | a block of alignment 2^32 whose header gives no valid layout |
| Allocator.WhichTagsKeepTheirSlot | landscape-common/src/memtrack/registry.rs:68-74 | free credits the charged slot if and only if the tag is below 2^32 or its low half names no subsystem |
| AccountingHeap.ChargeKeepsBooks | landscape-common/src/memtrack/registry.rs:76-101 | charging a block of any tag keeps, in every slot, allocated plus credited astray equal to freed plus live plus charged astray |
| AccountingHeap.CreditKeepsBooks | landscape-common/src/memtrack/registry.rs:76-101 | crediting a freed block to the slot its header names keeps the same law, the block going astray exactly when its tag lost its slot |
| AccountingHeap.BalancedIffNothingAstray | landscape-common/src/memtrack/registry.rs:68-101 | allocated minus freed equals the live bytes and counts in every slot if and only if no block went astray |
| AccountingHeap.BlocksApart | landscape-common/src/memtrack/allocator.rs:55-87 | two live blocks never share a byte, headers included |
| AccountingHeap.ReadHeader | landscape-common/src/memtrack/allocator.rs:91-105 | what the deallocator reads before a live block: magic, size, 32 bits of the owner and, below alignment 2^32, the exact grant |
| AccountingHeap.CountingAllocator.Alloc | landscape-common/src/memtrack/allocator.rs:55-87 | a granted block is aligned, charged to the current tag, whatever it is, and leaves all other data alone; a refusal changes nothing; the books stay explained |
| AccountingHeap.CountingAllocator.Dealloc | landscape-common/src/memtrack/allocator.rs:91-105 | the system gets back exactly the base and layout it granted, and the recorded owner is credited, if and only if the alignment is below 2^32 |
| AccountingHeap.CountingAllocator.Realloc | landscape-common/src/memtrack/allocator.rs:108-127 | the first min(old, new) bytes are kept, and the owner's slot exactly when its tag keeps it; the old block is freed; a failed reallocation changes nothing |
| MemoryHistory.CaptureCompact | landscape-common/src/memtrack/mod.rs:40-80 | every slot is captured and the total is the saturated difference of the sums |
| MemoryHistory.Captured | landscape-common/src/memtrack/mod.rs:40-73 | a captured slot shows its two byte counters and its two event counters modulo 2^64, the bytes differing by the live bytes plus the drift |
| MemoryHistory.EventsShown | landscape-common/src/memtrack/mod.rs:40-73 | with nothing astray and before a wrap the two event counters differ by the number of live blocks |
| MemoryHistory.LiveBytesShown | landscape-common/src/memtrack/mod.rs:40-73 | a slot shows its live bytes if and only if it has not drifted, by strays or lost wraps, or drifted below zero with nothing live; with nothing astray and live bytes below 2^64, if and only if its two byte counters wrapped equally often |
| MemoryHistory.WrappedSlotShowsNothing | landscape-common/src/memtrack/mod.rs:40-73 | counters where a slot with 5 live bytes shows 0 |
| MemoryHistory.StraySlotShowsFreedBytes | landscape-common/src/memtrack/mod.rs:40-73 | books in which a freed block of tag 2^32 leaves its slot showing 5 bytes with nothing live |
| MemoryHistory.SlotsPartition | landscape-common/src/memtrack/mod.rs:75-80 | the live bytes of all slots add up to those of all blocks |
| MemoryHistory.TotalShown | landscape-common/src/memtrack/mod.rs:75-80 | the reported total is the memory of all live blocks if and only if no wrap was lost over all slots and the memory fits a word, or the clamp hits; with nothing astray and live bytes below 2^64, if and only if in every slot both byte counters wrapped equally often |
| MemoryHistory.FindUsed | landscape-common/src/memtrack/sampler.rs:69-80 | a slot is marked used exactly when it is not zero throughout the window |
| MemoryHistory.BuildSeries | landscape-common/src/memtrack/sampler.rs:69-100 | one series per slot that is not zero throughout and passes the filter, in slot order, with that slot's column |
| MemoryHistory.ShownExactly | landscape-common/src/memtrack/sampler.rs:69-100 | a slot has a series if and only if it is not zero throughout the window and passes the filter |
| MemoryHistory.MemoryHistory.Push | landscape-common/src/memtrack/sampler.rs:35-46 | the ring stays the last `capacity` snapshots of everything pushed |
| MemoryHistory.MemoryHistory.RecentSeries | landscape-common/src/memtrack/sampler.rs:48-58 | the response shows exactly the last min(limit or all, capacity, pushes) snapshots |
| MemoryHistory.SeriesRebuilds | landscape-common/src/memtrack/sampler.rs:69-100 | unfiltered, every counter of every shown snapshot can be rebuilt from the labelled series of the response alone |
| ClientHello.ParseServerName | landscape-gateway/src/sni_proxy.rs:220-245 | the loop over the name list returns the first host name, on arbitrary bytes and inside bounds |
| ClientHello.ParseHello | landscape-gateway/src/sni_proxy.rs:169-217 | the walk over session, suites, compression and extensions finds the first server-name extension, inside bounds |
| ClientHello.ParseSni | landscape-gateway/src/sni_proxy.rs:145-217 | record and handshake framing around that walk |
| ClientHello.PrintThenParse | landscape-gateway/src/sni_proxy.rs:145-245 | for every well-formed ClientHello the parser gives the lowercased first host name of the first server-name extension, whatever follows the record |
| ClientHello.StrictPrefixIsRefused | landscape-gateway/src/sni_proxy.rs:145-153 | every strict prefix of a printed record gives no name |
| ClientHello.NamesAgree | landscape-gateway/src/sni_proxy.rs:230-244 | scanning a printed name list gives its first host name |
| ClientHello.ExtensionsAgree | landscape-gateway/src/sni_proxy.rs:199-217 | scanning a printed extension list gives the name of its first server-name extension |
| ClientHello.NameComesFromInput | landscape-gateway/src/sni_proxy.rs:145-245 | on arbitrary bytes a returned name is a lowercased valid UTF-8 piece of the input, which is a handshake record with a ClientHello |
| ClientHello.AsciiIsValid | landscape-gateway/src/sni_proxy.rs:236-240 | ASCII names always pass the UTF-8 check |
| ClientHello.ValidIsEncoded | landscape-gateway/src/sni_proxy.rs:236-240 | the check accepts exactly the encodings of sequences of Unicode scalar values |
| ClientHello.LowerAsText | landscape-gateway/src/sni_proxy.rs:236-240 | lowering maps ASCII bytes as characters and leaves all others alone |
| Text.LowerIsTheAlphabet | landscape-protobuf/src/adguard.rs:331-350 | lowering maps A to Z to a to z, each in its place, and leaves every other character alone |
| AdguardLines.EveryRuleIsClean | landscape-protobuf/src/adguard.rs:278-350 | whatever the line, every rule read from it carries a lower-case dotted name of valid labels; what each form of line denotes is stated in `AdguardMeaning` |
| Adguard.SubdomainIsMatch | landscape-protobuf/src/adguard.rs:233-235 | the suffix test holds if and only if the name is the base or ends in a dot and the base |
| Adguard.OverlapIsIntersection | landscape-protobuf/src/adguard.rs:237-252 | the overlap test holds if and only if some name is matched by both rules |
| Adguard.ParseRules | landscape-protobuf/src/adguard.rs:270-376 | cancelled if and only if a poll said stop; otherwise the compiled list of the classified lines, whose blocked names `BlockedNames` gives line by line |
| Adguard.Filter | landscape-protobuf/src/adguard.rs:352-373 | the filtering loop with its set of seen rules keeps exactly the specified list |
| Adguard.OutputIsExact | landscape-protobuf/src/adguard.rs:352-373 | a rule is in the output if and only if it was offered and shares no name with any negative rule |
| Adguard.NegativesWin | landscape-protobuf/src/adguard.rs:352-373 | no name matched by a negative rule is matched by the output |
| Adguard.OutputInOrder | landscape-protobuf/src/adguard.rs:352-373 | the output follows the order of first occurrence and has no repeats |
| Adguard.NegativesMayMove | landscape-protobuf/src/adguard.rs:270-376 | two inputs with the same other lines and the same set of negative rules compile alike |
| Adguard.OutputIsClean | landscape-protobuf/src/adguard.rs:270-376 | whatever the text, every output value is a lower-case dotted name of valid labels |
| AdguardMeaning.AnchoredLine | landscape-protobuf/src/adguard.rs:325-336 | two bars, a valid name and a caret offer the name and everything below it, for every valid name |
| AdguardMeaning.BareLine | landscape-protobuf/src/adguard.rs:288-350 | a bare name offers the name and everything below it; with fewer than four characters it is skipped |
| AdguardMeaning.AnchoredModifiedLine | landscape-protobuf/src/adguard.rs:299-336 | the anchored form with modifiers is negative with `badfilter`, offers the name when all modifiers are harmless, and is skipped otherwise |
| AdguardMeaning.BareModifiedLine | landscape-protobuf/src/adguard.rs:299-350 | the same for a bare name with modifiers |
| AdguardMeaning.ModifierList | landscape-protobuf/src/adguard.rs:13-46 | a comma list holds `badfilter` if and only if one modifier is so called, and is harmless if and only if each is `important`, `reason` or `noop`, without regard to case, negation or value |
| AdguardMeaning.BlockingHostsLine | landscape-protobuf/src/adguard.rs:57-79 | a hosts line with a blocking address offers exactly its names, nothing below them and nothing from a comment |
| AdguardMeaning.AnchoredException | landscape-protobuf/src/adguard.rs:163-177 | an exception for an anchored name exempts the name and everything below it |
| AdguardMeaning.BareException | landscape-protobuf/src/adguard.rs:138-194 | so does an exception for a bare name |
| AdguardMeaning.UrlException | landscape-protobuf/src/adguard.rs:150-186 | an exception for a URL, between bars or not, exempts exactly its host |
| AdguardMeaning.CommentLine | landscape-protobuf/src/adguard.rs:284-286 | a line starting with an exclamation mark or a hash is skipped |
| AdguardMeaning.CosmeticLine | landscape-protobuf/src/adguard.rs:306-308 | a line with a cosmetic mark anywhere and no dollar is skipped unless it is an exception |
| AdguardMeaning.RegexLine | landscape-protobuf/src/adguard.rs:310-312 | a line between slashes with no dollar is skipped |
| AdguardMeaning.FullUrlLine | landscape-protobuf/src/adguard.rs:338-342 | a URL between bars, which names one page, is skipped |
| AdguardMeaning.MarginsAreIgnored | landscape-protobuf/src/adguard.rs:282-282 | white space around a line does not matter |
| AdguardMeaning.BlockedNames | landscape-protobuf/src/adguard.rs:270-376 | a list blocks a name if and only if some line offers a rule for it that shares no name with any negative line |
| AdguardMeaning.AnchoredLineBlocks | landscape-protobuf/src/adguard.rs:254-264 | from the text: a line of two bars, a name and a caret blocks the name and everything below it unless a negative line touches one of these |
| AdguardMeaning.ExceptionUnblocks | landscape-protobuf/src/adguard.rs:254-264 | from the text: with the exception for an anchored name anywhere in the list, neither the name nor anything below it is blocked |
| PathRouting.ChosenIsLongest | landscape-gateway/src/proxy_service.rs:377-386 | the chosen group is the last of the longest covering groups, and exists if any group covers |
| PathRouting.LongestAgree | landscape-gateway/src/proxy_service.rs:377-406 | all longest covering groups have one normalized prefix |
| PathRouting.SameGroup | landscape-gateway/src/proxy_service.rs:377-406 | after a redirect the same group is chosen if and only if the path was not empty or no root group exists |
| PathRouting.RedirectAddsSlash | landscape-gateway/src/proxy_service.rs:490-517 | a redirect goes to the matched path plus a slash and keeps the query |
| PathRouting.RedirectConverges | landscape-gateway/src/proxy_service.rs:265-319 | a redirected request resolves to the same rule, to the same group for a nonempty path, and is not redirected again |
| PathRouting.EmptyPathChangesGroup | landscape-gateway/src/proxy_service.rs:490-510 | with prefixes `//` and `/` the empty path is redirected to another group |
| PathRouting.RewriteIsAbsolute | landscape-gateway/src/proxy_service.rs:465-488 | a covered request is rewritten to an absolute path with its query, any other is unchanged |
| PathRouting.StripIsInvertible | landscape-gateway/src/proxy_service.rs:465-488 | prefix plus output gives back the request for a non-root prefix strictly above the path; a root prefix changes nothing |
| PathRouting.ServedRequestIsRecoverable | landscape-gateway/src/proxy_service.rs:437-463 | every request served without a redirect can be read back from the stripped prefix and the forwarded target, which is absolute and has the same query; which group strips is stated by `ForwardedByGroup` |
| PathRouting.WildcardIsStrict | landscape-gateway/src/proxy_service.rs:423-435 | a wildcard domain matches exactly the names strictly below it, ignoring case |
| PathRouting.FirstWhere | landscape-gateway/src/proxy_service.rs:321-358 | rule lookup finds the first rule that qualifies, or none does |
| RoutingLaws.RoutedIsBest | landscape-gateway/src/proxy_service.rs:265-375 | a request is served by the best fitting enabled rule, among equals the first: exact host before wildcard before legacy with exact domain, legacy with wildcard and legacy without domains; nothing serves only when nothing fits; a host rule's group is the chosen one |
| RoutingLaws.ForwardedByGroup | landscape-gateway/src/proxy_service.rs:437-488 | by the route's group: without stripping, with the root prefix and without a group the request passes unchanged; a stripping group below its prefix forwards the rest, so that prefix plus rest is the request; at the prefix itself it forwards the root |
| RoutingLaws.RedirectedExactly | landscape-gateway/src/proxy_service.rs:490-517 | a request is redirected if and only if its route's group has the path itself as prefix, other than the root |
| RoutingLaws.CoversWholeSegments | landscape-gateway/src/proxy_service.rs:388-401 | a prefix covers a path if and only if the path with a slash added starts with the prefix and its slash; the root covers every absolute path |
| RoutingLaws.NormalForms | landscape-gateway/src/proxy_service.rs:403-406 | trailing slashes of a prefix do not matter, save for the root |
| WeightedTargets.WeightedSelect | landscape-gateway/src/sni_proxy.rs:288-303 | the two loops compute the specified choice with 32-bit wrap-around |
| WeightedTargets.OwnsItsResidues | landscape-gateway/src/proxy_service.rs:612-626 | a target is chosen if and only if the residue lies between its two running totals; a zero weight never is, and the last-target fallback is not needed |
| WeightedTargets.ProportionalIffNoWrap | landscape-gateway/src/proxy_service.rs:612-626 | each target gets exactly `weight` of the residues if and only if the weights sum to a positive value below 2^32 |
| WeightedTargets.WrappedWeightsAreUnfair | landscape-gateway/src/proxy_service.rs:612-626 | with weights 2^31 and 2^31 every request goes to the first target |
| BuildCache.StepIsBijective | landscape-ebpf/build.rs:107-114 | each FNV-1a step is a bijection on 64-bit states |
| BuildCache.StepTellsBytes | landscape-ebpf/build.rs:107-114 | from one state different bytes lead to different states |
| BuildCache.TailKeepsCollisions | landscape-ebpf/build.rs:107-114 | two buffers with a common tail collide if and only if they collide without it |
| BuildCache.OneByteChangesDigest | landscape-ebpf/build.rs:107-114 | changing one byte always changes the digest |
| BuildCache.KnownDigest | landscape-ebpf/build.rs:107-114 | the digest of the one-letter input `a` is the published FNV-1a value |
| BuildCache.KeyBuilder.Field | landscape-ebpf/build.rs:102-105 | a field extends the buffer from the encoding of a list to that of the list with the field |
| BuildCache.KeyBuilder.Finish | landscape-ebpf/build.rs:107-114 | the loop computes the digest of the buffer |
| BuildCache.EncodingIsInjective | landscape-ebpf/build.rs:93-105 | the length-prefixed buffer determines the list of fields |
| BuildCache.JobKey | landscape-ebpf/build.rs:196-204 | a job's key is the digest of the environment key and the source, or of the unreadable marker |
| BuildCache.JobFieldsTell | landscape-ebpf/build.rs:196-204 | the key buffer determines the environment key and the source, except that a missing source looks like the placeholder text |
| BuildCache.EditChangesKey | landscape-ebpf/build.rs:196-204 | under one environment key any one-byte edit of a source changes its key |
| BuildCache.KeyTextIsInjective | landscape-ebpf/build.rs:220-222 | the 16-digit text determines the key |
| BuildCache.KeyTextReadsBack | landscape-ebpf/build.rs:220-222 | the text is the key in 16 lower-case hexadecimal digits |
| BuildCache.OutcomeTells | landscape-ebpf/build.rs:220-234 | cached exactly when fresh, failed exactly when not fresh and clang or the hash write failed, built leaves this skeleton with a fresh hash; a cached job or a failing clang changes nothing |
| BuildCache.CacheFollowsSource | landscape-ebpf/build.rs:220-234 | after a build the same source is served from the cache and any one-byte edit is rebuilt |
| BuildCache.TruthKeptIffHashFollows | landscape-ebpf/build.rs:220-234 | one build keeps the hash file truthful about the skeleton if and only if it does not generate and then leave another key's hash behind |
| BuildCache.CachedIsRight | landscape-ebpf/build.rs:220-234 | over every sequence of builds without such a step a cached answer serves a skeleton made from an input with the same key |
| BuildCache.FailedHashServesWrongSkeleton | landscape-ebpf/build.rs:220-234 | build, edit a byte, generate with a failing hash write, undo: the cache serves the edited skeleton |
| WorkQueue.StepKeepsInv | landscape-ebpf/build.rs:246-261 | every worker step keeps the books and pays exactly one unit of the remaining work |
| WorkQueue.EachJobOnce | landscape-ebpf/build.rs:236-284 | in every interleaving, once the pool has stopped, each job was built exactly once, and built, cached and errors count the jobs that finished so and add up to the number of jobs |
| WorkQueue.CountersTell | landscape-ebpf/build.rs:252-258 | at any time each counter is the number of jobs finished with its outcome |
| WorkQueue.NeverTwice | landscape-ebpf/build.rs:236-284 | at no time is a job in two hands or in hand after it finished |
| WorkQueue.PoolStops | landscape-ebpf/build.rs:263-273 | every run has at most two steps a job and one a worker; exactly the runs of that length have stopped, shorter ones can go on |
| DnrNames.NormalizedIsNormal | landscape-common/src/dns/dnr.rs:11-34 | a normalized domain is lower case, at most 253 characters, without a trailing dot, of valid labels |
| DnrNames.DomainNormalizedOnce | landscape-common/src/dns/dnr.rs:11-34 | normalizing a domain twice is normalizing it once |
| NameForms.SpellingsAgree | landscape-common/src/dns/dnr.rs:11-34 | letter case, trailing dots and surrounding white space do not change the normalized domain |
| NameForms.SameNames | landscape-protobuf/src/adguard.rs:196-221 | a lower-case dotted name is valid for the filter compiler if and only if it is a normal form of the advertisement |
| DnrNames.NormalizeDohPathTemplate | landscape-common/src/dns/dnr.rs:76-115 | the token loop computes the specified normal form or refusal |
| DnrNames.PathNormalizedOnce | landscape-common/src/dns/dnr.rs:76-115 | normalizing a path template twice is normalizing it once |
| DnrNames.PlainPath | landscape-common/src/dns/dnr.rs:76-115 | a plain path gets `{?dns}` appended; the usual one becomes `/dns-query{?dns}` |
| DnrNames.OneTokenTemplate | landscape-common/src/dns/dnr.rs:76-115 | a template with one expansion is kept as it is, unless a query starts before `{?dns}` or none has started before `{&dns}` |
| Dnr.EncodeDnsName | landscape-common/src/dns/dnr.rs:53-65 | the label loop writes the wire form of the normalized name |
| Dnr.AppendSvcParam | landscape-common/src/dns/dnr.rs:177-185 | a parameter is appended as key, length and value, or refused when too long |
| Dnr.EncodeDohSvcParams | landscape-common/src/dns/dnr.rs:67-74 | alpn, port and template are written in this order |
| Dnr.EncodeInstance | landscape-common/src/dns/dnr.rs:121-152 | one instance: length, priority 1, name, addresses, parameters, or a refusal when a length does not fit |
| Dnr.EncodePayloadTruncated | landscape-common/src/dns/dnr.rs:154-175 | the loop keeps each instance that encodes and still fits |
| Dnr.Payload | landscape-common/src/dns/dnr.rs:154-175 | the payload is never longer than the limit |
| DnrDecode.NameReadsBack | landscape-common/src/dns/dnr.rs:53-65 | an encoded name decodes to its labels, whatever follows |
| DnrDecode.ParamsReadBack | landscape-common/src/dns/dnr.rs:67-74 | three parameters with strictly ascending keys decode to themselves |
| DnrDecode.InstanceReadsBack | landscape-common/src/dns/dnr.rs:121-152 | an encoded instance decodes to the normalized domain, the addresses, the port and the template |
| DnrDecode.InstanceSays | landscape-common/src/dns/dnr.rs:67-152 | a client finds priority 1, the addresses, `h2` under key 1, the port under key 3, the template under key 7, and nothing else |
| DnrDecode.InstanceIsInjective | landscape-common/src/dns/dnr.rs:121-152 | equal bytes mean equal normalized domains, addresses, ports and templates |
| DnrDecode.NamesAreShort | landscape-common/src/dns/dnr.rs:53-65 | an encoded name is its text plus two bytes, so at most 255 bytes (section 2.3.4 of RFC 1035) |
| DnrDecode.PayloadReadsBack | landscape-common/src/dns/dnr.rs:154-175 | the truncated payload decodes to exactly the greedily kept instances, whole and in order |
| Rollback.ValidateReleaseBoundaries | landscape-database/src/rollback.rs:100-140 | accepts if and only if there are boundaries with distinct versions and terminals, all known and in order; a refusal names a problem that is there |
| Rollback.StateIsFaithful | landscape-database/src/rollback.rs:234-292 | the resolved state points at the head; its release is the running version's boundary if at or below the head, else the newest such, and none exactly when all are above; pending is what was applied since |
| Rollback.BuildRollbackTargets | landscape-database/src/rollback.rs:142-181 | the reverse loop with its early exit computes the specified targets |
| Rollback.TargetsAreOlder | landscape-database/src/rollback.rs:142-181 | every target is a registered boundary strictly older than the head, `steps` migrations below it |
| Rollback.AtMostTwo | landscape-database/src/rollback.rs:142-181 | at most two targets; of two, the first undoes unreleased migrations and the second needs strictly more steps |
| Rollback.NewestComesFirst | landscape-database/src/rollback.rs:142-181 | if any boundary is older than the head, the newest such is offered first |
| Rollback.TargetsExactly | landscape-database/src/rollback.rs:142-181 | the targets are the newest boundary below the head and, if and only if it is the current release with migrations pending and an older boundary exists, the one before it |
| Rollback.NoTargets | landscape-database/src/rollback.rs:142-181 | nothing is offered if and only if no boundary is below the head |
| Rollback.PlanReachesTarget | landscape-database/src/rollback.rs:183-221 | undoing `steps` migrations from the applied prefix removes exactly the plan's list in order and leaves the target as head |

## Left out

- Dnr.EncodeInstance: the address list is taken as given; the filter for loopback, multicast and unspecified addresses only adds a pure test.
- SQLite, SeaORM, table schemas, `before_save` hooks and the order of tables in an import: the transaction keeps its snapshot, its conditional update, its commit and its failure codes.
- Sleeps and jitter between attempts and the reading of the clock: delays do not matter to the results, and clocks are arbitrary.
- Versions that are fractional, negative or not a number: rows carry whole milliseconds.
- `list`, `find_by_id` and `find_ids` of the store: plain reads of the table, with no version check and nothing written.
- Sockets, DNS handlers, DoH connections and the projection of the service status: a listener is a flow, a run, a token and a count of tasks.
- Memory races between counter reads in a capture: a capture sees one state of the counters.
- The fallback of the deallocator for a block without the magic number: such a block is never live in the model.
- Splitting a rule file into lines and decoding it from UTF-8; whether a text is an IP literal is a parameter of the AdGuard model.
- The SNI router's own rule lookup, round-robin and hash-based target choice: short lookups beside the weighted choice.
- HTTP headers, error responses, TLS pass-through and the redirect response itself.
- The environment key's list of headers, compiler version and lock-file entries: it enters a job's key as one 64-bit word.
- Collecting sources, and generating and compiling skeletons: a build step is an outcome.
- Wrap-around of the shared job counter: it would need 2^64 claims.
- The sorted set of advertised domains and IPv6 router advertisements.
- Running a rollback against the database, prompts and labels.
- Metrics, firewall, NAT, mDNS, certificates, the web server, configuration structures and eBPF programs.
