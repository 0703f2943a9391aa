# VoltageEMS core logic in Dafny

VoltageEMS is an energy management system: services in Rust collect measurements of devices over channels, route
them to device instances through Redis and shared memory, compute derived values, and a TypeScript web client shows
them. This project models the parts with the most state and branching, and proves what they keep over every input
and every run:

- `SeqLock`, `SeqLockRuns`, `SeqLockWrap` - the shared-memory point slot: a sequence lock with one writer and any
  number of readers, as an object and as a state machine over single loads and stores. Runs refine an atomic register,
  and the bound on writes per read under which this holds is exactly 2^31.
- `ForwardCascade` - channel-to-channel forwarding of batches, with grouping, cycle detection and a depth limit;
  `ForwardChains` compares a batch with what its updates would do alone, `ForwardStored` says which value a point holds
  afterwards.
- `Routing`, `RoutingTexts`, `Decimal` - routing rows printed into string maps and parsed back into structured tables,
  with a reverse table, and exactly which texts are accepted.
- `Subscriptions` - the web client's socket manager: subscriptions, the queue of unacknowledged messages, and their
  replay after a reconnect.
- `CalcState`, `CalcFunctions`, `CalcAverages`, `FormulaRewriting` - stateful calculation functions (integral, moving
  average, rate, period delta), their state store, and the rewriting of formulas that call them.
- `ExecutionTree`, `ExecutionParents` - the display of a rule's execution history as a tree, and under which row each
  step is shown.
- `ChannelMonitoring`, `InstanceMeasurements` - version-guarded loading of device screens.
- `ProductLibrary` - validation of the product catalogue and external overrides.
- `UartFraming` - extraction of DL/T 645 frames from the firmware's ring buffer.
- `EnergyStatistics` - query intervals, time axis and counter totals of energy statistics.
- `OperationLog`, `Utf8`, `Csv` - search patterns, header decoding and CSV export.
- `Basics` - results, options and repetition-free sequences.

Objects that the source updates in place are classes whose methods are tied to a value-level meaning; loops are
methods with invariants, proved against a specification function; the results about whole runs are lemmas about those
functions. Rust's `f64` and JavaScript's `number` are exact reals except where a text is printed; clocks, responses,
sockets and hash-map orders are parameters or arbitrary choices.

Results that show the code falling short of what is claimed for it:

- A sequence-lock read can be torn when exactly 2^31 writes complete during it (`SeqLockWrap.TornReadAtWrap`); no smaller
  number suffices (`SeqLockWrap.SafeBoundIsExact`).
- The comments of `libs/voltage-routing/src/batch.rs` describe cycle detection along a forwarding chain. The visited
  set is shared by a whole group, so forwards that close no cycle are refused: at the first hop when the target was
  updated earlier in the group (`ForwardChains.RefusalWithoutCycle`), at the second when it was updated anywhere in it
  (`ForwardChains.SecondHopRefused`). `ForwardChains.BatchIsChains` says exactly when a batch does what its updates
  would do alone.
- The value a point holds after a batch can depend on the hash order (`ForwardStored.OrderDecides`);
  `ForwardStored.StoredValueIsDetermined` says exactly when it does not.
- A comment of `libs/voltage-routing/src/routing_cache.rs` calls the reverse table consistent with the forward one.
  That holds in every iteration order if and only if no two entries give one channel point different targets
  (`Routing.ReverseIsConsistent`), which two spellings of one key do (`Routing.TwoSpellings`); maps made by the loader
  never do.
- Listeners merged into a subscription whose first message is unacknowledged are lost at the next open
  (`Subscriptions.MergedListenersLost`); the contract of `Subscriptions.WebSocketManager.OnOpen` says exactly which
  records keep theirs.
- An attempt to connect without a login is cached, and blocks every later attempt, logged in or not, until the client
  disconnects or an older socket closes (`Subscriptions.StuckAfterRefusal`); an attempt opens a socket if and only if a user is logged in, no
  socket is open and no attempt is cached (`Subscriptions.WebSocketManager.Connect`).
- Execution steps with equal chains of node ids are shown as one node (`ExecutionTree.FlattenRestoresSteps`,
  `ExecutionTree.SameLeafTwice`).
- State keys of different functions and variables can coincide across contexts (`CalcState.KeysCanCollide`), and then
  one function refuses the state of the other (`CalcFunctions.SharedKey`).
- A full receive ring without a complete frame is never emptied by polling, and the next byte wipes it
  (`UartFraming.FullRingStalls`); after an overflow the frames handed on need not be those of the stream
  (`UartFraming.OverflowBreaksPrefix`). `UartFraming.FramesSinceOverflow` says what holds in every run.
- A CSV table whose last row is one empty cell is misread by readers that drop a final line break
  (`Csv.LenientRoundTrip`).

## Model

| member | source | states |
|---|---|---|
| `SeqLock.PointSlot.Zeroed` | libs/voltage-core/src/shm.rs:259-271 | a zeroed slot is the initial memory of the protocol |
| `SeqLock.PointSlot.BeginWrite` | libs/voltage-core/src/shm.rs:283-287 | the counter advances by one modulo 2^32 and the unreduced odd number is returned |
| `SeqLock.PointSlot.EndWrite` | libs/voltage-core/src/shm.rs:293-296 | the counter advances by one modulo 2^32, nothing else changes |
| `SeqLock.PointSlot.TryRead` | libs/voltage-core/src/shm.rs:303-325 | undisturbed, a read succeeds exactly on an even counter and then returns the payload stored in the words |
| `SeqLock.PointSlot.Write` | libs/voltage-core/src/shm.rs:343-353 | undisturbed, a write stores the words of its payload, sets the valid flag and advances the counter twice |
| `SeqLock.AssembleWords` | libs/voltage-core/src/shm.rs:303-325 | splitting a payload into 32-bit words and assembling them gives it back |
| `SeqLock.StepKeepsInv` | libs/voltage-core/src/shm.rs:283-325 | every single load or store keeps the protocol invariant: counter parity, stored words, flags, readers and logs |
| `SeqLock.FinishDecides` | libs/voltage-core/src/shm.rs:303-325 | the second counter load accepts exactly when no write is in progress and the completed writes since the first load are a multiple of 2^31 |
| `SeqLockRuns.TornReadFreedom` | libs/voltage-core/src/shm.rs:303-325 | in every run, a read during which fewer than 2^31 writes complete succeeds exactly when no write overlaps it, and then returns the whole payload of the last completed write |
| `SeqLockRuns.ReadsNeverGoBack` | libs/voltage-core/src/shm.rs:303-325 | a later successful read of one reader returns the same or a newer write than an earlier one |
| `SeqLockRuns.BeginWriteNeverOverflows` | libs/voltage-core/src/shm.rs:283-287 | in every run the idle counter is even, so the addition of one never overflows 32 bits; after a completed write the valid flag is set |
| `SeqLockWrap.UndisturbedWrite` | libs/voltage-core/src/shm.rs:343-353 | the protocol's steps of one write lead to the memory that the method `Write` produces |
| `SeqLockRuns.RefinesAtomicRegister` | libs/voltage-core/src/shm.rs:283-353 | from any state satisfying the invariant, the writes and successful reads of a run are a legal history of an atomic register |
| `SeqLockRuns.Linearizable` | libs/voltage-core/src/shm.rs:283-353 | every run from a zeroed slot with fewer than 2^31 writes per read is a legal atomic-register history in the order of its steps |
| `SeqLockWrap.TornReadAtWrap` | libs/voltage-core/src/shm.rs:303-325 | a run exists with 2^31 writes during one read in which the accepted payload was never written |
| `SeqLockWrap.SafeBoundIsExact` | libs/voltage-core/src/shm.rs:303-325 | a bound on the writes per read rules out torn reads in all runs if and only if it is below 2^31 |
| `ForwardCascade.GroupUpdates` | libs/voltage-routing/src/batch.rs:301-308 | the groups are exactly those of the updates, each with its updates in their order |
| `ForwardCascade.ScanGroup` | libs/voltage-routing/src/batch.rs:324-404 | one pass over a group yields its forwards, its refusals, its instance writes and the visited set |
| `ForwardCascade.WriteGroup` | libs/voltage-routing/src/batch.rs:324-452 | a group's writes are its updates and the cascade of its forwards; the instance writes are the image of all channel writes |
| `ForwardCascade.WriteBatch` | libs/voltage-routing/src/batch.rs:291-456 | in whatever order the hash map gives the groups, a batch makes the writes, forwards and refusals of the specification, in a sequence possible for some order, and exactly the instance writes of its channel writes; every write is an update of the batch carried along routes, with the product of their scales and the folded offsets |
| `ForwardCascade.OrderDoesNotMatter` | libs/voltage-routing/src/batch.rs:324-328 | any two orders of the groups give the same multiset of writes and the same counts; which value stays stored is the subject of `ForwardStored` |
| `ForwardCascade.BatchConserves` | libs/voltage-routing/src/batch.rs:78-88 | over the whole cascade, writes equal given updates plus forwards, and every routed write below the depth limit was either forwarded or refused |
| `ForwardCascade.WritesHaveOrigins` | libs/voltage-routing/src/batch.rs:369-401 | every write is an update of the batch after at most two hops along routes, through pairwise different points; its value is the product of the scales along the path times the value of the update, plus the offsets, each scaled by the routes after it; only the update itself keeps a raw value |
| `ForwardCascade.HopsCarry` | libs/voltage-routing/src/routing_cache.rs:69-71 | following routes one by one gives the value that the scales and offsets along the path give |
| `ForwardCascade.InstanceWriteAt` | libs/voltage-routing/src/batch.rs:349-366 | the instance writes are those of the channel writes whose point has an instance point, with its target and value, at the position their number gives |
| `ForwardCascade.MembersAre` | libs/voltage-routing/src/batch.rs:301-308 | a group holds exactly the updates of its channel and point type |
| `ForwardChains.ForwardOne` | libs/voltage-routing/src/batch.rs:384-400 | an update whose target is another point without a route is written, then the target with scale times value plus offset of the route, no raw value and depth one |
| `ForwardChains.BatchIsChains` | libs/voltage-routing/src/batch.rs:324-452 | a batch makes only writes its updates would make alone, and all of them if and only if no update is blocked at any hop: at the first by an earlier update of its group, later by any point of the group or an earlier hop beside it |
| `ForwardChains.MadeAreSome` | libs/voltage-routing/src/batch.rs:369-401 | the hops a group makes are some of those its members would make, and all of them if and only if none is blocked |
| `ForwardChains.ChainsSplit` | libs/voltage-routing/src/batch.rs:388-400 | the chains of a group are its updates and the chains of their hops |
| `ForwardChains.ApartIsClear` | libs/voltage-routing/src/batch.rs:324-452 | updates of one group that never touch a common point do not block one another |
| `ForwardChains.SingleUpdate` | libs/voltage-routing/src/batch.rs:286-288 | a single update writes its chain, with one refusal exactly when the chain stops at a point seen before |
| `ForwardChains.RefusalWithoutCycle` | libs/voltage-routing/src/batch.rs:344-386 | an update routed to a point with no route is refused as a cycle when that point was updated before it in the group, and forwarded when after it |
| `ForwardChains.SecondHopRefused` | libs/voltage-routing/src/batch.rs:327-386 | an update routed over one point to another with no route loses its second hop when that other point is updated after it in the group |
| `ForwardStored.PossibleWrites` | libs/voltage-routing/src/batch.rs:324-452 | in every order, also of the groups of forwards, a batch makes the same writes |
| `ForwardStored.StoredIsCandidate` | libs/voltage-routing/src/batch.rs:406-416 | the writes that can be the last to a point are exactly, per group, those of its forwards, or else its own last |
| `ForwardStored.StoredValueIsDetermined` | libs/voltage-routing/src/batch.rs:324-452 | the value a point holds is the same in every order if and only if its candidates carry one value |
| `ForwardStored.OrderDecides` | libs/voltage-routing/src/batch.rs:324-452 | two groups forwarding different values to one point leave it to the hash order which one it holds |
| `Routing.LoadC2M` | libs/voltage-routing/src/loader.rs:93-114 | a channel point is a key of the string map exactly if a row with a known type is about it, and maps to the text of instance and measurement of its last such row; rows with an unknown type are counted |
| `Routing.LoadM2C` | libs/voltage-routing/src/loader.rs:150-170 | the same for action routes, keyed by instance and action |
| `Routing.LoadC2C` | libs/voltage-routing/src/loader.rs:214-253 | the same for forwarding routes, rows with an unknown source or target type skipped |
| `Routing.KeyRoundTrip` | libs/voltage-routing/src/routing_cache.rs:201-210 | parsing a printed route key gives the key back, for all 32-bit ids and all point types |
| `Routing.C2MRoundTrip` | libs/voltage-routing/src/routing_cache.rs:123-135 | parsing a printed measurement target gives it back |
| `Routing.C2CRoundTrip` | libs/voltage-routing/src/routing_cache.rs:154-167 | parsing a printed forwarding target gives it back, compact or with scale and offset, when those two numbers, if printed at all, read back and the scale has no bar in its text |
| `Routing.NaturalsAreLossless` | libs/voltage-routing/src/loader.rs:245-251 | decimal printing of natural numbers meets that requirement, for every natural scale and offset |
| `Routing.KeyTextInjective` | libs/voltage-model/src/keyspace.rs:330-332 | different route keys have different texts |
| `Routing.MeasurementPrefixSelects` | libs/voltage-model/src/keyspace.rs:352-354 | a measurement target starts with an instance's prefix if and only if it belongs to that instance |
| `Routing.ActionPrefixSelects` | libs/voltage-model/src/keyspace.rs:370-372 | an action key starts with an instance's prefix if and only if it belongs to that instance |
| `Routing.BuildTable` | libs/voltage-routing/src/routing_cache.rs:257-268 | for any string map and any iteration order the table holds accepted entries only and one for every accepted key |
| `Routing.BuildC2M` | libs/voltage-routing/src/routing_cache.rs:245-256 | in whatever order the hash map gives its entries the table holds accepted entries only and one for every accepted key, and the reverse table inverts it when no channel point has two targets |
| `Routing.ReadsWhatWasPrinted` | libs/voltage-routing/src/routing_cache.rs:235-271 | every table read from a printed map is the printed map of routes |
| `Routing.LoadMeasurements` | libs/voltage-routing/src/loader.rs:93-114 | from rows to tables: a channel point has a route exactly if a row with a known type is about it, to the instance and measurement of the last such row; the reverse table inverts them |
| `Routing.LoadActions` | libs/voltage-routing/src/loader.rs:150-170 | from rows to table: an instance action has a route exactly if a row with a known type is about it, to the channel, type and point of the last such row |
| `Routing.LoadForwards` | libs/voltage-routing/src/loader.rs:214-253 | from rows to table: a channel point is forwarded exactly if a row with two known types starts there, to the target, scale and offset of the last such row, when the printed scales and offsets of the rows read back |
| `Routing.MeasurementsByRow` | libs/voltage-routing/src/loader.rs:93-114 | the measurement routes by row number: domain, and instance and measurement of the last row of each channel point |
| `Routing.ActionsByRow` | libs/voltage-routing/src/loader.rs:150-170 | the same for action routes |
| `Routing.ForwardsByRow` | libs/voltage-routing/src/loader.rs:214-253 | the same for forwarding routes |
| `Routing.ReverseIsConsistent` | libs/voltage-routing/src/routing_cache.rs:245-256 | the reverse table inverts the forward one in every iteration order if and only if no channel point has entries with different targets |
| `Routing.TwoTargetsDisagree` | libs/voltage-routing/src/routing_cache.rs:245-256 | two entries of one channel point with different targets give an order in which the reverse table is wrong |
| `Routing.TwoSpellings` | libs/voltage-routing/src/routing_cache.rs:201-210 | two spellings of one key with different targets are such entries |
| `Routing.InverseIffInjective` | libs/voltage-routing/src/routing_cache.rs:245-256 | an inverting reverse table is a two-sided inverse if and only if no two channel points share an instance point |
| `RoutingTexts.KeyTexts` | libs/voltage-routing/src/routing_cache.rs:201-210 | a text is accepted as a key exactly if it is two numbers around a point type, with exactly two colons |
| `RoutingTexts.TargetTexts` | libs/voltage-routing/src/routing_cache.rs:123-135 | a text is accepted as an instance point exactly if it is two numbers around anything without a colon |
| `RoutingTexts.TransformTexts` | libs/voltage-routing/src/routing_cache.rs:154-167 | a forwarding target without numbers is the identity; a scale that cannot be read is one, an offset missing or unreadable is zero |
| `RoutingTexts.KindTexts` | libs/voltage-routing/src/routing_cache.rs:180-189 | the cache reads exactly the four printed point types, as the loader reads them |
| `RoutingTexts.PlusSign` | libs/voltage-routing/src/routing_cache.rs:201-210 | a plus sign before the digits is allowed |
| `Decimal.TextInjective` | libs/voltage-model/src/keyspace.rs:330-332 | different numbers have different decimal texts |
| `Decimal.ValueOfText` | libs/voltage-routing/src/routing_cache.rs:201-210 | reading a decimal text gives the printed number |
| `Subscriptions.EquivalentIsEquivalence` | apps/src/utils/websocket.ts:241-263 | the comparison of subscription configs is reflexive, symmetric and transitive |
| `Subscriptions.EquivalentIsComparison` | apps/src/utils/websocket.ts:241-263 | two configs are equivalent exactly if the fields compare equal as in the source, by sorted copies, whatever total orders sort them |
| `Subscriptions.SortedEqualIffPermuted` | apps/src/utils/websocket.ts:251-260 | sorted copies are equal exactly for lists with the same elements equally often |
| `Subscriptions.TextSortsNumbers` | apps/src/utils/websocket.ts:251-260 | the default sort, which compares numbers as text, sorts by such an order when different numbers print differently |
| `Subscriptions.WebSocketManager.Send` | apps/src/utils/websocket.ts:184-191 | a message is appended to the sent ones exactly when the current socket is open, else the call fails |
| `Subscriptions.WebSocketManager.FindSubscription` | apps/src/utils/websocket.ts:241-263 | finds an equivalent subscription if there is one |
| `Subscriptions.WebSocketManager.FindPending` | apps/src/utils/websocket.ts:266-288 | finds an equivalent queue entry if there is one |
| `Subscriptions.WebSocketManager.Create` | apps/src/utils/websocket.ts:291-309 | a fresh record and its queue entry, sent at once when connected; the manager's invariant is kept even when the send throws |
| `Subscriptions.WebSocketManager.Subscribe` | apps/src/utils/websocket.ts:228-310 | a record is joined, by merging listeners and without a message, exactly if it has the same source and interval, unless for the home page a permutation of the channels, and unless for the home page or rules a permutation of the data types; otherwise one is created; no two records are ever equivalent |
| `Subscriptions.WebSocketManager.Unsubscribe` | apps/src/utils/websocket.ts:313-340 | removes the record and all its queue entries and sends one message exactly when connected and known |
| `Subscriptions.WebSocketManager.HandleSubscribeAck` | apps/src/utils/websocket.ts:555-566 | removes the acknowledged queue entry and nothing else |
| `Subscriptions.WebSocketManager.EnqueueExistingForReconnect` | apps/src/utils/websocket.ts:209-225 | afterwards every subscription has a queue entry; entries that waited stay |
| `Subscriptions.WebSocketManager.SendEntry` | apps/src/utils/websocket.ts:194-206 | one queue entry is sent and its record restored from it exactly when the socket is open, else nothing changes |
| `Subscriptions.WebSocketManager.ProcessPending` | apps/src/utils/websocket.ts:194-206 | sends every queue entry and restores its record from it, or fails without effect when the socket is not open |
| `Subscriptions.WebSocketManager.OnOpen` | apps/src/utils/websocket.ts:351-364 | on the current socket it never fails and announces every subscription there; on an abandoned one it fails exactly when there is something to send and the current socket is not open; a record keeps its listeners if and only if all its waiting entries carry the same ones |
| `Subscriptions.WebSocketManager.Connect` | apps/src/utils/websocket.ts:416-464 | starts a new socket if and only if none is open, no attempt is cached and a user is logged in; an attempt without a login stays cached as rejected |
| `Subscriptions.StuckAfterRefusal` | apps/src/utils/websocket.ts:422-436 | after one attempt without a login on a new manager, no connects, subscribes and unsubscribes open a socket, in any number and order |
| `Subscriptions.DisconnectUnblocks` | apps/src/utils/websocket.ts:703-724 | after a disconnect the next attempt with a login opens a socket |
| `Subscriptions.WebSocketManager.OnClose` | apps/src/utils/websocket.ts:377-397 | records and queue survive; a retry is scheduled exactly when not manually disconnected and attempts are left |
| `Subscriptions.WebSocketManager.OnError` | apps/src/utils/websocket.ts:399-412 | only the status and the pending connect change |
| `Subscriptions.WebSocketManager.CloseForReconnect` | apps/src/utils/websocket.ts:655-663 | abandons the socket and keeps records and queue |
| `Subscriptions.WebSocketManager.Disconnect` | apps/src/utils/websocket.ts:703-724 | forgets records, queue and socket and cancels the retry |
| `Subscriptions.MergeKeepsConsistent` | apps/src/utils/websocket.ts:241-263 | merging listeners keeps the records pairwise inequivalent and the queue in agreement with them |
| `Subscriptions.CreateKeepsConsistent` | apps/src/utils/websocket.ts:291-309 | adding a record and its entry keeps that agreement, and no waiting entry was equivalent |
| `Subscriptions.RemoveKeepsConsistent` | apps/src/utils/websocket.ts:313-340 | removing a record with its entries keeps that agreement |
| `Subscriptions.ReplayKeepsConsistent` | apps/src/utils/websocket.ts:194-206 | a replay keeps that agreement |
| `Subscriptions.ReplayAnnouncesAll` | apps/src/utils/websocket.ts:194-225 | a refilled queue replayed completely announces every subscription on the socket |
| `Subscriptions.RefillThenReplay` | apps/src/utils/websocket.ts:194-225 | entries added by the refill change no record; only entries that waited before do |
| `Subscriptions.ListenersSurviveIff` | apps/src/utils/websocket.ts:194-206 | a replay keeps a record's listeners if and only if every queue entry of the record carries the same listeners |
| `Subscriptions.MergedListenersLost` | apps/src/utils/websocket.ts:194-263 | a concrete run in which merged listeners are gone after the next open |
| `CalcState.MovingAvgState.New` | libs/voltage-calc/src/state.rs:163-173 | a fresh window |
| `CalcState.MovingAvgState.Add` | libs/voltage-calc/src/state.rs:180-208 | the window after one value, and its average |
| `CalcState.AddedSlides` | libs/voltage-calc/src/state.rs:180-196 | read from the oldest value, adding drops the oldest and appends the new one |
| `CalcState.AddedAllSlides` | libs/voltage-calc/src/state.rs:180-196 | after any additions the buffer is the last window of old contents and new values, and the count never exceeds the window |
| `CalcState.FreshWindowAverages` | libs/voltage-calc/src/state.rs:163-208 | a fresh window always averages the last min(window, k) of its k values |
| `CalcState.WindowHeals` | libs/voltage-calc/src/state.rs:180-208 | any stored window, however corrupted, averages exactly the added values after one full round |
| `CalcState.StateKeyInjective` | libs/voltage-calc/src/state.rs:235-237 | with colon-free function and variable names, equal keys mean equal context, function and variable |
| `CalcState.KeysCanCollide` | libs/voltage-calc/src/state.rs:235-237 | two function and variable pairs share a key in some contexts if and only if one key tail is a suffix of the other |
| `CalcFunctions.MemoryStateStore.Get` | libs/voltage-calc/src/state.rs:29-66 | the stored state of the key, if any |
| `CalcFunctions.MemoryStateStore.Set` | libs/voltage-calc/src/state.rs:29-66 | the key's state is replaced, all others stay |
| `CalcFunctions.BuiltinFunctions.Integrate` | libs/voltage-calc/src/builtin_functions.rs:44-93 | the store and the answer are those of one step on the call's key |
| `CalcFunctions.BuiltinFunctions.MovingAvg` | libs/voltage-calc/src/builtin_functions.rs:103-142 | the store and the answer are those of one step on the call's key |
| `CalcFunctions.BuiltinFunctions.RateOfChange` | libs/voltage-calc/src/builtin_functions.rs:151-205 | the store and the answer are those of one step on the call's key |
| `CalcFunctions.BuiltinFunctions.PeriodDelta` | libs/voltage-calc/src/builtin_functions.rs:239-311 | the store and the answer are those of one step on the call's key |
| `CalcFunctions.KeysAreIndependent` | libs/voltage-calc/src/builtin_functions.rs:44-311 | in any interleaving the state of a key depends only on the calls on that key |
| `CalcFunctions.KeyIdentifies` | libs/voltage-calc/src/builtin_functions.rs:44-311 | calls sharing a key have the same function, context, variable and period when variables have no colon and periods no underscore |
| `CalcFunctions.SharedKey` | libs/voltage-calc/src/state.rs:235-237 | an integral and a rate of different contexts and variables that share a key: the rate is refused once the integral has a state |
| `CalcFunctions.IntegrateClosedForm` | libs/voltage-calc/src/builtin_functions.rs:44-93 | after any calls the stored time is the latest seen and the sum adds each value over the gain in latest time only, so a clock that steps back never counts time twice |
| `CalcFunctions.LatestIsMaximum` | libs/voltage-calc/src/builtin_functions.rs:44-93 | the stored time is the maximum of the times seen |
| `CalcFunctions.AreaBounds` | libs/voltage-calc/src/builtin_functions.rs:44-93 | rates within bounds integrate to an area within the bounds times the covered time |
| `CalcFunctions.ConstantIntegral` | libs/voltage-calc/src/builtin_functions.rs:44-93 | a constant rate integrates to the rate times the covered time, whatever the clock did |
| `CalcFunctions.MovingAvgClosedForm` | libs/voltage-calc/src/builtin_functions.rs:103-142 | every answer is the mean of the last min(size, k) values since the window size last changed; size zero is an error |
| `CalcFunctions.RateClosedForm` | libs/voltage-calc/src/builtin_functions.rs:151-205 | the answer compares with the previous call only, and is absent unless the clock moved forward |
| `CalcFunctions.PeriodDeltaClosedForm` | libs/voltage-calc/src/builtin_functions.rs:239-311 | the stored start is the largest so far, the snapshot the smallest value since that start first appeared, and the answer the value above it |
| `CalcFunctions.PeriodDeltaNeverNegative` | libs/voltage-calc/src/builtin_functions.rs:239-311 | after the first call every answer is non-negative and the period start never goes back |
| `CalcFunctions.AnswersInAnyRun` | libs/voltage-calc/src/builtin_functions.rs:44-311 | in any run from an empty store the last answer is the closed form over the calls of the same context, function and variable |
| `CalcAverages.AverageBounds` | libs/voltage-calc/src/builtin_functions.rs:103-142 | in a run with one window size an answer lies between any bounds of the last min(size, k) values, so equal values are answered with that value |
| `CalcAverages.AverageShare` | libs/voltage-calc/src/builtin_functions.rs:103-142 | raising one of those values by d raises the answer by d divided by their number; raising an older one changes nothing |
| `CalcAverages.SizeChangeStartsOver` | libs/voltage-calc/src/builtin_functions.rs:103-142 | after a change of the window size the answers are those of a run without the earlier calls |
| `CalcAverages.MeanBounds` | libs/voltage-calc/src/state.rs:201-208 | a mean lies between any bounds of its values |
| `FormulaRewriting.CalcEngine.Process` | libs/voltage-calc/src/evaluator.rs:157-280 | right-to-left replacement in one text equals simultaneous substitution of all found ranges; calls run from right to left and the first failure ends the rewriting with the store as far as it came |
| `FormulaRewriting.ReplaceOneMore` | libs/voltage-calc/src/evaluator.rs:157-280 | replacing a range left of those already replaced finds it where the search did |
| `FormulaRewriting.SubstituteLength` | libs/voltage-calc/src/evaluator.rs:157-280 | the length of the result is that of the formula shifted by all replacements |
| `FormulaRewriting.ReplacementPlaced` | libs/voltage-calc/src/evaluator.rs:157-280 | the text of each range stands in the result at its shifted place |
| `FormulaRewriting.OutsideUnchanged` | libs/voltage-calc/src/evaluator.rs:157-280 | every character outside the ranges stands in the result at its shifted place |
| `FormulaRewriting.IntegralText` | libs/voltage-calc/src/evaluator.rs:157-280 | the text inserted for an integral is the stored total plus value times time passed times the requested factor |
| `FormulaRewriting.RateText` | libs/voltage-calc/src/evaluator.rs:157-280 | the text inserted for a rate is the change since the stored value over the time passed, or no number |
| `FormulaRewriting.AverageText` | libs/voltage-calc/src/evaluator.rs:157-280 | the text inserted for an average is the mean of the last values, as many as requested, the new one included |
| `ExecutionTree.FindFanOut` | apps/src/utils/ruleHistoryDisplay.ts:163-169 | the loop finds the last fan-out parent of the open path |
| `ExecutionTree.SplitExecutionPaths` | apps/src/utils/ruleHistoryDisplay.ts:149-180 | the loop computes the paths closed by branch ends and the path still open; what the cut after a branch end means for the shown tree is `ExecutionParents.ParentOfNext` |
| `ExecutionTree.MergePathsToTree` | apps/src/utils/ruleHistoryDisplay.ts:182-203 | the loop inserts the paths one after the other into the forest |
| `ExecutionTree.BuildExecutionTree` | apps/src/utils/ruleHistoryDisplay.ts:209-210 | the forest of the split paths |
| `ExecutionTree.FlattenIsPreorder` | apps/src/utils/ruleHistoryDisplay.ts:223-240 | the rows are the preorder of the tree with the depth of each node |
| `ExecutionTree.InsertPaths` | apps/src/utils/ruleHistoryDisplay.ts:182-203 | inserting a path adds exactly its prefixes to the root paths of the forest |
| `ExecutionTree.InsertPrefix` | apps/src/utils/ruleHistoryDisplay.ts:182-203 | inserting a prefix of a path before or after the path changes nothing |
| `ExecutionTree.BuildOneMore` | apps/src/utils/ruleHistoryDisplay.ts:149-210 | one more step changes the tree by one walk down the open path and that step |
| `ExecutionTree.TreePathsAreIdPaths` | apps/src/utils/ruleHistoryDisplay.ts:149-210 | the root paths of the tree are exactly the chains of ids of the steps |
| `ExecutionTree.SizeIsDistinctPaths` | apps/src/utils/ruleHistoryDisplay.ts:149-210 | the tree has one node per distinct chain of ids, so never more than steps |
| `ExecutionTree.TrailingPrefixAddsNothing` | apps/src/utils/ruleHistoryDisplay.ts:149-180 | after a branch end the trailing open path adds no node |
| `ExecutionTree.SplitPathsAreRootPaths` | apps/src/utils/ruleHistoryDisplay.ts:182-203 | every split path is a root path of the tree |
| `ExecutionTree.DistinctPathsKeepOrder` | apps/src/utils/ruleHistoryDisplay.ts:149-240 | without repeated chains the preorder of the tree is the steps in order, indented under their parents |
| `ExecutionTree.RepeatedPathLosesNode` | apps/src/utils/ruleHistoryDisplay.ts:182-203 | a repeated chain of ids costs a node |
| `ExecutionTree.FlattenRestoresSteps` | apps/src/utils/ruleHistoryDisplay.ts:149-240 | the display shows exactly the input steps, in order and indented, if and only if no two steps have the same chain of ids; the same for the number of rows |
| `ExecutionTree.DistinctIdsRestoreSteps` | apps/src/utils/ruleHistoryDisplay.ts:149-240 | pairwise different node ids are enough |
| `ExecutionTree.SameLeafTwice` | apps/src/utils/ruleHistoryDisplay.ts:149-240 | two branches of one fan-out that end in the same node: one step is not shown |
| `ExecutionParents.ParentOfNext` | apps/src/utils/ruleHistoryDisplay.ts:149-180 | when every step has its own row: the first row is a root; after a step that ends no branch the next is shown under it, after one that does under its nearest fan-out ancestor, or beside it if there is none; ancestors are read off the shown depths |
| `ExecutionParents.StepRoles` | apps/src/utils/ruleHistoryDisplay.ts:133-142 | which steps end a branch and which fan out, with the kind of the step used only where the node has none |
| `ExecutionParents.FlattenedRowsKnowSiblings` | apps/src/utils/ruleHistoryDisplay.ts:223-240 | every row tells how many siblings its node has and which of them it is, among the roots or the children of the row it is shown under |
| `ExecutionParents.LastPathWins` | apps/src/utils/ruleHistoryDisplay.ts:182-203 | of several steps with the same chain of ids the tree keeps the one on the last path |
| `Basics.DistinctKeepsMembers` | apps/src/composables/useInstanceChannelMonitoring.ts:42 | the distinct values are the same members, once each, the first one first |
| `Basics.NoRepeatsBySize` | libs/voltage-model/src/product_lib.rs:102-124 | a list is free of repetitions if and only if the set of its elements has its length |
| `ChannelMonitoring.Refresh` | apps/src/composables/useInstanceChannelMonitoring.ts:76-97 | every row shows the time and value that the update has for the id of its own point if that time is a positive number, else neither |
| `ChannelMonitoring.TableView.Select` | apps/src/composables/useInstanceChannelMonitoring.ts:51-57 | the screen clears and means the new selection |
| `ChannelMonitoring.TableView.Arrive` | apps/src/composables/useInstanceChannelMonitoring.ts:58-73 | only the response of the current version changes the screen |
| `ChannelMonitoring.TableView.ApplyUpdate` | apps/src/composables/useInstanceChannelMonitoring.ts:76-97 | only updates of the selected channel while connected change the rows |
| `ChannelMonitoring.TableView.OnStatus` | apps/src/composables/useInstanceChannelMonitoring.ts:107-111 | a lost connection clears all values and times |
| `ChannelMonitoring.ChannelMonitor.OnSelectInstances` | apps/src/composables/useInstanceChannelMonitoring.ts:22-29 | a new selection of instances starts a new routing version and clears the channels |
| `ChannelMonitoring.ChannelMonitor.OnRoutingArrives` | apps/src/composables/useInstanceChannelMonitoring.ts:30-48 | only the current routing response sets the distinct active channels and selects the first |
| `ChannelMonitoring.ChannelMonitor.OnDispose` | apps/src/composables/useInstanceChannelMonitoring.ts:112 | after disposal no response can match a version |
| `ChannelMonitoring.LateResponsesLeaveNoTrace` | apps/src/composables/useInstanceChannelMonitoring.ts:22-73 | a run with the superseded responses removed ends in the same state |
| `ChannelMonitoring.ShownTableIsCurrent` | apps/src/composables/useInstanceChannelMonitoring.ts:51-73 | a shown table is the response to the request of the current selection, and the selection has not changed since |
| `ChannelMonitoring.ShownUpdateIsLive` | apps/src/composables/useInstanceChannelMonitoring.ts:76-111 | the values of either half, telemetry or signal, come from an update that arrived after the table, with the connection up ever since |
| `ChannelMonitoring.RunsStayCoherent` | apps/src/composables/useInstanceChannelMonitoring.ts:22-112 | every run keeps selection, table and last updates in agreement |
| `ChannelMonitoring.ScreenIsSound` | apps/src/composables/useInstanceChannelMonitoring.ts:76-111 | after any run every shown value carries a valid time, and there are no values while not connected |
| `ChannelMonitoring.UpdateIsShown` | apps/src/composables/useInstanceChannelMonitoring.ts:76-97 | an update of the selected channel is shown at once, in every row of the half of its type |
| `ChannelMonitoring.TableIsShown` | apps/src/composables/useInstanceChannelMonitoring.ts:58-73 | the response to the current request is shown at once, row by row and without values |
| `ChannelMonitoring.RoutingSelects` | apps/src/composables/useInstanceChannelMonitoring.ts:30-48 | the current routing response lists every channel with an enabled, complete telemetry or signal route once, and selects that of the first such route |
| `ChannelMonitoring.SelectionStartsOver` | apps/src/composables/useInstanceChannelMonitoring.ts:22-73 | a new selection clears what was shown and asks anew; a failed response to the current request is reported |
| `InstanceMeasurements.MeasurementView.OnSelect` | apps/src/composables/useInstanceMeasurements.ts:17-24 | a new instance starts a new version, clears definitions, values, times and error, and loads exactly if there is one |
| `InstanceMeasurements.MeasurementView.OnArrives` | apps/src/composables/useInstanceMeasurements.ts:25-36 | only the response of the current version changes definitions, error or loading: it sets the definitions or reports the failure |
| `InstanceMeasurements.MeasurementView.ApplyUpdate` | apps/src/composables/useInstanceMeasurements.ts:38-56 | only measurement updates of the selected instance while connected replace the values and times, field by field with those of the update |
| `InstanceMeasurements.MeasurementView.OnStatus` | apps/src/composables/useInstanceMeasurements.ts:70-75 | a lost connection clears values and times |
| `InstanceMeasurements.Collect` | apps/src/composables/useInstanceMeasurements.ts:47-53 | in any order of the entries the maps have exactly the update's fields, each with its value and time if that time is a positive number, else with neither |
| `InstanceMeasurements.ShownDefinitionsAreCurrent` | apps/src/composables/useInstanceMeasurements.ts:17-36 | shown definitions are the response to the request of the current instance, selected since before they arrived |
| `InstanceMeasurements.ScreenIsSound` | apps/src/composables/useInstanceMeasurements.ts:38-75 | after any run values and times have the same fields, values carry valid times, belong to the selected instance, and there are none while not connected |
| `ProductLibrary.ValidateIdentity` | libs/voltage-model/src/product_lib.rs:90-125 | accepts exactly the lists with non-empty names and types, unique names and unique point ids per kind; every error names a defect |
| `ProductLibrary.ValidateTargets` | libs/voltage-model/src/product_lib.rs:150-180 | accepts exactly when the targets of the rule repeat none seen in the product and each is another product naming it back |
| `ProductLibrary.ValidateTopology` | libs/voltage-model/src/product_lib.rs:129-182 | accepts exactly the products whose groups are non-empty with ordered limits, whose targets repeat nowhere and link both ways |
| `ProductLibrary.Validate` | libs/voltage-model/src/product_lib.rs:89-185 | accepts exactly the well-identified catalogues with a symmetric, irreflexive connection relation; an error is a real defect, and of the first kind exactly when the first pass fails |
| `ProductLibrary.FaultyIsRejected` | libs/voltage-model/src/product_lib.rs:89-185 | every defect an error can describe is a reason to reject |
| `ProductLibrary.ConnectionsAreUndirected` | libs/voltage-model/src/product_lib.rs:150-180 | in an accepted catalogue connections are symmetric, irreflexive, between known products, without repetition |
| `ProductLibrary.Position` | libs/voltage-model/src/product_lib.rs:270 | the first product of a name, or the length |
| `ProductLibrary.Override` | libs/voltage-model/src/product_lib.rs:270-281 | one external product replaces the one of its name or is appended |
| `ProductLibrary.MergeExternal` | libs/voltage-model/src/product_lib.rs:246-283 | the catalogue lists the names of built-in then external products once, in order of appearance, each with its last definition; the first broken entry ends the loading with its error |
| `ProductLibrary.MergeIsUnique` | libs/voltage-model/src/product_lib.rs:246-283 | there is only one such catalogue |
| `ProductLibrary.Load` | libs/voltage-model/src/product_lib.rs:238-288 | a loaded catalogue is that merge and is accepted, by directory entry: the last external product of each name, the built-in ones without an external of their name, and nothing else; a file error is that of the first broken entry, any other error comes exactly when the merge is not acceptable |
| `UartFraming.UartReceiver.constructor` | firmware/src/main.rs:58-62 | an empty ring |
| `UartFraming.UartReceiver.Receive` | firmware/src/main.rs:213-217 | a byte is appended to the content; into a full ring it makes the content empty |
| `UartFraming.UartReceiver.FindStart` | firmware/src/main.rs:114-121 | the scan stops at the first start byte of the content, or at the head |
| `UartFraming.CopyFrame` | firmware/src/main.rs:123-133 | copies the content from the start byte up to the first end byte that makes a frame of 14 bytes, or up to the head |
| `UartFraming.UartReceiver.ProcessUartRx` | firmware/src/main.rs:89-146 | a poll hands on the first frame of the content and leaves what follows it, or leaves everything |
| `UartFraming.FrameInFindsFirst` | firmware/src/main.rs:114-136 | the first frame is unique: first start byte, first end byte at 14 bytes or more |
| `UartFraming.PollConserves` | firmware/src/main.rs:135-145 | the content is skipped bytes without a start byte, the frame and the rest |
| `UartFraming.CompleteFrameIsStable` | firmware/src/main.rs:89-146 | bytes that arrive later never change a complete frame |
| `UartFraming.MainLoop` | firmware/src/main.rs:196-208 | executing any arrivals and polls on the ring gives the content and the frames of the run's specification, overflow included |
| `UartFraming.FramesSinceOverflow` | firmware/src/main.rs:89-146 | in every run the frames handed on since the last overflow and those still to come are the frames of the bytes since it, however they were split among polls and whatever arrives next |
| `UartFraming.SplitDoesNotMatter` | firmware/src/main.rs:89-146 | without overflow the same for the whole stream |
| `UartFraming.OverflowBreaksPrefix` | firmware/src/main.rs:89-146 | a run in which an unfinished frame overflows the ring and the frame handed on is not one of the stream |
| `UartFraming.HandsOnTheStreamsFrames` | firmware/src/main.rs:89-146 | without overflow the frames handed on are a prefix of the stream's frames, and all of them if and only if none is pending |
| `UartFraming.EnoughPollsDrain` | firmware/src/main.rs:89-146 | as many polls as pending frames hand all of them on, in order |
| `UartFraming.FramesAreFramed` | firmware/src/main.rs:135-136 | every frame of a stream has the marker bytes and the minimum length |
| `UartFraming.FramesFit` | firmware/src/main.rs:104-107 | a stream has at most one frame per 14 bytes |
| `UartFraming.IncompleteContentStays` | firmware/src/main.rs:135-145 | polling changes the content if and only if a frame is complete, however often it polls |
| `UartFraming.FullRingStalls` | firmware/src/main.rs:89-146 | the byte after a full ring wipes it, after any number of polls, if and only if no frame was complete in it |
| `EnergyStatistics.IntervalIsLeast` | apps/src/utils/energyStatistics.ts:44-55 | the interval is the least number of seconds, at least one, with which the permitted points cover the span |
| `EnergyStatistics.BucketsWithinCap` | apps/src/utils/energyStatistics.ts:33-55 | a query with that interval never has more buckets than the permitted points, at most 5000 |
| `EnergyStatistics.IntervalFromInputs` | apps/src/utils/energyStatistics.ts:44-55 | the same interval from the inputs: the least number of seconds, at least one, that the permitted points, cut to 1 to 5000, need to cover the whole seconds of the span |
| `EnergyStatistics.BucketsFit` | apps/src/utils/energyStatistics.ts:33-41 | the expected number of buckets is the largest whose intervals fit into the span |
| `EnergyStatistics.SeriesOfTerm` | apps/src/utils/energyStatistics.ts:155-156 | the series of a term is the first response for its point under the measurement key of the instance |
| `EnergyStatistics.LastPointDecides` | apps/src/utils/energyStatistics.ts:159 | of several points with one timestamp the last decides |
| `EnergyStatistics.SampleIsLinear` | apps/src/utils/energyStatistics.ts:160-168 | there is no sample exactly where a term has no value; else it is linear in each value with the factor of its term, and zero for zeros |
| `EnergyStatistics.ValueAtTime` | apps/src/utils/energyStatistics.ts:141-169 | the value at a time is the sample there, or for a counter the increase since the time before where both are known and it did not go back |
| `EnergyStatistics.TimestampsAreOrdered` | apps/src/utils/energyStatistics.ts:157-158 | the time axis has every timestamp of the series once, in order of time when all are dates, ties as first seen |
| `EnergyStatistics.CombineTerms` | apps/src/utils/energyStatistics.ts:160-168 | the sample is the weighted sum of the terms if all have a value at the time, else unknown |
| `EnergyStatistics.IntervalsKnown` | apps/src/utils/energyStatistics.ts:141-147 | no interval is unknown if and only if every reading is known and the counter never goes back |
| `EnergyStatistics.IntervalsTelescope` | apps/src/utils/energyStatistics.ts:141-147 | the intervals of such readings add up to the last minus the first |
| `EnergyStatistics.IntervalsWithinTotal` | apps/src/utils/energyStatistics.ts:141-147 | no interval is negative or above the total |
| `EnergyStatistics.TotalIsLastMinusFirst` | apps/src/utils/energyStatistics.ts:149-184 | a total is given if and only if the metric is a counter, every series has the expected bucket count, and there are at least two readings, all known and never going back; it is the last minus the first over the whole axis |
| `EnergyStatistics.NoTermsNoTotal` | apps/src/utils/energyStatistics.ts:149-184 | a metric without terms has an empty history |
| `OperationLog.ThreeReplacementsAreOnePass` | libs/common/src/operation_log.rs:252-261 | the three replacements in sequence escape every special character exactly once |
| `OperationLog.LikePatternMeansContains` | libs/common/src/operation_log.rs:252-275 | the pattern matches, by the rules of SQLite's LIKE with an escape character, exactly the texts that contain the search text without regard to ASCII case |
| `OperationLog.DecodeHeaderValue` | libs/common/src/operation_log.rs:85-103 | the loop decodes every well-formed triplet, and falls back to the input when the result is not valid UTF-8 |
| `OperationLog.DecodedInverts` | libs/common/src/operation_log.rs:85-103 | decoding undoes every percent-encoding of a text |
| `OperationLog.PercentEncodeEncodes` | libs/common/src/operation_log.rs:85-103 | encoding all but a set of literal ASCII bytes, with lower-case or upper-case digits, is such an encoding and decodes to the text |
| `OperationLog.HexDigitsAreRead` | libs/common/src/operation_log.rs:91-92 | a byte is read as a digit exactly if it is the lower-case or upper-case digit of that number |
| `OperationLog.SameIsCaseless` | libs/common/src/operation_log.rs:252-275 | characters compare equal exactly if they are the same or the two cases of one ASCII letter |
| `Utf8.ValidIffEncoded` | libs/common/src/operation_log.rs:102 | bytes are accepted as text exactly if they are the encodings of scalar values of section 3 of RFC 3629 |
| `OperationLog.HeaderRoundTrip` | libs/common/src/operation_log.rs:85-103 | an ASCII encoding of a valid text is accepted and decodes to it |
| `OperationLog.UnchangedIffNoTriplet` | libs/common/src/operation_log.rs:85-103 | decoding leaves a value unchanged if and only if it has no well-formed triplet |
| `Csv.CellParses` | apps/src/utils/csv.ts:1-6 | a CSV reader gets back the text of an escaped cell, whatever it holds |
| `Csv.QuotedIfNeeded` | apps/src/utils/csv.ts:1-7 | a cell is quoted exactly if it has a quote, a comma, a carriage return or a line feed in it |
| `Csv.RowsRoundTrip` | apps/src/utils/csv.ts:1-11 | a CSV reader gets back every cell of the printed rows |
| `Csv.DocumentRoundTrip` | apps/src/utils/csv.ts:1-11 | the file starts with a byte order mark and reads back as the table if and only if it has a row and every row has a cell |
| `Csv.PrintingIsInjective` | apps/src/utils/csv.ts:1-11 | different tables give different files |
| `Csv.LenientRoundTrip` | apps/src/utils/csv.ts:1-11 | a reader that drops a final line break gets the table back if and only if it is not of several rows with a last row of one empty cell |

## Left out

- Memory ordering and fences of the sequence lock: the state machine interleaves single loads and stores in program order.
- `read_spin` of the point slot: its loop is repeated read attempts, which the runs contain.
- Rounding, NaN and infinities of floating-point numbers: arithmetic is over exact reals.
- Formula evaluation and the search for function calls in formulas: ordered, non-overlapping ranges are a parameter, as are the clock and the printing of numbers.
- Calendar computation of period starts: the start is a parameter of the call.
- ExecutionTree.MergePathsToTree: does not capture aliasing between nodes, because the mutable trie nodes are values.
- Shapes of socket messages, dispatch to listeners, heartbeat, page ids, callbacks that reenter the manager, and a socket constructor that throws.
- Timers of the reconnect: a scheduled retry is a flag.
- Redis, SQLite, file reading and the JSON format: rows, entries and responses are parameters.
- ForwardCascade.WriteBatch: does not model the count of per-instance batches and the write buffer's overflow, because instance writes are one list and buffering is outside the cascade.
- Atomicity of the three table swaps when the routing cache is updated, and its content hash.
- Routing.C2CRoundTrip: does not model the printing and reading of floating-point numbers, which are parameters required to read back the numbers that occur.
- The second of the two cascades over shared-memory slots in `libs/voltage-rtdb-shm`.
- Vue's reactivity and rendering: watchers are methods called at the events they watch.
- EnergyStatistics.TimestampsAreOrdered: does not order texts that are not dates, because JavaScript leaves their order to the engine; one stable order is modelled.
- Numbers and nulls in CSV cells: cells are the texts they are printed as.
- UartFraming.UartReceiver.Receive: does not model existing code, because the interrupt handler is only a comment; it is modelled as the usual push.
- The DL/T 645 decoder and the write of decoded values.
- Device protocols, HTTP handlers, permissions, deployment and the rest of the web client: they would add members without harder properties.
