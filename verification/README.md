# GoOne verification model

A Dafny model of the scheduling, queueing, synchronisation and indexing logic of GoOne, a game-server
framework, with proofs about every run, every input or every interleaving. One component per group of
files:

- **Time wheel** (`WheelArithmetic`, `WheelState`, `WheelSpec`, `WheelAccount`, `TimeWheel`): any number
  of layers over slot lists, refining a plain set of tasks with deadlines. `WheelSpec` says what callers
  see, `WheelAccount` where every task ends up, `WheelState` relates both to the layers, and the class
  in `TimeWheel` is proved against them.
- **Asynchronous queue** (`AsyncQueue`, `AsyncPush`, `AsyncDrain`, `LinkedQueue`): the multi-producer
  single-consumer list and its worker as a state machine with one step per atomic operation, what one
  push does, what draining and stopping guarantee, and the list in place.
- **Transaction manager** (`TransactionShard`, `ShardRuns`, `ShardOrder`, `TransactionMgr`,
  `TransactionKeys`, `ShardStranding`, `ShardWorker`): a shard's handlers as functions on its maps, runs
  of a shard, runs of the whole manager, which requests exclude each other by their headers, exactly
  when order is lost or requests are left behind, and the handlers in place.
- **Role synchronisation and persistence** (`RoleSync`, `RoleRuns`, `LiveRole`): marks, masks, patches
  and saves as functions on a role and its replicas, runs over them, and the role object in place.
- **Framing** (`Framing`, `CSPacket`): cutting a byte stream into frames, and the packet codec.
- **Application lifecycle** (`LifecycleState`, `LifecycleRun`): the state store, its interleavings, and
  the order of component hooks.
- **Gateway** (`Admission`, `AdmissionAlone`, `AdmissionControl`, `SessionHub`): slot counters under
  interleaving and without, the same controller in place, and the session maps.
- **Lookup and choice** (`LruCache`, `ConsistentHash`, `WeightedPick`, `DropGroup`, `DropDerivation`).

Clocks, random draws, checksums, marshalling, sends and writes are parameters: a number, a function, a
flag saying whether the operation succeeds. `Options` holds the shared option type.

## Where the code does not do what it seems to promise

The model follows the code where its comments or names say more.

- `schedule` runs a task that is already due without looking at pending removals, and a removal of a key
  that no waiting task has is not ignored, as the comment on `RemoveTimer` says: it silently drops the
  next timely task with that key, however much later (`WheelSpec.OvertakingRemoval`,
  `WheelSpec.MarkWaits`).
- `Drain` of the asynchronous worker tests a counter that is raised after the tail swap, so even after
  `Quiesce` it can return while an accepted value is still to be popped (`AsyncDrain.DrainCanMissAValue`).
  It is right exactly when every push past its status check has been counted (`AsyncDrain.DrainExact`);
  waiting for the `PushE` calls to return is enough (`AsyncDrain.DrainAfterJoin`).
- A worker that is stopped can leave while a `PushE` is past its status check; the push then succeeds and
  its task never runs (`AsyncDrain.ExitCanLoseAValue`). Nothing is lost exactly when no push is at that
  point (`AsyncDrain.ExitExact`), and afterwards the counter tells (`AsyncDrain.ExitedCount`).
- A request taken off a queue and then refused leaves the requests behind it without an owner, until
  another request of their key arrives, and for ever during shutdown, when the shard then cannot stop
  (`ShardStranding.StrandedExactly`, `ShardStranding.StrandedUntilArrival`,
  `ShardStranding.StrandedRunRests`, `ShardOrder.RestMeansStop`).
- The request that rescues them is started before them, so requests of one key do not always start in
  arrival order (`ShardStranding.OvertakingRun`); they do exactly when none is started from the inbox
  while others of its key wait (`ShardStranding.ArrivalOrderExactly`).
- Requests are serialised under one number, the router id or else the uid, so a user without a router
  waits for a router that happens to have the same number (`TransactionKeys.UserWaitsForRouter`).
- A kick mark on a connection that is replaced before it closes is never cleared, so a later connection
  from the same address has its own close reported as a kick (`SessionHub.FalseKick`,
  `SessionHub.KickReport`).
- `saveRoleHash` means to skip an absent section, but compares a typed nil pointer inside an interface
  with nil, which never holds: an absent section is written as an empty field, and loading skips empty
  fields (`RoleRuns.LoadAfterSave`).
- An incremental save of a role that was never stored writes only the sections marked before it, unless
  none was (`RoleRuns.FirstSave`); replacing the whole role marks no section for the store
  (`RoleRuns.ReplaceThenSave`).
- `TouchActvityTaskInfo` marks a patch, but the patch of that section carries tasks only
  (`RoleRuns.TouchedActivityArrives`). It has no caller outside a test.
- The weighted choice gives each index its share of the draws exactly when no weight is negative
  (`WeightedPick.PicksByWeight`).

## Model

| member | source | states |
|---|---|---|
| `WheelSpec.FiresExactlyOnce` | lib/util/timer/timewheel.go:255-379 | over any run of wheel steps, and every method of the class is such a step for any layer count, two slots or more and any delay: a task added before it expires and never removed waits, and fires exactly once, stamped with the first tick strictly after its expiration |
| `WheelSpec.WaitsThenFires` | lib/util/timer/timewheel.go:255-379 | the same for a task already waiting: its copies stay until the fire tick and then all fire, once each |
| `WheelSpec.RemovedNeverFires` | lib/util/timer/timewheel.go:383-402 | a waiting task whose key is removed never fires, whatever follows |
| `WheelSpec.OvertakingRemoval` | lib/util/timer/timewheel.go:338-402 | over any run: after the removal of a key no waiting task has, and anything but a timely task with that key, the next task with it is silently dropped and the removal used up exactly when the task has not expired; an expired one runs and the removal goes on waiting |
| `WheelSpec.MarkWaits` | lib/util/timer/timewheel.go:349-402 | a remembered removal outlives ticks, other keys and expired tasks, and waits for the next task with its key that is added in time |
| `WheelAccount.Accounted` | lib/util/timer/timewheel.go:255-402 | over any run and for every task: as often as it was added it waits, has run, was removed while waiting, or was added in time while a removal of its key was pending |
| `WheelAccount.NothingLost` | lib/util/timer/timewheel.go:255-379 | when nothing is removed, a new wheel keeps or runs exactly what it is given, however much of it was due at once |
| `WheelAccount.ExpiredRunsAtOnce` | lib/util/timer/timewheel.go:338-346 | a task that has expired when it is added runs at once, stamped with that moment, whatever its key and whatever removals are pending, and nothing else changes; it never runs a second time |
| `WheelAccount.MarksExact` | lib/util/timer/timewheel.go:338-402 | over any run a key is marked exactly while it has been removed with no waiting task carrying it and no task with it has been added in time since |
| `WheelSpec.FireTick` | lib/util/timer/timewheel.go:283-304 | the fire time is later than the expiration by at most one tick |
| `WheelSpec.AdvanceFires` | lib/util/timer/timewheel.go:255-304 | from the layers: the tasks due in the slot the lowest pointer reaches are all the waiting tasks whose expiration tick has just passed |
| `WheelState.PointerPosition` | lib/util/timer/timewheel.go:262-279 | the pointer of layer i is at floor(elapsed / perSlot_i) mod slots |
| `WheelState.TurnsCountSlots` | lib/util/timer/timewheel.go:262-279 | the nested wrap count of the pointers equals elapsed divided by the slot width of the layer |
| `WheelState.PlacedOnTime` | lib/util/timer/timewheel.go:349-379 | the slot scheduleIn chooses is reached by its pointer no later than the expiration of the task, also for delays beyond the top layer |
| `WheelState.HigherNotDue` | lib/util/timer/timewheel.go:262-333 | a task hanging in a higher layer is not due: it is cascaded before it expires |
| `WheelState.LocAfterRemove` | lib/util/timer/timewheel.go:283-304 | taking a task out of a slot and forgetting its key leaves loc an exact index of the wheel |
| `WheelState.LocAfterAdd` | lib/util/timer/timewheel.go:349-379 | hanging a task with a fresh key and remembering it leaves loc an exact index of the wheel |
| `WheelState.CascadeDone` | lib/util/timer/timewheel.go:309-333 | after the pending list has been spread, no slot of a layer misses its deadline any more |
| `Timer.TimeWheel.constructor` | lib/util/timer/timewheel.go:124-146 | a new wheel is valid and empty |
| `Timer.TimeWheel.BuildLayers` | lib/util/timer/timewheel.go:151-166 | slot width and span of each layer: the span of one is the slot width of the next |
| `Timer.TimeWheel.Advance` | lib/util/timer/timewheel.go:255-259 | one tick fires exactly the waiting tasks whose expiration tick has passed, stamps them with the new time, and keeps the wheel sound |
| `Timer.TimeWheel.TickLayer` | lib/util/timer/timewheel.go:262-279 | running a slot, moving the pointer and, on a wrap, ticking and cascading the layer above: what fires is the due part of the slot of the lowest layer, what waits is otherwise unchanged |
| `Timer.TimeWheel.RunSlot` | lib/util/timer/timewheel.go:283-304 | runs the expired tasks of the slot in order and keeps the others in order |
| `Timer.TimeWheel.CascadeDown` | lib/util/timer/timewheel.go:309-333 | spreads the slot over the layers below without losing, adding or firing a task |
| `Timer.TimeWheel.Schedule` | lib/util/timer/timewheel.go:338-346 | runs an expired task at once, drops one whose key is marked, hangs any other |
| `Timer.TimeWheel.ScheduleIn` | lib/util/timer/timewheel.go:349-379 | hangs the task in the first layer that spans its delay, at the slot that far ahead, or consumes the mark of its key |
| `Timer.TimeWheel.RemoveByKey` | lib/util/timer/timewheel.go:383-402 | takes exactly the task with that key out of the wheel, or remembers the key when no task has it |
| `AsyncQueue.ExecInv` | lib/service/async/queue.go:33-51 | the list, counter and wake-up invariant holds after every interleaving of the atomic steps of any number of producers and the worker |
| `AsyncQueue.PoppedInSwapOrder` | lib/service/async/queue.go:33-51 | the popped values are a prefix of the values in tail-swap order: none repeated, skipped or overtaken, linked or not |
| `AsyncQueue.WakeUpPending` | lib/service/async/async.go:154-172 | when the worker waits and head.next is set, the token is in the channel or a producer has linked its node and not yet signalled |
| `AsyncQueue.WaitingMeansEmpty` | lib/service/async/async.go:86-107 | when the worker waits without a token and no push is under way, every pushed value has been popped |
| `AsyncQueue.CapacityOverrun` | lib/service/async/async.go:86-107 | with P producers the counter never exceeds capacity + P - 1, and the true backlog never exceeds capacity + P |
| `AsyncDrain.DrainExact` | lib/service/async/async.go:120-139 | after Quiesce or Stop, a Drain that sees zero means that nothing is left to pop and nothing will be added, whatever happens next, exactly when every push past its status check has counted its value |
| `AsyncDrain.DrainAfterJoin` | lib/service/async/async.go:120-139 | after Quiesce or Stop and once all PushE calls have returned, the count is zero exactly when nothing is left to pop, and no continuation adds a value |
| `AsyncDrain.DrainMissesAtMost` | lib/service/async/async.go:120-139 | without waiting for them, a Drain that sees zero misses at most one value per PushE under way, and the one the worker is returning |
| `AsyncDrain.DrainCanMissAValue` | lib/service/async/async.go:86-139 | a run in which Drain, after Quiesce, sees zero while an accepted value has not been popped |
| `AsyncDrain.ExitExact` | lib/service/async/async.go:86-172 | the worker leaves without losing a value, pushed before or after, exactly when at that moment no PushE is between its status check and linking its node |
| `AsyncDrain.ExitedCount` | lib/service/async/async.go:86-172 | once the worker has left and all PushE calls have returned, every value has been popped exactly when the count is zero |
| `AsyncDrain.StopPrecedesExit` | lib/service/async/async.go:141-172 | the worker only leaves after Stop |
| `AsyncDrain.ExitCanLoseAValue` | lib/service/async/async.go:86-172 | a run after which PushE has succeeded, the worker has left, and the value is never popped |
| `AsyncQueue.PopOnceReturnsNext` | lib/service/async/queue.go:43-51 | one Pop with a linked next node returns the next value in swap order and keeps the list |
| `AsyncQueue.WorkerDrains` | lib/service/async/async.go:154-172 | with every node linked, the drain loop returns all values in order and then waits, or exits when told to |
| `AsyncQueue.StructAfterStep` | lib/service/async/queue.go:33-51 | every atomic step keeps the list: each position holds its value and each missing link is owned by one producer |
| `AsyncQueue.CountAfterStep` | lib/service/async/async.go:86-107 | every atomic step keeps the counter equal to the backlog less the nodes not yet counted, and within its bound |
| `AsyncQueue.AwakeAfterStep` | lib/service/async/async.go:86-107 | every atomic step keeps a waiting worker with work notified |
| `AsyncPush.PushExactly` | lib/service/async/async.go:86-107 | in any reachable state, a PushE that nothing interferes with is accepted exactly when the worker runs and the count is below the capacity: its value is then last, linked, counted and announced; otherwise nothing changes |
| `LinkedQueue.Queue.constructor` | lib/service/async/queue.go:27-30 | a new queue is empty |
| `LinkedQueue.Queue.Push` | lib/service/async/queue.go:33-40 | undisturbed, appends the value and links the node behind the last |
| `LinkedQueue.Queue.Pop` | lib/service/async/queue.go:43-51 | undisturbed, returns the oldest value and makes its node the head, or nothing exactly when the list is empty |
| `TransactionShard.DispatchKeepsInv` | lib/service/transaction/transaction_mgr_impl.go:320-397 | handling a request keeps ids numbered, the in-process markers exact and the queues non-empty and bounded |
| `TransactionShard.RetireKeepsInv` | lib/service/transaction/transaction_mgr_impl.go:399-434 | ending a transaction keeps the same, and the request it takes off a queue is of the same key, which is then unmarked |
| `TransactionShard.NewId` | lib/service/transaction/transaction_mgr_impl.go:380-397 | before wrap-around the next id is not in use and belongs to this shard modulo the shard count |
| `ShardRuns.StepKeepsInv` | lib/service/transaction/transaction_mgr_impl.go:301-434 | at every step each request is in exactly one place: inbox, in hand, waiting, running, refused or finished |
| `ShardRuns.PlacedAfterDispatch` | lib/service/transaction/transaction_mgr_impl.go:320-397 | conservation across the handling of one request, whatever its outcome |
| `ShardRuns.PlacedAfterReturn` | lib/service/transaction/transaction_mgr_impl.go:399-434 | conservation across the end of a transaction |
| `ShardOrder.StepKeepsOrder` | lib/service/transaction/transaction_mgr_impl.go:301-434 | every step keeps the requests of each key lined up in arrival order: started, in hand, waiting |
| `ShardOrder.StartsInArrivalOrder` | lib/service/transaction/transaction_mgr_impl.go:320-434 | requests of one key start in arrival order as long as none was refused with others of its key behind it |
| `ShardStranding.StrandedExactly` | lib/service/transaction/transaction_mgr_impl.go:340-434 | handling a request taken off a queue leaves waiting requests without an owner exactly when others of its key wait and its deadline has passed, its command has no handler or no slot is free |
| `ShardStranding.AbandonedStays` | lib/service/transaction/transaction_mgr_impl.go:301-434 | no step but the arrival of a request of the key helps abandoned requests, or changes their queue |
| `ShardStranding.StrandedUntilArrival` | lib/service/transaction/transaction_mgr_impl.go:116-129 | through any run without an arrival of the key, hence for ever once arrivals are rejected at shutdown, abandoned requests stay in their queue and the shard cannot stop |
| `ShardStranding.RescuedExactly` | lib/service/transaction/transaction_mgr_impl.go:340-397 | a later request of the key makes abandoned ones owned again exactly when it is started |
| `ShardStranding.LineKeptExactly` | lib/service/transaction/transaction_mgr_impl.go:320-434 | a step keeps the requests of a key in arrival order, started, in hand and waiting, exactly when it does not start a newcomer ahead of waiting ones |
| `ShardStranding.ArrivalOrderExactly` | lib/service/transaction/transaction_mgr_impl.go:320-434 | over a whole run the requests of a key are in arrival order at every point exactly when no request of it is ever started from the inbox while others wait |
| `ShardStranding.StrandedRunRests` | lib/service/transaction/transaction_mgr_impl.go:340-434 | a run of eight events after which nothing but an arrival can happen, yet a request waits and the shard cannot stop |
| `ShardStranding.OvertakingRun` | lib/service/transaction/transaction_mgr_impl.go:340-434 | the same run continued by a fourth request of the key: it rescues the third and overtakes it, so requests of one key start out of arrival order |
| `ShardOrder.StepLowersWeight` | lib/service/transaction/transaction_mgr_impl.go:301-434 | every event but an arrival lowers the weight 3 per request in the inbox, 2 per waiting one, 1 per running one |
| `ShardOrder.WorksOff` | lib/service/transaction/transaction_mgr_impl.go:274-318 | a shard handles at most as many events without arrivals as its weight |
| `ShardOrder.RestMeansStop` | lib/service/transaction/transaction_mgr_impl.go:301-303 | a shard with nothing left to do can stop exactly when every waiting request still has an owner |
| `TransactionMgr.ReachableInv` | lib/service/transaction/transaction_mgr_impl.go:210-434 | the invariant of the whole manager holds in every reachable state, for any order of arrivals, returns and shard steps |
| `TransactionMgr.MgrStepKeepsInv` | lib/service/transaction/transaction_mgr_impl.go:301-434 | one step of any shard keeps the manager consistent, the shared counters included |
| `TransactionMgr.OneTransactionPerKey` | lib/service/transaction/transaction_mgr_impl.go:210-244 | in the whole manager at most one transaction per serial key runs, in the shard the key routes to |
| `TransactionKeys.NeverTogether` | lib/service/transaction/transaction_mgr_impl.go:233-244 | in every reachable manager two running transactions share neither a router id nor, both without one, a uid, in whichever shards they run |
| `TransactionKeys.ArrivesExactly` | lib/service/transaction/transaction_mgr_impl.go:210-231 | a request arrives exactly at the shard its router id, else its uid, selects; at any shard when it has neither |
| `TransactionKeys.OutcomeExactly` | lib/service/transaction/transaction_mgr_impl.go:320-397 | each outcome of handling a request by its header and what runs: it waits, or is dropped for a full queue, exactly when a running transaction has its router, or its user when neither has a router, or the one the number of the other; it starts exactly when none does and deadline, command and slot allow it |
| `TransactionKeys.RoutersIndependent` | lib/service/transaction/transaction_mgr_impl.go:340-368 | requests of different routers never make each other wait, whoever their users are |
| `TransactionKeys.UserWaitsForRouter` | lib/service/transaction/transaction_mgr_impl.go:233-244 | a user without a router waits for a router that has the same number |
| `TransactionKeys.NextExactly` | lib/service/transaction/transaction_mgr_impl.go:399-434 | ending a transaction takes the first of its queue, which clashes with it, and leaves every other queue alone |
| `TransactionMgr.MarkerExact` | lib/service/transaction/transaction_mgr_impl.go:356-434 | keyInProcess holds in a shard exactly while a transaction of that key runs there |
| `TransactionMgr.IdsDistinctAndRouted` | lib/service/transaction/transaction_mgr_impl.go:210-231 | transaction ids are non-zero, distinct across shards, and a response is routed to the shard that owns its id |
| `TransactionMgr.CountersExact` | lib/service/transaction/transaction_mgr_impl.go:246-268 | activeTransactions is the total of the transaction maps and within MaxTrans, pendingPackets the total of the queues, each non-empty and within its bound |
| `ShardWorker.Counters.TryAcquireTransSlot` | lib/service/transaction/transaction_mgr_impl.go:246-256 | takes a slot exactly when one is free |
| `ShardWorker.ShardLoop.constructor` | lib/service/transaction/transaction_mgr_impl.go:66-81 | ids of shard i start at i + 1 and step by the shard count |
| `ShardWorker.ShardLoop.ProcessSSPacket` | lib/service/transaction/transaction_mgr_impl.go:320-397 | a response goes to the transaction it names, or is refused, and changes nothing else; a request leaves the maps, counters and result code of the dispatch specification |
| `ShardWorker.ShardLoop.ProcessTransactionRet` | lib/service/transaction/transaction_mgr_impl.go:399-434 | ends the transaction and handles the next waiting request of its key as the specification says, whatever slots other shards take or give back in between |
| `RoleRuns.ReplicaConverges` | src/mainsvr/role/sync_state.go:154-458 | after any run of tracked changes, full-sync marks, logins, replacements, mode switches and failed sends, a flush of an online role whose send succeeds leaves a client that applies every message with exactly the content of the server; so does any flush that reports success |
| `RoleRuns.ContentAfter` | src/mainsvr/role/sync_state.go:154-458 | what each operation does to the content of the server: a tracked change makes exactly its change, and marks, flushes and saves none |
| `RoleRuns.MarksAreCovered` | src/mainsvr/role/sync_state.go:154-273 | at every point of every run upsert and delete marks are disjoint, each is covered by one of the two masks, and no section is in both masks |
| `RoleRuns.StoreConverges` | src/mainsvr/role/sync_state.go:275-331 | after any run of marked changes with saves that fail part way, a forced persistence flush that reports success leaves every section stored as it is |
| `RoleRuns.StepSyncs` | src/mainsvr/role/sync_state.go:154-458 | every operation keeps the sync invariant |
| `RoleRuns.StepPersists` | src/mainsvr/role/persist_hash.go:65-111 | every operation but a replacement of the whole content keeps: each section outside persistDirtyMask is stored as it is |
| `RoleRuns.SaveEffect` | src/mainsvr/role/persist_hash.go:65-111 | a save succeeds exactly when no section it has to write fails; then no mark is left and the store is up to date exactly when it already was outside the mask used; a failure loses no mark and no stored section |
| `RoleRuns.WritesUpToFailure` | src/mainsvr/role/persist_hash.go:65-111 | a save that fails has written exactly the sections of its mask that come before the first one whose write fails |
| `RoleRuns.SaveKeeps` | src/mainsvr/role/role.go:156-203 | SaveToDB and SaveToDBSync keep the persistence invariant, and a success stores every section |
| `RoleRuns.FlushPersistStores` | src/mainsvr/role/sync_state.go:312-331 | a persistence flush that is forced or due and reports success leaves everything stored and nothing marked; it succeeds exactly when nothing is asked for or due, or no section it has to write fails; one that is not due changes nothing, and a failure keeps every mark |
| `RoleRuns.FirstSave` | src/mainsvr/role/persist_hash.go:65-82 | the first save of a new role stores all of it exactly when no section, or every section, was marked before |
| `RoleRuns.ReplaceThenSave` | src/mainsvr/service/c2s_ssrpc.go:194-203 | after replacing the whole role, a save stores the new content exactly when no section was marked, or the unmarked sections did not change |
| `RoleRuns.LoadAfterSave` | src/mainsvr/role/persist_hash.go:65-149 | after a save of all sections, over whatever fields were stored before, the whole role loads as it was, absent sections included, exactly when no section is present with an empty encoding |
| `RoleRuns.SectionAfterSave` | src/mainsvr/role/persist_hash.go:65-149 | after an incremental save each saved section comes back as it was exactly when it is not present with an empty encoding, and the others come back as before |
| `RoleRuns.TouchedActivityArrives` | src/mainsvr/role/sync_state.go:194-197 | a change of the activity section outside its task table reaches the client exactly when it does not go out as a patch, or changed nothing |
| `RoleSync.FlushSyncs` | src/mainsvr/role/sync_state.go:393-425 | an offline or failed flush changes nothing; any other outcome leaves client equal to server with nothing marked |
| `RoleSync.FlushByInputs` | src/mainsvr/role/sync_state.go:393-425 | a flush by its inputs: a message is sent exactly when one is due, the role is online and the send succeeds; then, or with nothing due, an online flush leaves client equal to server and nothing marked; otherwise the client is as it was, and a message that was due leaves every mark and mask |
| `RoleSync.MessageSyncs` | src/mainsvr/role/sync_state.go:361-391 | the message of either mode brings the client to the content of the server |
| `RoleSync.IdleMeansSynced` | src/mainsvr/role/sync_state.go:413-416 | when every patch is empty and no section is pending as a whole, the client was up to date |
| `RoleSync.PatchSyncs` | src/mainsvr/role/sync_state.go:578-661 | applying the patch built from the marks gives the table of the server, whichever half is applied first |
| `RoleSync.MasksCover` | src/mainsvr/role/sync_state.go:361-391 | the masks a flush settles on are disjoint and together cover everything pending |
| `RoleSync.ClearSyncedEffect` | src/mainsvr/role/sync_state.go:427-458 | clearing forgets exactly the marks of the sections sent; the mask of all sections is no special case |
| `RoleSync.TableAfterMark` | src/mainsvr/role/sync_state.go:209-273 | a tracked change of an entry keeps the sync invariant whatever its earlier marks were |
| `RoleSync.FullSyncKeeps` | src/mainsvr/role/sync_state.go:154-167 | marking sections as a whole keeps the sync invariant |
| `RoleSync.TouchKeeps` | src/mainsvr/role/sync_state.go:169-192 | any change within a section that is then touched keeps the sync invariant |
| `LiveRole.Role.MarkFullSync` | src/mainsvr/role/sync_state.go:154-167 | updates both masks as the specification says |
| `LiveRole.Role.MarkPatchSection` | src/mainsvr/role/sync_state.go:199-207 | a section pending as a whole is not also pending as a patch |
| `LiveRole.Role.MarkPersistSectionDirty` | src/mainsvr/role/sync_state.go:285-290 | marks the section for the store and asks for a flush |
| `LiveRole.Role.MarkDirty` | src/mainsvr/role/sync_state.go:209-273 | moves the entry between the two mark sets and marks its section |
| `LiveRole.Role.TouchSection` | src/mainsvr/role/sync_state.go:169-192 | marks the section as a whole, for client and store |
| `LiveRole.Role.ClearSyncedState` | src/mainsvr/role/sync_state.go:427-458 | the marks and masks left after a send |
| `LiveRole.Role.PrepareSyncMasks` | src/mainsvr/role/sync_state.go:361-391 | the masks of either mode |
| `LiveRole.Role.FlushClientSync` | src/mainsvr/role/sync_state.go:393-425 | outcome and new state of a flush, for every mode, connection and result of the send |
| `LiveRole.BuildTablePatch` | src/mainsvr/role/sync_state.go:578-593 | the loop over the marks builds exactly the patch: current values of marked entries that exist, and the deletions |
| `LiveRole.Role.SaveRoleHash` | src/mainsvr/role/persist_hash.go:65-111 | the write loop, stopping at the first failing section, and the gift section, written last by a forced save only |
| `LiveRole.Role.SaveToDB` | src/mainsvr/role/role.go:156-168 | refuses another user and then changes nothing; a successful save clears the marks, a failed one keeps them |
| `LiveRole.Role.SaveToDBSync` | src/mainsvr/role/role.go:194-203 | writes every section and the gift section; only when all are written the marks and the wish to save are cleared |
| `LiveRole.Role.MaybeFlushPersist` | src/mainsvr/role/sync_state.go:312-331 | saves when asked to and due, and then no longer asks; for another user it changes nothing and fails exactly when a save was due |
| `LiveRole.Role.ItemReduce` | src/mainsvr/role/item.go:168-195 | takes exactly the count asked for, or nothing when there is too little; crashes exactly on a negative count of an item not held; the entry stays exactly when something is left; the change is marked exactly when it is tracked or leaves nothing, and when tracked keeps the sync invariant |
| `LiveRole.Role.ItemsReduce` | src/mainsvr/role/item.go:197-230 | all or nothing when counts are short; otherwise each id loses the sum the list asks for; fails exactly when the list asks for a negative amount of an item not held |
| `LiveRole.Role.ItemAggregate` | src/mainsvr/role/item.go:434-448 | counts of equal ids are added up, and no other id appears |
| `LiveRole.Role.ItemsCheckReduce` | src/mainsvr/role/item.go:146-165 | accepts exactly the lists of which every count is there |
| `LiveRole.Role.ItemRemove` | src/mainsvr/role/item.go:233-238 | removes the entry and marks the deletion whatever the reason |
| `LiveRole.Role.ItemDoAdd` | src/mainsvr/role/item.go:271-337 | result code by configuration, sign and limit; adds exactly the count, an icon, a frame, or only marks experience, by id and kind; marks exactly a tracked change, which keeps the sync invariant |
| `LiveRole.CountSetMoves` | src/mainsvr/role/item.go:143-195 | a change of one count moves no other and, when tracked, keeps the sync invariant |
| `LiveRole.CountSetNoted` | src/mainsvr/role/item.go:143-195 | what a change of a count marks: tracked, or leaving nothing, the basic section for a currency, else that entry of the inventory, as changed or as gone, for client and store; otherwise nothing; and it changes nothing outside the two tables |
| `LiveRole.AskedAddsUp` | src/mainsvr/role/item.go:434-448 | what a list asks for of an id is the sum over its entries with that id |
| `Framing.Connection.RunConnRead` | lib/net/tcp_server/tcp_server.go:193-224 | however the stream is cut into reads, the frames delivered are the complete frames of the whole stream up to the first invalid header; the connection is closed and OnClose called once |
| `Framing.Connection.OnRead` | lib/net/tcp_server/tcp_packet.go:32-54 | delivers the complete frames at the front of the buffer, consumes exactly them, and closes at an invalid header, consuming all |
| `Framing.SplitCuts` | lib/net/tcp_server/tcp_packet.go:32-54 | the split of a stream consists of whole frames followed by an incomplete frame or an invalid header |
| `Framing.CutsIsSplit` | lib/net/tcp_server/tcp_packet.go:32-54 | there is only one way to cut a stream like that |
| `Framing.SplitAppend` | lib/net/tcp_server/tcp_server.go:207-213 | parsing may stop after any prefix and resume with what was left in front of the rest |
| `Framing.InvalidIsFinal` | lib/net/tcp_server/tcp_packet.go:37-43 | nothing after an invalid header is delivered |
| `CSPacket.PacketsComeBack` | lib/api/sharedstruct/cs_packet.go:32-77 | the encodings of any list of valid packets, cut in any way, come back as exactly that list with nothing left over |
| `CSPacket.PacketRoundTrip` | lib/api/sharedstruct/cs_packet.go:32-77 | a valid packet is one frame, and decodes to itself |
| `CSPacket.DecodeEncode` | lib/api/sharedstruct/cs_packet.go:43-77 | every header survives being written and read back, whatever follows it |
| `CSPacket.EncodeDecode` | lib/api/sharedstruct/cs_packet.go:43-77 | any 28 bytes are the encoding of the header read from them |
| `CSPacket.EncodedFields` | lib/api/sharedstruct/cs_packet.go:61-77 | the bytes at which each field of the header lies |
| `CSPacket.BigEndianDigit` | lib/api/sharedstruct/cs_packet.go:43-77 | byte i of a number written in w bytes is its digit of weight 256 to the w - 1 - i |
| `CSPacket.BodyLengthMeaning` | lib/api/sharedstruct/cs_packet.go:32-41 | the length taken from the raw header is the decoded BodyLen, refused exactly when above 4194304 |
| `CSPacket.WriteHeader` | lib/api/sharedstruct/cs_packet.go:61-77 | writes the encoding into the first 28 bytes and nothing else |
| `CSPacket.ReadHeader` | lib/api/sharedstruct/cs_packet.go:43-59 | reads what the first 28 bytes encode |
| `LifecycleRun.App.Run` | lib/service/runtime/run.go:29-129 | for any components, hooks and signals, and observers that may refuse any transition: the log is in order, exactly the reached components start, exactly the started ones stop, the errors returned are exactly the failures that happened, and none are returned exactly when the final state is Stopped |
| `LifecycleRun.OrderMeans` | lib/service/runtime/run.go:142-371 | what the order of the log says: starts in registration order; every Quiesce before every Drain before every Stop, each in reverse; nothing twice |
| `LifecycleRun.FullLogOrdered` | lib/service/runtime/run.go:94-128 | the log of a run that serves is in order |
| `LifecycleRun.ShortLogOrdered` | lib/service/runtime/run.go:63-100 | the log of a run that is rolled back is in order |
| `LifecycleRun.App.StartComponents` | lib/service/runtime/run.go:145-176 | starts components in order up to the first failure |
| `LifecycleRun.App.DrainComponents` | lib/service/runtime/run.go:282-346 | quiesces all in reverse, then drains all in reverse, and reports exactly the failures that are not cancellations, and being cut short |
| `LifecycleRun.App.StopComponents` | lib/service/runtime/run.go:350-371 | stops the given components in reverse, none skipped for a failure of another |
| `LifecycleRun.App.GiveUp` | lib/service/runtime/run.go:71-100 | a failed start, an interrupt or a refusal stops exactly the started components in reverse and ends in Failed |
| `LifecycleRun.App.WindDown` | lib/service/runtime/run.go:104-128 | from Ready on: drain, stop, and Stopped exactly without any failure |
| `LifecycleRun.App.Register` | lib/service/runtime/app.go:197-220 | names stay non-empty and distinct; nothing is added after Run has begun |
| `LifecycleState.NeverReadyAgain` | lib/service/runtime/state.go:169-219 | for any interleaving of Run, Allocate and observers that may refuse any transition: after Draining never ready again, terminal states are final, Run returns no error exactly in Stopped, readiness is reported exactly while Run serves, and ill health exactly from its stopping on |
| `LifecycleState.StepKeepsInv` | lib/service/runtime/state.go:169-219 | every step commits a legal move or none; a refused Ready or Allocated changes nothing |
| `LifecycleState.PathIsOneWay` | lib/service/runtime/state.go:41-59 | in any path of the legal graph no state recurs, terminal states are last, and neither readiness nor health comes back |
| `LifecycleState.EnteredFrom` | lib/service/runtime/state.go:41-59 | from where each state can be entered, target by target |
| `LifecycleState.StateStore.Transition` | lib/service/runtime/state.go:169-219 | commits exactly the legal moves to Draining, Stopping, Stopped and Failed, whatever the observers say, and the legal moves to Ready and Allocated they all agree to; observers after the first refusal are not asked |
| `LifecycleState.StateStore.Allocate` | lib/service/runtime/app.go:276-290 | allocates exactly a ready application whose observers agree, and never changes readiness |
| `Admission.SlotsExact` | lib/net/net_mgr/admission.go:168-220 | at every point of every run: reservedConns is the number of connections admitted and not yet released, within the limit; no release finds zero; all slots come back |
| `Admission.GateStepKeeps` | lib/net/net_mgr/tcp_impl.go:52-93 | every atomic step of OnConn, OnClose and the lease keeps the slot count, the lease set and the connection count exact |
| `Admission.RefusedWhenFull` | lib/net/net_mgr/conn_lease.go:25-42 | a connection is refused for the limit only while every slot is held; a repeated OnClose, or one of a refused connection, changes nothing |
| `Admission.InflightExact` | lib/net/net_mgr/admission.go:276-345 | at every point of every run the global and the per-method counters are exact and within their limits, also across roll-backs; no release finds zero; all come back to zero |
| `Admission.FlightStepKeeps` | lib/net/net_mgr/admission.go:276-345 | every atomic step of acquiring, rolling back and releasing keeps both kinds of counter exact |
| `AdmissionAlone.OpensExactly` | lib/net/net_mgr/tcp_impl.go:52-70 | the steps of OnConn, undisturbed from any reachable state: the connection opens exactly when a slot is left, and then holds a slot and a lease and is counted; a refused one changes no count |
| `AdmissionAlone.ClosesExactly` | lib/net/net_mgr/tcp_impl.go:80-93 | the steps of OnClose, undisturbed: an open connection gives back its slot, its lease and its count |
| `AdmissionAlone.ServesExactly` | lib/net/net_mgr/admission.go:276-317 | the steps of TryAcquireInflight, undisturbed from any reachable state: the handler runs exactly when there is room under both limits, counted once under each; a refusal leaves both counts as they were |
| `AdmissionControl.ConnTcpSvr.OnConn` | lib/net/net_mgr/tcp_impl.go:52-70 | undisturbed, admits a connection exactly when the gate is open and a slot is left; slots, lease and connection count agree |
| `AdmissionControl.ConnTcpSvr.OnClose` | lib/net/net_mgr/tcp_impl.go:80-90 | undisturbed, gives back exactly what an admitted connection holds |
| `AdmissionControl.ConnLease.TakeIfAdmitted` | lib/net/net_mgr/conn_lease.go:34-42 | true exactly for a connection marked and not yet taken |
| `AdmissionControl.ConnLease.MarkAdmitted` | lib/net/net_mgr/conn_lease.go:26-30 | adds the connection and no other |
| `AdmissionControl.AdmissionController.TryAcquireConnection` | lib/net/net_mgr/admission.go:168-203 | takes a slot exactly when the gate is open and one is left |
| `AdmissionControl.AdmissionController.ReleaseConnection` | lib/net/net_mgr/admission.go:206-220 | gives a slot back, never below zero |
| `AdmissionControl.AdmissionController.TryAcquireInflight` | lib/net/net_mgr/admission.go:276-317 | succeeds exactly within both limits; a refusal leaves every count as it was |
| `AdmissionControl.AdmissionController.ReleaseInflight` | lib/net/net_mgr/admission.go:320-345 | lowers the count of the method and the global one, neither below zero |
| `AdmissionControl.AdmissionController.Around` | lib/service/ssrpc/admission_mw.go:64-88 | whatever the limits, acquiring and releasing around a handler leaves every count as it was |
| `SessionHub.SessionsExact` | lib/net/net_mgr/session_hub.go:131-249 | at every point of every run the three maps agree, the session count is the number of bound uids, it is zero once all connections are closed, and nothing is bound after Quiesce |
| `SessionHub.ServedByLastBind` | lib/net/net_mgr/session_hub.go:131-249 | at every point of every run a uid is served by the zone, connection and address of its last accepted bind, until that connection is removed |
| `SessionHub.BindKeeps` | lib/net/net_mgr/session_hub.go:131-171 | a bind is refused exactly for an unusable address or a closing hub and then changes nothing; otherwise it returns the new client with its uid, zone, connection and address and the one it replaces, and keeps the maps consistent exactly when the connection serves no other uid and shares its address with no other connection |
| `SessionHub.RemoveKeeps` | lib/net/net_mgr/session_hub.go:224-249 | a removal keeps the maps consistent |
| `SessionHub.LateClose` | lib/net/net_mgr/session_hub.go:224-249 | the late close of a replaced connection changes no binding, no count and no kick mark; closing the current one ends exactly its session |
| `SessionHub.KickReport` | lib/net/net_mgr/session_hub.go:210-249 | over any run, the close of a current connection is reported as kicked exactly when it was kicked since it was bound or was bound on an address with a left-over mark; the report is right exactly when it was kicked or found no mark |
| `SessionHub.MarkOfKnown` | lib/net/net_mgr/session_hub.go:131-249 | the mark on the address of a known connection is there exactly for one of these two reasons |
| `SessionHub.FalseKick` | lib/net/net_mgr/session_hub.go:210-249 | a run in which a connection that was never kicked is reported as kicked |
| `SessionHub.Rebind` | lib/net/net_mgr/session_hub.go:153-170 | rebinding a uid replaces its connection without a new session and makes the close of the old one harmless |
| `SessionHub.SessionHub.BindClient` | lib/net/net_mgr/session_hub.go:131-171 | maps, count and result of a bind |
| `SessionHub.SessionHub.RemoveConn` | lib/net/net_mgr/session_hub.go:224-249 | maps, count and result of a removal |
| `SessionHub.SessionHub.MarkKick` | lib/net/net_mgr/session_hub.go:210-214 | marks the address |
| `SessionHub.SessionHub.Quiesce` | lib/net/net_mgr/session_hub.go:103-107 | no bind is accepted afterwards |
| `LruCache.HitIff` | lib/util/lru/lru_cache.go:46-160 | after any run of Set, Get, Peek and Remove a key is held exactly when it was set, not removed since, and never had capacity distinct other keys touched after it; the keys in front of it are those touched since |
| `LruCache.HitIffTouched` | lib/util/lru/lru_cache.go:46-135 | without Remove: a key is held exactly when it was touched and fewer than capacity distinct other keys were touched since |
| `LruCache.HitReturnsLastSet` | lib/util/lru/lru_cache.go:46-160 | what a hit returns is the value last set |
| `LruCache.CacheIsRecentPrefix` | lib/util/lru/lru_cache.go:46-112 | without Remove, the cache is the first capacity keys of the recency order of all touches |
| `LruCache.OpsKeepSound` | lib/util/lru/lru_cache.go:46-160 | every operation keeps the listed keys distinct, within the capacity and equal to the indexed keys |
| `LruCache.LRUCache.Set` | lib/util/lru/lru_cache.go:46-87 | updates in place or inserts at the front and evicts from the back |
| `LruCache.LRUCache.Get` | lib/util/lru/lru_cache.go:91-112 | finds exactly the keys held and moves the key to the front |
| `LruCache.LRUCache.Peek` | lib/util/lru/lru_cache.go:116-135 | finds the same without changing the order |
| `LruCache.LRUCache.Remove` | lib/util/lru/lru_cache.go:138-160 | removes exactly the key, and says whether it was there |
| `LruCache.LRUCache.constructor` | lib/util/lru/lru_cache.go:24-33 | a capacity that is not positive becomes one |
| `ConsistentHash.AddingMovesToNew` | lib/service/svrinstmgr/consistent_hash.go:65-98 | without collisions, adding a node, be it the first, moves keys only to that node |
| `ConsistentHash.RemovingMovesOwn` | lib/service/svrinstmgr/consistent_hash.go:65-98 | without collisions, removing a node, be it the last, moves only the keys it served |
| `ConsistentHash.RoutesAgree` | lib/service/svrinstmgr/consistent_hash.go:84-98 | without collisions, a key is routed to one node only |
| `ConsistentHash.PointsPerNode` | lib/service/svrinstmgr/consistent_hash.go:65-82 | each node has as many points as it has virtual nodes, unless two of its own collide |
| `ConsistentHash.Ring.Get` | lib/service/svrinstmgr/consistent_hash.go:84-98 | the node of the least hash not below that of the key, wrapping to the first; 0 for an empty ring |
| `ConsistentHash.LookupRoutes` | lib/service/svrinstmgr/consistent_hash.go:84-98 | looking a hash up in the sorted points is choosing the least hash not below it among the set of points |
| `ConsistentHash.Ring.Search` | lib/service/svrinstmgr/consistent_hash.go:100-111 | the binary search finds the boundary between the hashes below and the others |
| `ConsistentHash.Ring.ResetSorted` | lib/service/svrinstmgr/consistent_hash.go:65-82 | the ring is a function of the list of nodes, sorted, and holds exactly their points |
| `ConsistentHash.Ring.Reset` | lib/service/svrinstmgr/consistent_hash.go:54-63 | the ring is that of the ascending list of the nodes, so it depends on their set only, collisions or not |
| `ConsistentHash.SameNodesSameRing` | lib/service/svrinstmgr/consistent_hash.go:54-82 | two ascending lists of the same nodes give the same ring |
| `ConsistentHash.Deduplicate` | lib/service/svrinstmgr/svr_inst_mgr.go:386-399 | a sorted list without repetitions and with the same elements |
| `ConsistentHash.TablesDependOnSet` | lib/service/svrinstmgr/svr_inst_mgr.go:264-284 | the routing tables depend only on the set of instances, not on discovery order or repetitions |
| `ConsistentHash.AscendingUnique` | lib/service/svrinstmgr/svr_inst_mgr.go:276-281 | an ascending list is determined by its elements |
| `ConsistentHash.ServerTable.RefreshServices` | lib/service/svrinstmgr/svr_inst_mgr.go:244-300 | each type gets its instances in ascending order, once each, and a ring over them exactly when its rule asks for one |
| `ConsistentHash.ServerTable.GetByHash` | lib/service/svrinstmgr/svr_inst_mgr.go:361-371 | an instance of the type by remainder, or 0 |
| `ConsistentHash.ServerTable.GetMaster` | lib/service/svrinstmgr/svr_inst_mgr.go:374-384 | the least instance of the type, or 0 |
| `ConsistentHash.ServerTable.GetByConsistentHash` | lib/service/svrinstmgr/svr_inst_mgr.go:344-358 | the same route whether the ring is cached or built for the call, collisions or not |
| `WeightedPick.PicksByWeight` | module/drop/mymath.go:6-21 | of the draws below the total exactly as many pick each index as its weight says, exactly when no weight is negative |
| `WeightedPick.PicksOnce` | module/drop/mymath.go:6-21 | a draw picks one index only |
| `WeightedPick.Select` | module/drop/mymath.go:6-21 | for any weights, returns the first index its draw reaches counting down, and one of positive weight; panics exactly when the total is not positive |
| `WeightedPick.SelectN` | module/drop/mymath.go:26-41 | distinct indices of positive weight, each picked by its draw from the weights left; panics only when the picks made leave no positive total, which without negative weights is exactly when more are wanted than weights are positive |
| `WeightedPick.AllPositiveSuffices` | module/drop/mymath.go:26-41 | with all weights positive the choice never fails |
| `WeightedPick.LandsByWeight` | src/mainsvr/role/drop_group.go:326-349 | of the draws below the total, exactly as many land on a key as its weight says |
| `WeightedPick.PickKey` | src/mainsvr/role/drop_group.go:326-349 | no key exactly when no weight is positive; otherwise the key its draw lands on |
| `DropGroup.GroupDerived` | src/mainsvr/role/drop_group.go:124-253 | however groups refer to each other, no group is expanded inside itself, nesting stays within the limit, and every pack hit counts at least once |
| `DropDerivation.GroupLists` | src/mainsvr/role/drop_group.go:124-253 | the draws of a group are the ends of its derivations, each of them once: chains of enabled rows, turns and chosen keys through groups not yet visited and not nested too deep, ending in a key of a leaf or one that names no group |
| `DropDerivation.HitExactly` | src/mainsvr/role/drop_group.go:124-253 | a pack is hit exactly when there is a derivation of it |
| `DropDerivation.AmountExactly` | src/mainsvr/role/drop_group.go:173-196 | how often a pack is hit in all is the sum, over all its derivations, of the products of the factors of their rows |
| `DropGroup.HitsByRate` | src/mainsvr/role/drop_group.go:307-315 | of ten thousand draws exactly as many hit as the rate says, none when it is negative and all when it is above |
| `DropGroup.GroupCertain` | src/mainsvr/role/drop_group.go:124-253 | a configuration without random rows always expands in the same way |
| `DropGroup.MultiplyingIsRepeating` | src/mainsvr/role/drop_group.go:173-196 | choosing once and multiplying gives the same packs in all as choosing that many times, when nothing is left to chance |

## Left out

- Timer.TimeWheel.constructor: fewer than two slots per layer, where a task fires on the tick that reaches its expiration instead of the next; the options that reject such values are not modelled either.
- Timer.TimeWheel.Advance: a delta other than one tick. The comment on `advance` allows several ticks and the code would move one slot whatever the delta, but the channel such a delta would come through is never written.
- Timer.TimeWheel.Schedule: two waiting tasks with one key, for which the index keeps the later one only; the comment on AddTimer leaves it to callers to keep keys unique.
- Time wheel: overflow of 64-bit nanoseconds, the scheduling goroutine and its channels, asynchronous jobs, panic recovery, and AddTimer reading elapsed without synchronisation; the expiration is an input.
- Asynchronous queue: starting again after Stop, which error a refused push returns, reuse of node addresses, running the tasks. The worker loop is a state machine only.
- TransactionMgr.IdsDistinctAndRouted: assumes that no 32-bit transaction id has wrapped around.
- TransactionKeys.ArrivesExactly: the mode in which serial keys are switched off by configuration, where requests never exclude each other and go to the shards in turn.
- Transaction manager: what a transaction does with a response, channel capacities and timeouts, the round-robin counter itself, the closing flag, and the size of the channels.
- RoleRuns.StepPersists: leaves out changes that mark nothing, such as the last heartbeat time, the mall entry a purchase check creates, and changes with the initial reason; they are stored and sent only with a later change of their section.
- LiveRole.Role.SaveToDBSync: failures to marshal, and connection data, which is never stored; in `RoleRuns` a save has no gift section.
- RoleRuns.LoadAfterSave: errors of decoding, the gift field, and the older format of one value per role.
- LiveRole.Role.ItemDoAdd: items used on arrival, drop items, and configuration look-ups, which are parameters.
- Role sections: the numeric values of the section flags are defined in a module that is not part of this model, so a mask is a set of the twelve sections and the flag of all sections is the set of all twelve; entry values are numbers; the lists in a patch have no order.
- Role synchronisation: timestamps, reasons and the debounce arithmetic are one flag; items, drops and purchases beyond the operations above.
- Framing: a header length of zero, for which the loop of the code does not end, read deadlines, write queues, and the KCP and gnet variants of the same loop.
- LifecycleRun.App.Run: reload signals, which only return to serving, durations, metrics and log output; a transition during Run that is made by Allocate is in `LifecycleState`.
- Lifecycle: cancellation is one kind of answer, so wrapped and joined errors are not modelled.
- Admission: shadow and off modes, where slots are not counted, token-bucket rates, limits on unauthenticated connections, and the deprecated counters. The compare-and-swap loops are steps of a state machine in `Admission`; in `AdmissionControl`, where nothing interferes, they succeed at once.
- SessionHub.SessionsExact: assumes that a connection serves one uid and addresses are distinct; `SessionHub.BindKeeps` says exactly what happens otherwise. Counting is part of the locked step.
- LRU cache: nil receivers and foreign list values.
- ConsistentHash.AddingMovesToNew: assumes that point hashes do not collide.
- ConsistentHash.Ring.ResetSorted: equal hashes are ordered by one fixed sort; the sort of the code may order them differently, but also by the list of points alone.
- ConsistentHash.ServerTable.RefreshServices: parsing of bus ids, registry watches, logging, and random routing.
- Drop groups: rows are given in ascending order of their subid, multiplicities do not overflow, and the items inside a pack are left out.
- Sockets, WebSocket upgrade, HTTP and gRPC servers, Redis, MySQL, message queues, registries, configuration, metrics, tracing, the code generator and the game logic beyond the files named above.
