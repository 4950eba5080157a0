# Verified models of flowline's core

Flowline runs workflows: a cron controller starts jobs, a DAG controller splits each job into stages, a
scheduler binds ready stages to workers, workers execute them, and stage and job controllers release
dependants, propagate failures and close the job. Everything hangs on informers, work queues and an event
broadcaster. This project models the parts whose correctness only shows over whole runs and proves it in
Dafny 4.11: `dafny verify dfyconfig.toml` checks all of it.

Where the source updates objects in place the model does too: classes and loops, each method proved to
compute a function of the old state; what each function does to stages, workers, keys and flags is stated
again in plain terms (`CacheEffects`, `SchedulingPlaces`, `InformerQueue`), and the properties are proved of
those functions, over every run.
Each public method that holds a lock is one step. A Go map is ranged over in any order: the order is a
parameter. Clocks, `Next` of a cron schedule, key, index and comparison functions are parameters; of the DAG
library only what AddEdge refuses and what DescendantsFlow visits is used.

| files | component |
|---|---|
| `CacheSpec`, `CacheEffects`, `SnapshotSpec`, `Cache`, `CacheSnapshot`, `WorkerTree` | scheduler cache, its generation-ordered list, zone tree and incremental snapshot |
| `SchedulingQueueSpec`, `SchedulingPlaces`, `SchedulingRuns`, `SchedulingQueue`, `KeyedHeap` | scheduling queue with backoff and move requests; keyed heap |
| `InformerSpec`, `InformerQueue`, `Informer`, `IndexedStore`, `Listener` | DeltaFIFO, processDeltas, indexed store, listener relay |
| `WorkflowSpec`, `WorkflowRuns`, `Workflow`, `Graphs` | splitting, releasing, failing and completing a DAG of stages |
| `WorkQueue`, `DelayingQueue`, `Broadcaster` | work queue with parked callers, delayed adds, event fan-out |
| `Cron` | schedule arithmetic and the trigger part of a sync |
| `Common` | options, enumerations |

## Where the code falls short

Where a promise fails, one lemma shows it on a concrete input and another says exactly when it holds.

- The snapshot deletes by looking up a worker's Name in a map keyed by UID. Workers register as
  "worker-"+UID, so after a removal the refresh may throw out a live worker
  (`RegisteredWorkersLoseAnEntry`, `RefreshIsFullRebuildIff`); a fleet named by UID is always served
  rightly (`NamedFleetIsAlwaysRight`).
- The scheduler re-adds a failed stage with the current cycle number instead of the one of its own Pop, and
  so can miss a move request (`CurrentNumberLosesAMove`, `CurrentNumberIsOwnIff`).
- `Update` without an old stage puts a stage that is backing off into two queues
  (`UpdateWithoutOldBreaksDisjointness`, `UpdateKeepsIff`). The one caller in the repository
  (pkg/scheduler/eventhandlers.go:105) always passes one.
- The backoff cap is not applied to the first attempt (`FirstAttemptIsNotCapped`, `BackoffNeverShrinksIff`).
- `Done` signals one waiter, so of two drainers one may sleep for ever (`TwoDrainersLoseAWakeup`,
  `DrainersWokenIff`).
- The most recent schedule time assumes a constant period; for an irregular schedule a job can start at a
  time that is not scheduled, and the requeue delay can be negative (`SkippedTimeIsChosen`,
  `LatestAlwaysIffConstant`, `UnevenRequeuesAtOnce`, `RequeueIsLaterIff`).
- A relist leaves what deletion detection does not look at (`PendingAddOutlivesRelist`, `ReplaceIsListIff`),
  and without known objects a deletion can be lost (`DeletionOfPoppedIsLost`, `DeleteView`).

One promise holds for a reason that is easy to lose:

- The test that releases a stage passes over a dependency that has no stage; it is AddEdge's refusal of an
  unknown id that keeps half-split jobs safe (`PassKeeps`).

## Model

| member | source | states |
|---|---|---|
| `SnapshotSpec.AnyRunThenRefresh` | pkg/scheduler/cache/cache.go:414-508 | after any run of cache operations and refreshes the cache is sound; and if each refresh of the run met a reliable state (nothing stale, or every name it may meet is the UID of a live worker exactly when it is the name of one), the next UpdateSnapshot returns no error and equals a full rebuild, whatever order the maps are ranged over, if and only if its state is reliable too |
| `SnapshotSpec.NamedFleetIsAlwaysRight` | pkg/scheduler/cache/cache.go:414-508 | in every run whose added and updated workers bear their UID as Name, with nothing asked of the states passed through, every UpdateSnapshot returns no error and leaves the full rebuild |
| `SnapshotSpec.StepNamed` | pkg/scheduler/cache/cache.go:309-367 | no operation gives an entry another worker than the one passed to AddWorker or UpdateWorker, so such a fleet stays named by UID |
| `SnapshotSpec.RefreshIsFullRebuild` | pkg/scheduler/cache/cache.go:414-476 | in a reliable state (see `RefreshIsFullRebuildIff` for why that is needed) a snapshot last refreshed at any earlier point becomes exactly the full rebuild (live workers with current worker, stages and generation; each once in the list), without error, and is again good for later refreshes; this is what makes the early exit and the count-based deletion sound |
| `SnapshotSpec.RefreshIsFullRebuildIff` | pkg/scheduler/cache/cache.go:478-508 | for every range order right, if and only if no entry is stale or the UID-keyed lookup of names answers rightly |
| `SnapshotSpec.RegisteredWorkersLoseAnEntry` | pkg/worker/controller.go:109-124 | workers register with Name "worker-"+UID: a run of two adds, a refresh and a removal after which the next refresh deletes the live worker, keeps the dead one and reports an error |
| `SnapshotSpec.NamedByUidIsReliable` | pkg/scheduler/cache/cache.go:484-488 | where Name equals UID every refresh is right |
| `SnapshotSpec.RunKeeps` | pkg/scheduler/cache/cache.go:141-508 | every run of operations and refreshes keeps the cache sound, and if each refresh met a reliable state keeps the snapshot one that was right at some earlier point |
| `SnapshotSpec.StepLater` | pkg/scheduler/framework/types.go:122-208 | whatever an operation changes bears a generation newer than any snapshot taken before |
| `SnapshotSpec.WalkUpdates` | pkg/scheduler/cache/cache.go:427-443 | the walk that stops at the first entry not newer than the snapshot still brings every live worker up to date, because the list is in generation order |
| `SnapshotSpec.DeletesExactly` | pkg/scheduler/cache/cache.go:478-489 | counting down the surplus deletes exactly the stale entries when lookups are right |
| `SnapshotSpec.DeletionGoesWrong` | pkg/scheduler/cache/cache.go:478-489 | when a lookup is wrong for some name there is an order in which the result is wrong |
| `SnapshotSpec.RebuildAll` | pkg/scheduler/cache/cache.go:491-508 | rebuilding the list from the tree lists exactly the tree's names that have an entry, each once, in the tree's order when all have one |
| `SnapshotSpec.SecondRefreshDoesNothing` | pkg/scheduler/cache/cache.go:443-450 | a refresh notes the newest generation there is, so that one right after it walks nowhere and changes nothing |
| `CacheSpec.StepKeeps` | pkg/scheduler/cache/cache.go:75-367 | each of the nine operations keeps the list a permutation of the entries in strictly decreasing generation, assumed keys a subset of the cached ones, each stage once and in exactly its own worker's list, and the tree exactly the live names; the fatal branches change nothing |
| `CacheSpec.StageCountIsStates` | pkg/scheduler/cache/cache.go:64-73 | the stages summed over all workers are exactly as many as the cached stages |
| `CacheEffects.AssumeEffect` | pkg/scheduler/cache/cache.go:75-89 | exactly a keyed, uncached stage is assumed: it is cached, marked, and last on the list of its worker; no other list, worker or name changes |
| `CacheEffects.FinishEffect` | pkg/scheduler/cache/cache.go:95-117 | exactly a cached, assumed stage is marked as bound; no stage, list, flag or worker else changes |
| `CacheEffects.ForgetEffect` | pkg/scheduler/cache/cache.go:119-139 | Ok exactly for an assumed stage on the worker it was assumed on, which then leaves cache, flags and the list; an error changes nothing |
| `CacheEffects.AddEffect` | pkg/scheduler/cache/cache.go:141-174 | Ok exactly for a keyed stage that is unknown or assumed; it is then cached and not assumed: a confirmation leaves the lists, a change of worker moves it, a new stage joins the end of its list |
| `CacheEffects.UpdateEffect` | pkg/scheduler/cache/cache.go:176-205 | Ok exactly for an added stage on its own worker, whose cached copy and list entry are replaced; a change of worker is fatal, the rest an error, and both change nothing |
| `CacheEffects.RemoveStageEffect` | pkg/scheduler/cache/cache.go:229-252 | a cached stage leaves cache, flags and the list of the worker cached, unless the caller names another worker, which is fatal |
| `CacheEffects.SetWorkerEffect` | pkg/scheduler/cache/cache.go:309-340 | the worker is set and its entry first, every list stays, the tree and the owners have its name |
| `CacheEffects.RemoveWorkerEffect` | pkg/scheduler/cache/cache.go:348-367 | the worker is gone and every list stays; the entry goes exactly if it had no stages; the name leaves the tree, or it is an error |
| `CacheEffects.AssumeThenForget` | pkg/scheduler/cache/cache.go:119-139 | forgetting an assumed stage succeeds and restores cache, flags and lists |
| `CacheEffects.AssumeThenAdd` | pkg/scheduler/cache/cache.go:147-162 | adding an assumed stage confirms it: cached, not assumed, lists as they were |
| `CacheSpec.InsertKeeps` | pkg/scheduler/cache/cache.go:207-227 | caching a stage keeps the invariant |
| `CacheSpec.RemoveKeeps` | pkg/scheduler/cache/cache.go:254-277 | uncaching a stage, with the entry dropped when it was the last thing there, keeps the invariant |
| `CacheSpec.RestateKeeps` | pkg/scheduler/cache/cache.go:95-117 | rewriting one cached state in place keeps the invariant |
| `CacheSpec.AddStageKeeps` | pkg/scheduler/cache/cache.go:141-174 | AddStage keeps the invariant in each case: confirmed, moved to another worker, expired or new, already added |
| `CacheSpec.SetWorkerKeeps` | pkg/scheduler/cache/cache.go:309-340 | AddWorker and UpdateWorker keep the invariant |
| `CacheSpec.RemoveWorkerKeeps` | pkg/scheduler/cache/cache.go:348-367 | RemoveWorker keeps the invariant, the entry staying while it has stages |
| `CacheSpec.TouchOrdered` | pkg/scheduler/cache/cache.go:389-412 | moving an entry with a fresh generation to the head keeps the list ordered and complete |
| `CacheSpec.DropOrdered` | pkg/scheduler/cache/cache.go:369-387 | taking an entry out of list and map keeps the list ordered and complete |
| `CacheSpec.RemoveAtKeeps` | pkg/scheduler/framework/types.go:178-208 | overwriting the removed stage with the last one keeps the others, each once |
| `Cache.Unlink` | pkg/scheduler/cache/cache.go:369-387 | unlinking a node joins its neighbours: the chain of prev/next pointers is the old one without it |
| `Cache.PushFront` | pkg/scheduler/cache/cache.go:403-411 | linking a node in front: the chain is the node and then the old one |
| `Cache.ToFront` | pkg/scheduler/cache/cache.go:389-412 | the pointer updates put the node first and leave the order of the others |
| `Cache.Out` | pkg/scheduler/cache/cache.go:369-387 | the pointer updates take the node out and give the new head |
| `Cache.SchedulerCache.MoveWorkerInfoToHead` | pkg/scheduler/cache/cache.go:389-412 | prev/next stay inverse over a chain without repetition that holds each entry once; the order is the old one with this entry first |
| `Cache.SchedulerCache.RemoveWorkerInfoFromList` | pkg/scheduler/cache/cache.go:369-387 | entry and node are gone, everything else is as it was |
| `Cache.SchedulerCache.InsertStage` | pkg/scheduler/cache/cache.go:207-227 | the pointer and map updates make the stage the last on its worker's list, cache it, and put the worker, made if missing, at the head with a fresh generation: the insertion of which `InsertKeeps` proves the invariant |
| `Cache.SchedulerCache.DeleteStage` | pkg/scheduler/cache/cache.go:254-277 | the stage leaves its list, cache and assumed set, the worker goes to the head or, if it was only a shell, out of list and map; an error changes nothing |
| `Cache.SchedulerCache.AssumeStage` | pkg/scheduler/cache/cache.go:75-89 | result and cache are those of which `CacheEffects.AssumeEffect` says what becomes of stage, flag and list; valid afterwards |
| `Cache.SchedulerCache.FinishBinding` | pkg/scheduler/cache/cache.go:95-117 | marks a cached assumed stage as bound and changes nothing in any other case |
| `Cache.SchedulerCache.ForgetStage` | pkg/scheduler/cache/cache.go:119-139 | only an assumed stage on the worker named is forgotten; every other call is an error that changes nothing |
| `Cache.SchedulerCache.AddStage` | pkg/scheduler/cache/cache.go:141-174 | an assumed stage is confirmed, or moved if it came up on another worker; an unknown one is cached; one already added is an error |
| `Cache.SchedulerCache.UpdateStage` | pkg/scheduler/cache/cache.go:176-205 | an added stage is replaced on its worker; an assumed or unknown one is an error; a change of worker is fatal before anything changes; pointers stay sound for any old stage, and so does the whole cache if it names the worker cached |
| `Cache.SchedulerCache.RemoveStage` | pkg/scheduler/cache/cache.go:229-252 | the stage as cached, not as passed, is removed; a different nonempty worker is fatal before anything changes |
| `Cache.SchedulerCache.StageCount` | pkg/scheduler/cache/cache.go:64-73 | the loop returns the number of cached stages |
| `Cache.SchedulerCache.AddWorker` | pkg/scheduler/cache/cache.go:309-323 | the worker's entry, made if missing and keeping its stages, goes to the head with a fresh generation, and the tree gains its name |
| `Cache.SchedulerCache.UpdateWorker` | pkg/scheduler/cache/cache.go:325-340 | the same, with the name moved to the new zone |
| `Cache.SchedulerCache.RemoveWorker` | pkg/scheduler/cache/cache.go:348-367 | an entry with stages stays without its worker, at the head; an empty one leaves list and map; the tree loses the name; unknown workers are an error; pointers stay sound for any worker, and so does the whole cache if it is the one added |
| `Cache.SchedulerCache.TreeReady` | pkg/scheduler/cache/cache.go:309-340 | the callers' obligations give what AddWorker and UpdateWorker ask of the zone tree |
| `CacheSnapshot.UpdateSnapshot` | pkg/scheduler/cache/cache.go:414-476 | the linked-list walk over real pointers and the overwritten entries give exactly the specified refresh and its error |
| `CacheSnapshot.Walk` | pkg/scheduler/cache/cache.go:427-443 | the walk along next pointers stores what the specified walk stores, in place, and reports whether a name was new |
| `CacheSnapshot.Snapshot.Store` | pkg/scheduler/cache/cache.go:432-442 | an entry is overwritten in place so that list and map go on sharing it |
| `CacheSnapshot.Snapshot.RemoveDeleted` | pkg/scheduler/cache/cache.go:478-489 | the loop deletes, in the order met, entries whose name is no live worker's UID until the surplus is used up |
| `CacheSnapshot.Snapshot.RebuildList` | pkg/scheduler/cache/cache.go:491-508 | the list is the entries of the names that the tree lists |
| `WorkerTree.Tree.AddWorker` | pkg/scheduler/cache/worker_tree.go:32-48 | the tree then holds the name in its zone, zones exactly the nonempty ones, the count exact |
| `WorkerTree.Tree.RemoveWorker` | pkg/scheduler/cache/worker_tree.go:51-68 | the name is gone, an emptied zone with it; an error exactly when it was not there |
| `WorkerTree.Tree.RemoveZone` | pkg/scheduler/cache/worker_tree.go:72-80 | the zone leaves tree and zone list |
| `WorkerTree.Tree.UpdateWorker` | pkg/scheduler/cache/worker_tree.go:83-96 | the name ends up in the zone of the new worker and in no other; with the zone unchanged nothing happens, even if the name is missing |
| `WorkerTree.Tree.List` | pkg/scheduler/cache/worker_tree.go:100-124 | the zone round robin terminates without error and gives every name exactly once: earlier places of the zones first, and within a place the earlier zones |
| `WorkerTree.Tree.AllZonesExhausted` | pkg/scheduler/cache/worker_tree.go:106-122 | when all zones are counted as exhausted, as many names as there are workers have been listed, so the error of list is never reached |
| `WorkerTree.ZoneKeysTell` | pkg/scheduler/cache/worker_tree.go:131-148 | two workers are in one zone exactly when region and zone agree, absent null characters |
| `KeyedHeap.Heap.Add` | pkg/scheduler/heap/heap.go:113-125 | heap order and the exact bijection of items, queue and indexes are kept; the contents gain or replace the object under its key; key errors change nothing |
| `KeyedHeap.Heap.Delete` | pkg/scheduler/heap/heap.go:134-144 | the contents lose exactly that key; not found and key errors change nothing |
| `KeyedHeap.Heap.Pop` | pkg/scheduler/heap/heap.go:152-158 | the object returned was in the heap, no other was less, and it alone is gone |
| `KeyedHeap.Heap.Peek` | pkg/scheduler/heap/heap.go:96-101 | the least object, or nothing exactly when empty |
| `KeyedHeap.Heap.Get` | pkg/scheduler/heap/heap.go:161-167 | the object under the key, not found, or a key error |
| `KeyedHeap.Heap.Swap` | pkg/scheduler/heap/heap.go:66-72 | two positions exchanged, indexes still exact, contents unchanged |
| `KeyedHeap.Heap.Up` | pkg/scheduler/heap/heap.go:117-123 | sift-up repairs a heap that is wrong only above one position |
| `KeyedHeap.Heap.Down` | pkg/scheduler/heap/heap.go:134-144 | sift-down repairs below one position, or reports that nothing moved |
| `KeyedHeap.Heap.Fix` | pkg/scheduler/heap/heap.go:113-125 | a changed object is put back in its place |
| `HeapOrder.SwapUp` | pkg/scheduler/heap/heap.go:46-72 | exchanging with the parent moves the one wrong place up |
| `HeapOrder.SwapDown` | pkg/scheduler/heap/heap.go:46-72 | exchanging with the lesser child moves the one wrong place down |
| `HeapOrder.RootIsLeast` | pkg/scheduler/heap/heap.go:96-101 | under any strict weak order nothing in a heap is less than its root |
| `SchedulingRuns.ReachableSound` | pkg/scheduler/queue/scheduling_queue.go:212-620 | in every reachable state the three collections are pairwise disjoint, moveRequestCycle has reached an attempt's cycle exactly when a move request ran after its Pop, and a stage resting in unschedulableStages has seen since its Pop only move requests that met it there and skipped it |
| `SchedulingRuns.ReaddedToBackoffIffMoved` | pkg/scheduler/queue/scheduling_queue.go:284-315 | a failed stage re-added with its own Pop's number goes to backoff if and only if a move request ran after that Pop |
| `SchedulingRuns.CurrentNumberIsOwnIff` | pkg/scheduler/scheduler.go:448-458 | the number in fact passed is the current one: it sends the stage where its own would exactly when the request it must not miss did not fall between its Pop and the latest |
| `SchedulingRuns.CurrentNumberLosesAMove` | pkg/scheduler/scheduler.go:448-458 | a run in which the stage comes to rest in unschedulableStages although a move request ran after its Pop |
| `SchedulingRuns.QueueStepKeeps` | pkg/scheduler/queue/scheduling_queue.go:212-489 | what each operation does to the union: Add, re-add and Update add one stage, Pop and Delete remove one, activation, moves and flushes conserve it; all keep the collections disjoint |
| `SchedulingRuns.StepKeepsSound` | pkg/scheduler/queue/scheduling_queue.go:284-489 | each queue operation keeps the three collections disjoint and the claims about cycle numbers and move requests |
| `SchedulingQueueSpec.UpdateKeepsIff` | pkg/scheduler/queue/scheduling_queue.go:376-429 | Update keeps the collections disjoint if and only if there is an old stage or the stage is not backing off |
| `SchedulingQueueSpec.UpdateWithoutOldBreaksDisjointness` | pkg/scheduler/queue/scheduling_queue.go:376-429 | a stage in two queues after an Update without an old stage |
| `SchedulingPlaces.UpdatePlaces` | pkg/scheduler/queue/scheduling_queue.go:376-429 | wherever a stage is, the new one is stored there with timestamp, attempts and plugins kept; at rest it stays exactly if nothing the scheduler compares has changed, else it goes to backoff or activeQ as its backoff says; an unknown one is new; every other stage stays |
| `SchedulingPlaces.UpdateNewPlaces` | pkg/scheduler/queue/scheduling_queue.go:376-429 | without an old stage it is taken for new |
| `SchedulingPlaces.AddPlaces` | pkg/scheduler/queue/scheduling_queue.go:246-266 | the stage is in activeQ as new, and every other stage where and as it was |
| `SchedulingPlaces.ActivatePlaces` | pkg/scheduler/queue/scheduling_queue.go:212-244 | a waiting stage is in activeQ with its entry unchanged, and every other stage where and as it was |
| `SchedulingPlaces.AddUnschedulablePlaces` | pkg/scheduler/queue/scheduling_queue.go:284-315 | a stage that is nowhere goes to backoff if moveRequestCycle has reached the cycle given, else to rest, its timestamp alone renewed; one that is somewhere stays |
| `SchedulingPlaces.PopPlaces` | pkg/scheduler/queue/scheduling_queue.go:324-345 | the popped stage alone is nowhere, and the cycle counts one more |
| `SchedulingPlaces.DeletePlaces` | pkg/scheduler/queue/scheduling_queue.go:431-442 | the stage is nowhere, and every other where and as it was |
| `SchedulingPlaces.MovePlaces` | pkg/scheduler/queue/scheduling_queue.go:457-489 | exactly the listed resting stages that the event concerns are released, to backoff or activeQ as their backoff says, and the cycle of the request is noted |
| `SchedulingPlaces.FlushBackoffPlaces` | pkg/scheduler/queue/scheduling_queue.go:573-600 | exactly the stages whose backoff is over go to activeQ |
| `SchedulingPlaces.FlushUnschedulablePlaces` | pkg/scheduler/queue/scheduling_queue.go:604-620 | exactly the stages resting for longer than the limit are released; with none it is no move request |
| `SchedulingPlaces.ConcernsIsHelps` | pkg/scheduler/queue/scheduling_queue.go:493-516 | an event helps a stage exactly if no plugin rejected it, or the event is for all, or a plugin that rejected it registered for an event that is for all or has the same resource and a common action |
| `SchedulingPlaces.BackoffDoubles` | pkg/scheduler/queue/scheduling_queue.go:815-825 | the first wait is the initial duration and each later one doubles it up to the cap |
| `SchedulingQueueSpec.MoveKeeps` | pkg/scheduler/queue/scheduling_queue.go:457-489 | a move sends each listed stage that the event helps where its backoff says, leaves every other entry where and as it was, and conserves the union |
| `SchedulingQueueSpec.PickDistinct` | pkg/scheduler/queue/scheduling_queue.go:444-454 | the stages picked from unschedulableStages are distinct and are its entries |
| `SchedulingQueueSpec.BackoffNeverShrinksIff` | pkg/scheduler/queue/scheduling_queue.go:815-825 | later attempts never wait less exactly when the initial duration is within the cap |
| `SchedulingQueueSpec.FirstAttemptIsNotCapped` | pkg/scheduler/queue/scheduling_queue.go:815-825 | with initial 20 and cap 10 the first attempt waits 20 and the second 10 |
| `SchedulingQueueSpec.CalculateBackoffDuration` | pkg/scheduler/queue/scheduling_queue.go:815-825 | the doubling loop with its overflow-safe test computes min(initial * 2^(attempts-1), max), uncapped for the first attempt |
| `SchedulingQueueSpec.OrdersAreStrictWeak` | pkg/scheduler/queue/scheduling_queue.go:801-807 | both heap orders are strict weak orders |
| `SchedulingQueue.PriorityQueue.Add` | pkg/scheduler/queue/scheduling_queue.go:246-266 | the stage is in activeQ, and in no other collection, through real heap operations that keep order and index |
| `SchedulingQueue.PriorityQueue.Activate` | pkg/scheduler/queue/scheduling_queue.go:212-244 | a stage waiting in backoff or unschedulableStages moves to activeQ with its attempts; true exactly when it did |
| `SchedulingQueue.PriorityQueue.AddUnschedulableIfNotPresent` | pkg/scheduler/queue/scheduling_queue.go:284-315 | refused exactly when held anywhere; otherwise backoff if moveRequestCycle has reached the number passed, else unschedulableStages |
| `SchedulingQueue.PriorityQueue.Pop` | pkg/scheduler/queue/scheduling_queue.go:324-345 | the popped stage is a least one of activeQ, with attempts and cycle counted up, and only it is gone; with an empty activeQ the call ends if closed and waits otherwise |
| `SchedulingQueue.PriorityQueue.Update` | pkg/scheduler/queue/scheduling_queue.go:376-429 | the heap and map operations make the update of which `SchedulingPlaces.UpdatePlaces` says where the stage is and what is stored |
| `SchedulingQueue.PriorityQueue.Delete` | pkg/scheduler/queue/scheduling_queue.go:431-442 | the stage leaves activeQ, or failing that both other collections |
| `SchedulingQueue.PriorityQueue.MoveAllToActiveOrBackoffQueue` | pkg/scheduler/queue/scheduling_queue.go:444-454 | exactly the unschedulable stages that pass preCheck are offered to the move |
| `SchedulingQueue.PriorityQueue.MoveStagesToActiveOrBackoffQueue` | pkg/scheduler/queue/scheduling_queue.go:457-489 | the loop moves those the event helps, one at a time, and records the cycle of the request |
| `SchedulingQueue.PriorityQueue.FlushBackoffQCompleted` | pkg/scheduler/queue/scheduling_queue.go:573-600 | popping until the first unexpired head moves exactly the expired stages |
| `SchedulingQueue.PriorityQueue.FlushUnschedulableStagesLeftover` | pkg/scheduler/queue/scheduling_queue.go:604-620 | exactly the stages resting longer than the limit are moved, as by a move request |
| `WorkQueue.AllRuns` | pkg/util/workqueue/queue.go:97-230 | over all interleavings with parked callers: queue is duplicate-free and dirty minus processing, no item is held twice, a parked unsignalled Get means at most as many queued items as signalled callers on their way, and every accepted Add had a delivery that started after it or is still dirty |
| `WorkQueue.StepKeepsProtocol` | pkg/util/workqueue/queue.go:97-164 | each step keeps queue, dirty, processing and the holders in step |
| `WorkQueue.StepKeepsAdds` | pkg/util/workqueue/queue.go:97-164 | no accepted Add is absorbed by a delivery already running |
| `WorkQueue.DeliveredInTurn` | pkg/util/workqueue/queue.go:128-148 | an item at position p is delivered by the (p+1)-th delivery of any run from there |
| `WorkQueue.EveryAddIsDelivered` | pkg/util/workqueue/queue.go:51-64 | whenever an Add of an item was accepted in a run: once nobody holds the item, and as many deliveries as items were queued then have followed, it has been delivered since that Add |
| `WorkQueue.DoneQueuesReadded` | pkg/util/workqueue/queue.go:153-164 | an item re-added while processed is queued last by the Done of its holder |
| `WorkQueue.DrainersWokenIff` | pkg/util/workqueue/queue.go:182-211 | after the last Done no drainer sleeps on if and only if at most one was asleep |
| `WorkQueue.TwoDrainersLoseAWakeup` | pkg/util/workqueue/queue.go:182-211 | a run of two ShutDownWithDrain callers in which one is never woken |
| `WorkQueue.Type.Add` | pkg/util/workqueue/queue.go:97-114 | refused when shutting down or already dirty; dirty otherwise, and queued with a signal exactly if not being processed |
| `WorkQueue.Type.Get` | pkg/util/workqueue/queue.go:128-148 | the head is delivered; with nothing queued the call ends once shutting down and waits otherwise, and changes nothing |
| `WorkQueue.Type.Done` | pkg/util/workqueue/queue.go:153-164 | processing loses the item; if it is dirty it is queued and a waiter signalled |
| `WorkQueue.ShutDownRefusesAndKeeps` | pkg/util/workqueue/queue.go:168-230 | once the queue shuts down, in every run: no Add is accepted any more, no Get caller is left waiting, and what was added before is delivered or still to be delivered, and nothing else is |
| `DelayingQueue.RunKeeps` | pkg/util/workqueue/delaying_queue.go:166-259 | in every run one entry per item, with the least time asked since it last left the heap, and nothing released before its time |
| `DelayingQueue.StepKeeps` | pkg/util/workqueue/delaying_queue.go:166-259 | each receipt and release keeps that; after a release at now every remaining entry is later than now |
| `DelayingQueue.WaitingLoop.Insert` | pkg/util/workqueue/delaying_queue.go:245-259 | a known item keeps the earlier of its two times; heap and map stay equal |
| `DelayingQueue.WaitingLoop.AddReady` | pkg/util/workqueue/delaying_queue.go:186-197 | exactly the ready items are added to the inner queue, earliest first, each once; the rest are later than now |
| `DelayingQueue.WaitingLoop.Receive` | pkg/util/workqueue/delaying_queue.go:212-238 | a future entry waits, a due one is added at once |
| `InformerSpec.EveryRunReplays` | pkg/informer/controller.go:259-298 | in every run of Add, Update, Delete, Replace, Resync and Pop, a listener that replays all notifications from nothing, refusing an OnAdd of a present key, an OnUpdate whose old object is not the current one or an OnDelete of an absent key, holds exactly the store |
| `InformerSpec.RunKeepsInv` | pkg/informer/delta_fifo.go:277-673 | the queue stays duplicate-free and exactly the keys with deltas, and every queued Deleted follows a present state |
| `InformerSpec.NextKeepsInv` | pkg/informer/delta_fifo.go:277-673 | each of the six operations keeps that, and the replay of the trace |
| `InformerSpec.AddView` | pkg/informer/delta_fifo.go:257-270 | Add and Update set exactly one key of the view (store with queued deltas applied) |
| `InformerSpec.DeleteView` | pkg/informer/delta_fifo.go:277-307 | Delete clears exactly one key of the view, unless there are no known objects and the key is only stored |
| `InformerSpec.ReplaceView` | pkg/informer/delta_fifo.go:544-625 | Replace gives every listed key its newest listed object, removes every present key not listed and leaves all others |
| `InformerSpec.ReplaceIsListIff` | pkg/informer/delta_fifo.go:544-625 | the view becomes the list if and only if no overlooked key is left: one only queued with a pending add, or without known objects one only stored |
| `InformerSpec.PendingAddOutlivesRelist` | pkg/informer/delta_fifo.go:597-617 | with known objects a relist that no longer lists a key leaves its pending add in the view |
| `InformerSpec.DeletionOfPoppedIsLost` | pkg/informer/delta_fifo.go:285-290 | without known objects the deletion of a popped key is dropped and the key stays in the view |
| `InformerSpec.ResyncView` | pkg/informer/delta_fifo.go:630-673 | Resync changes nothing of the view |
| `InformerSpec.PopView` | pkg/informer/delta_fifo.go:489-532 | Pop with processDeltas changes nothing of the view |
| `InformerSpec.ActionView` | pkg/informer/delta_fifo.go:385-413 | a queued action sets or clears one key of the view; the queue grows only at its end |
| `InformerQueue.ActionQueues` | pkg/informer/delta_fifo.go:385-413 | one key's deltas grow by the new one, except that of two deletions in a row the one that saw the object is kept; no other key's change; the key queues up at the end exactly if it had none |
| `InformerQueue.AddQueues` | pkg/informer/delta_fifo.go:257-262 | that, for an Added delta of the object |
| `InformerQueue.UpdateQueues` | pkg/informer/delta_fifo.go:265-270 | that, for an Updated delta of the object |
| `InformerQueue.DeleteQueues` | pkg/informer/delta_fifo.go:277-307 | that, for a Deleted delta, exactly if the key is queued or known; else nothing is queued |
| `InformerQueue.ReplaceQueuesExactly` | pkg/informer/delta_fifo.go:544-625 | every listed object is queued as Replaced or Sync; a present key not listed gets a deletion with the last known object, the stored or else the newest queued one; other keys keep their deltas |
| `InformerQueue.ResyncQueues` | pkg/informer/delta_fifo.go:630-673 | exactly the stored objects met with nothing queued get one Sync delta; without known objects nothing happens |
| `InformerQueue.ResyncTellsAll` | pkg/informer/delta_fifo.go:630-673 | after a resync every stored key is queued, with what it had or else one Sync of the stored object, the new ones behind the old queue |
| `InformerQueue.PopTakesHead` | pkg/informer/delta_fifo.go:503-515 | the head and its deltas alone leave, and the count goes down unless it is zero |
| `InformerQueue.NotificationsAreDeltas` | pkg/informer/controller.go:266-296 | listeners are told of every delta, in order, each with its own object, deletions as deletions |
| `InformerQueue.SyncedByFirstChange` | pkg/informer/delta_fifo.go:247-253 | HasSynced is false at first and true at once if an add, update or deletion comes before any Replace |
| `InformerQueue.SyncedForGood` | pkg/informer/delta_fifo.go:247-253 | once true it stays true |
| `InformerSpec.DedupOutcome` | pkg/informer/delta_fifo.go:348-381 | compressing two deletions keeps the outcome and the well-formedness of the deltas |
| `InformerSpec.ProcessIsOutcome` | pkg/informer/controller.go:259-298 | one key's deltas change that key alone, to their outcome, and their notifications replay |
| `InformerSpec.SyncedWhenBatchPopped` | pkg/informer/delta_fifo.go:249-253 | when Replace comes first the queue always begins with exactly its unpopped keys and HasSynced is true exactly when all have been popped, whatever comes between |
| `InformerSpec.FirstBatch` | pkg/informer/delta_fifo.go:619-622 | a first Replace counts exactly the keys it queued: listed plus detected deletions |
| `Informer.DeltaFIFO.QueueActionLocked` | pkg/informer/delta_fifo.go:385-413 | one delta is appended and compressed, the key queued exactly if it had none; the branch for an empty result is dead |
| `Informer.ProcessLoop` | pkg/informer/controller.go:135-150 | once the queue is closed and nobody adds to it, the process loop ends, and by then the store is what the view was: everything queued has been applied and every notification of it replays |
| `Informer.DeltaFIFO.Add` | pkg/informer/delta_fifo.go:257-262 | an Added delta is queued and the FIFO counts as populated: the operation of `AddView` |
| `Informer.DeltaFIFO.Update` | pkg/informer/delta_fifo.go:265-270 | an Updated delta is queued and the FIFO counts as populated: the operation of `AddView` |
| `Informer.DeltaFIFO.Delete` | pkg/informer/delta_fifo.go:277-307 | nothing is queued for a key neither queued nor known; otherwise a Deleted delta: the operation of `DeleteView` |
| `Informer.DeltaFIFO.Replace` | pkg/informer/delta_fifo.go:544-625 | the two loops, the second over a map it writes to, queue the list and the detected deletions with their last known objects and count the first batch: the operation of `ReplaceView` |
| `Informer.DeltaFIFO.Resync` | pkg/informer/delta_fifo.go:630-645 | the loop makes the resync of which `InformerQueue.ResyncTellsAll` says exactly what it queues |
| `Informer.DeltaFIFO.SyncKeyLocked` | pkg/informer/delta_fifo.go:647-673 | a Sync exactly for a stored object with nothing queued |
| `Informer.DeltaFIFO.Pop` | pkg/informer/delta_fifo.go:489-532 | the deltas of the first key that has some, exactly as queued, and the queue without it; with none the call ends if closed and waits otherwise |
| `Informer.DedupDeltas` | pkg/informer/delta_fifo.go:348-381 | never empties a nonempty list |
| `Informer.Consumer.ProcessDeltas` | pkg/informer/controller.go:259-298 | the loop over deltas writes the store and sends the notifications of which `ProcessIsOutcome` proves that they replay |
| `Informer.ProcessOne` | pkg/informer/delta_fifo.go:489-532 | one turn of the process loop is the Pop of the state machine and leaves the view unchanged |
| `IndexedStore.ThreadSafeMap.Update` | pkg/informer/thread_safe_store.go:56-66 | the item is stored; the call panics exactly when an index function fails on the old or new object, and otherwise every index is again exactly what a scan of all items finds, with no empty set |
| `IndexedStore.ThreadSafeMap.Delete` | pkg/informer/thread_safe_store.go:68-75 | the call panics, with the item kept, exactly when an index function fails on it; otherwise the item is gone and every index exact |
| `IndexedStore.ThreadSafeMap.Replace` | pkg/informer/thread_safe_store.go:106-116 | the call panics exactly when an index function fails on some item; otherwise the indexes rebuilt item by item are exact |
| `IndexedStore.ThreadSafeMap.AddIndexers` | pkg/informer/thread_safe_store.go:212-231 | accepted exactly on an empty store without a name conflict; the indexes stay exact |
| `IndexedStore.ThreadSafeMap.Index` | pkg/informer/thread_safe_store.go:120-156 | each item sharing an index value with the object exactly once; errors exactly for an unknown index or a failing function |
| `IndexedStore.ThreadSafeMap.ByIndex` | pkg/informer/thread_safe_store.go:159-177 | each item with the value exactly once |
| `IndexedStore.ThreadSafeMap.UpdateIndices` | pkg/informer/thread_safe_store.go:238-278 | a panic exactly when an index function fails on one of the two objects; otherwise exact for the items before the change, exact for them after it, for multi-valued and repeating functions |
| `IndexedStore.Reindex` | pkg/informer/thread_safe_store.go:260-276 | one index through the fast path or the two inner loops |
| `IndexedStore.AddKeyToIndex` | pkg/informer/thread_safe_store.go:280-287 | one entry gains the key |
| `IndexedStore.DeleteKeyFromIndex` | pkg/informer/thread_safe_store.go:289-301 | one entry loses the key and no empty set is kept |
| `IndexedStore.Collect` | pkg/informer/thread_safe_store.go:135-149 | the key set of Index is the union of the entries, on the fast path too |
| `Listener.ProcessorListener.Accept` | pkg/informer/informer.go:574-602 | everything accepted equals everything sent, then the held notification, then the ring in order |
| `Listener.ProcessorListener.Dispatch` | pkg/informer/informer.go:574-602 | handing a notification on keeps: accepted equals sent, then held, then the ring in order |
| `Listener.RingGrowing.ReadOne` | pkg/util/buffer/buffer.go:21-35 | the oldest element is read and removed, nothing exactly when empty |
| `Listener.RingGrowing.WriteOne` | pkg/util/buffer/buffer.go:38-56 | the contents gain the element at the end, through any growth |
| `WorkflowRuns.NeverBeforeItsDependencies` | pkg/controller/stage/stage_controller.go:179-240 | in every interleaving of split, bind, execution and the stale, repeated read-then-write passes, no stage is stored as Ready, Bind or Success before each of its transitive dependencies has been stored as Success |
| `WorkflowRuns.RunKeeps` | pkg/controller/stage/stage_controller.go:143-177 | every run keeps each stored or pending version a stage of its DAG whose direct dependencies have succeeded if it has started |
| `WorkflowRuns.StepKeeps` | pkg/controller/stage/stage_controller.go:143-177 | each of the five kinds of step keeps that, on any stale version it may have read |
| `WorkflowRuns.PassKeeps` | pkg/controller/stage/stage_controller.go:186-240 | what a pass decides from stale, partial reads is safe to write at any later time |
| `WorkflowRuns.OnlyExecutionSucceeds` | pkg/worker/controller.go:223-249 | in every run a stage becomes Success only by a successful execution, which changes its state and output alone, after it was bound, and it was Ready before that |
| `WorkflowRuns.WhatAStepWrites` | pkg/controller/stage/stage_controller.go:143-177 | in every run what each kind of step leaves in storage, field by field |
| `WorkflowRuns.PassLeavesItems` | pkg/controller/stage/stage_controller.go:160-163 | a pass stores nothing by itself, and each of its items may be written from then on |
| `WorkflowRuns.ReadyCarriesOutput` | pkg/controller/stage/stage_controller.go:230-236 | in every run a stage that is Ready, other than a root, has as its input what a successful version of its last dependency has put out |
| `Workflow.ExecuteCode` | pkg/worker/controller.go:223-249 | a result makes the stage Success with its output; an error or a panic makes it Failed and leaves the output |
| `WorkflowRuns.RewriteKeeps` | pkg/worker/controller.go:191-249 | binding or executing a stage that was once seen Ready or Bind is safe on any version of it |
| `WorkflowRuns.WalkSucceeded` | pkg/controller/stage/stage_controller.go:224-238 | back along any path of dependencies each has succeeded |
| `WorkflowRuns.WholeJobAccepted` | pkg/controller/stage/stage_controller.go:193-207 | once a job is wholly split, its stages rebuild exactly the DAG they were planned from |
| `WorkflowRuns.QuietJobEnds` | pkg/controller/job/job_controller.go:178-224 | in every run a wholly split job with nothing Ready or Bind, where no pass over a finished stage would change a Create stage, has only finished stages and completeJob sets exactly one of success and failed |
| `WorkflowSpec.QuietHasNoCreate` | pkg/controller/stage/stage_controller.go:213-261 | with nothing Ready or Bind and no pass that would change a Create stage, no stage is in Create |
| `WorkflowSpec.QuietCompletes` | pkg/controller/job/job_controller.go:192-221 | with one stage per node and nothing left to do, completeJob sets success or failed |
| `WorkflowSpec.FailurePropagates` | pkg/controller/stage/stage_controller.go:241-261 | a pass over a failed stage fails exactly its transitive descendants still in Create, each once, in any visiting order |
| `WorkflowSpec.ReleasedIff` | pkg/controller/stage/stage_controller.go:220-240 | a child is released exactly when all its dependencies are Success in the snapshot and none was itself released earlier in the same pass |
| `WorkflowSpec.ReleaseSound` | pkg/controller/stage/stage_controller.go:220-240 | a released item is its child with the state Ready and, as input, the output of its last dependency; all dependencies are present and Success as read |
| `WorkflowSpec.InputIsLastOutput` | pkg/controller/stage/stage_controller.go:223-233 | the input is the output of the last dependency present and Success, and nothing if there is none |
| `WorkflowSpec.FailExact` | pkg/controller/stage/stage_controller.go:247-254 | the in-place failing of children met repeatedly gives each Create stage once |
| `WorkflowSpec.JobStagesFrom` | pkg/controller/stage/stage_controller.go:186-191 | the map by node holds stages of that job only, and every node that has one |
| `WorkflowSpec.JobStagesLatest` | pkg/controller/stage/stage_controller.go:186-191 | of two stages of a job for one node the later in the list is taken |
| `Workflow.DagSort` | pkg/controller/dag/dag_controller.go:301-350 | succeeds exactly on nodes with code and distinct ids and edges with known ends, unrepeated and acyclic; each node becomes one stage, its dependencies exactly its parents, Ready if and only if it has none |
| `Workflow.CollectNodes` | pkg/controller/dag/dag_controller.go:303-313 | the node map, or an error exactly for a missing code or repeated id |
| `Workflow.DependStage` | pkg/controller/stage/stage_controller.go:179-269 | an error exactly when the library refuses the graph or does not know the finished node; otherwise a result that the runs allow |
| `Workflow.BuildDag` | pkg/controller/stage/stage_controller.go:193-207 | the graph is built exactly when all dependencies have a stage, none is repeated and the whole is acyclic |
| `Workflow.ReleaseChildren` | pkg/controller/stage/stage_controller.go:215-240 | the loop that rewrites the job map as it goes makes the release of which `ReleasedIff` and `ReleaseSound` are proved |
| `Workflow.CheckDependencies` | pkg/controller/stage/stage_controller.go:222-233 | the loop finds whether every present dependency is Success, and the output of the last one that is |
| `Workflow.FailDescendants` | pkg/controller/stage/stage_controller.go:241-261 | the nested loops meet exactly the descendants and make the failing of which `FailExact` is proved |
| `Workflow.CompleteJob` | pkg/controller/job/job_controller.go:185-221 | success exactly when there are stages and all succeeded, failed exactly when some failed |
| `Graphs.AddEdges` | pkg/controller/stage/stage_controller.go:200-207 | adding edges one by one succeeds if and only if all ids are known, none is repeated and the whole is acyclic: the order does not matter |
| `Graphs.AcyclicWithEdge` | pkg/controller/dag/dag_controller.go:314-319 | an edge closes a cycle exactly when it is a loop or its source is reachable from its target |
| `Broadcaster.StreamsInOrder` | pkg/watch/mux.go:100-303 | in every run no step sends on a closed channel or closes one twice, and each stream is the prefix and then events accepted after registration, in order, each at most once |
| `Broadcaster.NothingMissed` | pkg/watch/mux.go:248-280 | in wait mode a watcher that is not stopping has every event since its registration that the loop is done with, hence all of them after Shutdown |
| `Broadcaster.DroppedOnlyWhenFull` | pkg/watch/mux.go:263-271 | in every run an accepted event is missing from the stream of a watcher not told to stop only if, in drop mode, its channel was full when the event was distributed |
| `Broadcaster.WatchRegisters` | pkg/watch/mux.go:124-172 | the new watcher is live, has been sent its prefix and is due whatever is accepted from then on; its channel holds the prefix; nobody else is touched |
| `Broadcaster.StopEnds` | pkg/watch/mux.go:175-185 | stopping closes that watcher alone; a shutdown ends the intake |
| `Broadcaster.StepKeeps` | pkg/watch/mux.go:100-303 | each of the eleven steps of callers, loop and watchers keeps queue, lock, streams and channels in step |
| `Broadcaster.AloneInQueue` | pkg/watch/mux.go:100-118 | a control function runs with nothing else queued, so a watcher registers exactly between the events before and after |
| `Broadcaster.RegisterKeeps` | pkg/watch/mux.go:124-172 | a new watcher's prefix fits its channel and its stream starts at the events accepted from then on |
| `Broadcaster.ExitKeeps` | pkg/watch/mux.go:188-195 | closeAll closes each remaining channel for the first time |
| `Broadcaster.StreamsGrow` | pkg/watch/mux.go:263-280 | what was sent stays sent |
| `Cron.ChosenInTime` | pkg/controller/crontrigger/crontrigger_controller.go:708-730 | for any schedule strictly later and on whole seconds the time chosen lies in (earliest, now], less than the first gap before now, and exists exactly when a schedule time has passed; the error is never taken |
| `Cron.LatestAlwaysIffConstant` | pkg/controller/crontrigger/crontrigger_controller.go:708-730 | the floor division gives the latest schedule time not after now and the exact count of due times at every moment if and only if the period is constant |
| `Cron.ConstantIsLatest` | pkg/controller/crontrigger/crontrigger_controller.go:708-730 | with a constant period the time chosen is the latest schedule time not after now and the count of due times is exact |
| `Cron.SkippedTimeIsChosen` | pkg/controller/crontrigger/crontrigger_controller.go:722-729 | the crontab line 0,1,3 * * * *, created at half past: at two past the hour the time chosen is two past, which is not one of its times |
| `Cron.MostRecentIsFloor` | pkg/controller/crontrigger/crontrigger_controller.go:722-729 | rounding, truncation and Unix seconds lose nothing on whole seconds |
| `Cron.SyncInTime` | pkg/controller/crontrigger/crontrigger_controller.go:527-599 | a sync that starts a job does so for a time after the last one, not after now and within its deadline; too late and already processed never happen |
| `Cron.SyncStartsIff` | pkg/controller/crontrigger/crontrigger_controller.go:654-681 | a job is started if and only if a schedule time has come that is after the last trigger, or else the creation, and within the deadline |
| `Cron.SyncStartsLatest` | pkg/controller/crontrigger/crontrigger_controller.go:654-704 | with a constant period it is started for the latest of these times |
| `Cron.TriggersIncrease` | pkg/controller/crontrigger/crontrigger_controller.go:527-599 | trigger times strictly increase over every run in which each sync reads what the one before wrote, whatever the clock does |
| `Cron.RequeueIsLater` | pkg/controller/crontrigger/crontrigger_controller.go:739-756 | with a constant period the requeue delay exceeds 100ms |
| `Cron.RequeueIsNextTime` | pkg/controller/crontrigger/crontrigger_controller.go:739-756 | with a constant period the next look is 100ms after the first schedule time later than now |
| `Cron.RequeueIsLaterIff` | pkg/controller/crontrigger/crontrigger_controller.go:739-756 | the requeue delay exceeds 100ms at every moment if and only if nothing is scheduled strictly between two multiples of the first gap |
| `Cron.UnevenRequeuesAtOnce` | pkg/controller/crontrigger/crontrigger_controller.go:739-756 | the crontab line 0,5,6,7 * * * *, created at half past: at nine past the hour the requeue delay is negative |
| `Cron.NamesDiffer` | pkg/controller/crontrigger/crontrigger_controller.go:624-631 | a schedule on whole minutes never gives two triggers one job name |
| `Cron.HashIsMinute` | pkg/controller/crontrigger/crontrigger_controller.go:629-631 | two moments share a job name exactly when they fall in one minute |
| `Cron.CronWorkflow.SyncCronJob` | pkg/controller/crontrigger/crontrigger_controller.go:527-599 | timestamp, active list and status flag record a job exactly when one is started, as `SyncStartsIff` says, and its creation succeeded; a requeue delay is given unless the schedule is invalid or the creation failed |

## Left out

- REST client and server, etcd storage, codecs, authentication and authorization, the reflector's list and
  watch, extenders and the sandbox: I/O or thin wrappers; they appear only as steps of an environment.
- The dag and cron libraries: AddEdge, the descendants and the strict increase of Next are taken as their
  documented behaviour; that DescendantsFlow returns, and its concurrent appends to one slice (a data race in
  the callback), are not modelled: callbacks run one after the other, in any order.
- A cron schedule without further activation (Next gives the zero time), durations beyond the range of
  time.Duration and the floating-point rounding of Duration.Seconds.
- Deletion of stages, and with it the tombstone branch of the event filters; a job's DAG does not change
  between two attempts to split it.
- Assumed-stage expiry (the cache is built with ttl 0), resource totals of WorkerInfo, GetStage, Dump.
- AssumeStage and FinishBinding change the cache under a read lock; here each is one step.
- The stage nominator, metrics, logging, events, rate limiters, LRU caches: not needed by the properties.
- Signals and broadcasts on the scheduling queue's and DeltaFIFO's condition variables: one turn of their wait loops is modelled, not the waking.
- DeltaFIFO's AddIfNotPresent and requeue path, key errors and a transformer; the handlers that filter.
- The deep-copy side effects of isStageUpdated, and pointer sharing of queue entries: entries are values.
- Integers are unbounded: generation, cycle and watcher numbers do not wrap around.
- SchedulingQueue.PriorityQueue.Update: an old stage has the new one's name and UID, and there is one unless the stage is not in unschedulableStages, where the source would dereference nil.
- IndexedStore.ThreadSafeMap.UpdateIndices: after a panic nothing is promised of the indexes.
- Cron.TriggersIncrease: each sync reads the workflow as the sync before it left it; the controller reads it from a lister that may be older, and a stale read can start a job for the same time again.
- Informer.ProcessLoop: the queue is closed and nobody adds to it any more; the source does not refuse adds after Close.
- Cache.SchedulerCache.AddWorker: a name already in the tree is in the zone of the worker added (see WorkerTree.Tree.AddWorker).
- Cache.SchedulerCache.UpdateWorker: the name is that of the old worker, and the tree has it in the old worker's zone if the worker has an entry, and not at all otherwise.
- WorkerTree.Tree.UpdateWorker: there is an old worker, of the same name, and the name is in no third zone.
- SnapshotSpec.RefreshIsFullRebuild: a state that is not reliable is excluded; `RefreshIsFullRebuildIff` shows that there the claim fails.
- CacheSpec.StepKeeps: callers are held to what the scheduler's handlers do: two live workers do not share a name, a live worker keeps its name and changes zone only through UpdateWorker, UpdateWorker and RemoveWorker act on workers as they were added, and the old stage of UpdateStage names the worker cached.
- WorkerTree.Tree.AddWorker: a name already in the tree is in the zone of the worker added, otherwise it would stand in two zones.
- SchedulingRuns.ReachableSound: names and UIDs correspond one to one and Update gets an old stage; without one see `UpdateKeepsIff`.
- Listener.RingGrowing.WriteOne: the ring starts with a size above zero, since one of size zero cannot double.
- KeyedHeap.Heap.Pop: the heap is not empty, as container/heap would index out of range.
- InformerSpec.EveryRunReplays: keys can be computed, there is no transformer and nothing is requeued.
- Broadcaster: a step machine on values, since its goroutines interleave inside methods; the incoming queue has no bound, which covers every length, and an unbuffered watcher channel is one that may take or refuse any event.
- DelayingQueue.WaitingLoop.Receive: timers, heartbeats and the draining of the channel are reduced to which entry arrives when.
