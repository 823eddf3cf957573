# Verified models of the null library and the asio proxy

The directory models the stateful components of the repository and proves what they are for.

| Component | Protocol or specification | Code |
|---|---|---|
| control block of `shared_ptr` | `CounterProtocol.dfy`: every interleaving of the counter steps | `ControlBlock.dfy` |
| `shared_ptr` and `weak_ptr` handles | `SharedHeap.dfy`: the destructor cascade on any ownership graph | `SharedHandles.dfy` |
| `spsc_ring_buffer` | `RingProtocol.dfy`: every interleaving, with stale index loads | `SpscRingBuffer.dfy` |
| `concurrent_blocking_queue` | `QueueProtocol.dfy`: the monitor with two wait sets and close | `BlockingQueue.dfy` |
| `lru_cache` | `LruSpec.dfy`: the recency list over whole traces | `LruCache.dfy` |
| proxy `session` and `watchdog` | `RelayProtocol.dfy`: handlers as steps, with any environment | `RelaySession.dfy` |
| `unique_ptr` | `UniquePtr.dfy`: any program over handles | `UniquePtr.dfy` |

Each concurrent component is a transition system: a state, the enabled actions, and the step each
makes.  A run is a sequence of states and actions, of any length; the theorems are about every
state of every run, or about any two of its moments.  Some fields of a state are bookkeeping that
no step reads (the log of virtual calls, the elements accepted, the stores made to an index).  The
classes hold the fields of the originals and make the same changes in the same order; their
postconditions equate the new state with the step or steps of the transition system, so that the
theorems are about them too.  Two differ: `ControlBlock.Block`, which has no handles, shows the
counters and the log of the step (`Shows`), and its retry loop is proved against any interference of
a kind that `ControlBlock.RunsInterfereLegally` finds in every run.  `Common.dfy` holds what several
modules need.

What the environment chooses is a parameter or an action: which thread runs, which sleeper a
notification wakes, spurious wake-ups and failures, time-outs, which store an index load returns,
the bytes a socket hands over, and the readings of the clock.

Guards of actions and preconditions of methods hold what the originals ask of callers: a thread
uses handles it holds and does not destroy a `weak_ptr` while it locks it; a raw pointer is not
adopted while something owns it, though its address may be used again afterwards; the ring has one producer and one consumer.  Guards never mention the counters or the life of
the block.

Where the behaviour is not what its name suggests, the model follows the code:

- `shared_ptr::reset` without an argument (null/shared_ptr.h:270-275) leaves the handle with a new
  control block around a null pointer and a use count of 1 (`SharedHandles.Heap.Reset`).
- `unique_ptr::reset` and the assignment of `nullptr` (null/unique_ptr.h:147-153, 179-184) also
  replace the deleter by a default one (`UniquePtr.UniquePtr.Reset`).
- A cycle of strong handles is never disposed of (`SharedHandles.CycleLeaks`); the survivors of a
  cascade are exactly the objects reachable from a remaining root or from a cycle
  (`SharedHandles.DropSurvivors`).
- A get that misses changes nothing in the cache, so that only puts and hits count as touches.
- After `stop`, a watchdog whose wait had already completed may arm its timer again, and a pump whose
  operation had already completed starts another one, which then fails
  (`RelayProtocol.FewRunsAfterStop` bounds what follows).

## Model

| member | source | states |
|---|---|---|
| CounterProtocol.StepInv | null/shared_ptr.h:59-105 | every atomic step of every counter routine keeps: counts equal handles, the two counts decide how far the teardown is, one call at most tears down |
| CounterProtocol.CountersAreHandles | null/shared_ptr.h:54-105 | in every reachable state use_count is the live strong handles plus the locks that won and have not returned; weak_count is the live weak handles plus one until the strong group gives its unit back |
| CounterProtocol.ShareUntilGivenUp | null/shared_ptr.h:65-74 | the strong group holds its unit of weak_count until the call that follows dispose |
| CounterProtocol.LifecycleOrder | null/shared_ptr.h:65-74 | dispose and destroy are each called at most once, destroy after dispose has returned, dispose after the last strong handle and destroy after the last handle |
| CounterProtocol.NoTouchAfterDestroy | null/shared_ptr.h:59-105 | no routine reads or writes a counter once destroy has begun |
| CounterProtocol.NothingLeaks | null/shared_ptr.h:65-105 | when no handle and no unfinished call is left, both virtual calls have been made |
| CounterProtocol.RunMovesByOne | null/shared_ptr.h:59-89 | each step of a run moves use_count by at most one and never away from zero |
| CounterProtocol.ZeroIsPermanent | null/weak_ptr.h:125-135 | once the count is zero, expired holds for ever |
| CounterProtocol.LockDecides | null/shared_ptr.h:76-89 | lock_use_count ends in failure exactly at a zero count, and succeeds exactly by moving a non-zero count up by one, at a single step |
| CounterProtocol.ExchangeExactly | null/shared_ptr.h:79-88 | an exchange wins exactly if it is not spurious and the count is what the call's first load or latest failed exchange read: a failed exchange reads the count anew |
| CounterProtocol.FailedExchangesBounded | null/shared_ptr.h:79-88 | over a whole call, to its winning or giving up, the run's exchanges that fail without being spurious number at most the changes other calls made |
| CounterProtocol.LockRetriesBounded | null/shared_ptr.h:79-88 | the same bound for all exchanges at which the count was not the expected one |
| CounterProtocol.StepAdvances | null/shared_ptr.h:65-105 | each step of a call, a failed exchange apart, ends it or brings it nearer to its end; no other call moves it |
| CounterProtocol.CanGoOn | null/shared_ptr.h:65-105 | no unfinished call is ever blocked |
| CounterProtocol.HandlesExactly | null/weak_ptr.h:105-116 | the strong and the weak handles there are, are exactly those constructed, copied or returned by lock, and not destroyed since |
| ControlBlock.TrailIsLegal | null/shared_ptr.h:59-89 | any stretch of a count that moves by one and stays at zero is legal interference for the retry loop |
| ControlBlock.RunsInterfereLegally | null/shared_ptr.h:59-89 | every stretch of every run of the protocol is interference of the kind LockUseCount is proved against |
| ControlBlock.LegalKeepsCount | null/shared_ptr.h:76-89 | interference never makes the count negative and makes no store after a zero |
| ControlBlock.Block.constructor | null/shared_ptr.h:54 | both counts start at 1, as in the protocol's first state |
| ControlBlock.Block.IncUseCount | null/shared_ptr.h:59-63 | one more strong handle, nothing else changes: the protocol's step |
| ControlBlock.Block.IncWeakCount | null/shared_ptr.h:91-95 | one more weak handle, nothing else changes: the protocol's step |
| ControlBlock.Block.DecUseCount | null/shared_ptr.h:65-74 | the last strong handle disposes and then gives up the weak unit; destroy follows only if no weak handle is left: the protocol's steps with no other call between |
| ControlBlock.Block.DecWeakCount | null/shared_ptr.h:97-105 | the last weak unit destroys the block, any other only counts down: the protocol's steps with no other call between |
| ControlBlock.Block.LockUseCount | null/shared_ptr.h:76-89 | under any interference the loop ends, takes effect at one point between the other threads' stores, succeeds exactly if the count is not zero there, and fails with cause at most once a store |
| SharedHeap.AfterInv | null/shared_ptr.h:65-74 | one destructor action keeps counts equal to handles, with the pending work taken into account |
| SharedHeap.Cascade | null/shared_ptr.h:65-74 | the cascade terminates on every ownership graph, cycles included, and leaves a consistent heap |
| SharedHeap.CascadeSpares | null/shared_ptr.h:65-74 | no cascade disposes of an object of a set each of which is owned from outside or from within the set |
| SharedHeap.WalkBack | null/shared_ptr.h:65-74 | what is alive after a cascade is reached from a root or from a cycle |
| SharedHeap.DroppedIsGone | null/shared_ptr.h:173-177 | a cascade runs every pending destructor and spares every other handle outside all objects |
| SharedHeap.SurvivorsExact | null/shared_ptr.h:65-74 | on every graph the survivors are exactly the objects reached from a remaining root or from a cycle |
| SharedHeap.DisposedExact | null/shared_ptr.h:65-74 | without strong cycles exactly the objects that no remaining root reaches are disposed of |
| SharedHeap.FreedExact | null/shared_ptr.h:97-105 | exactly the control blocks that no handle refers to are freed, exactly the handles inside disposed objects are destroyed |
| SharedHandles.DropSurvivors | null/shared_ptr.h:173-177 | what survives the death of one handle, on every graph |
| SharedHandles.DropExact | null/weak_ptr.h:21-25 | what the death of one handle of either kind disposes of, destroys and frees on an acyclic graph |
| SharedHandles.DeleteExact | null/shared_ptr.h:166-170 | what deleting an object that no block owns disposes of, destroys and frees, exactly |
| SharedHandles.AdoptOwns | null/shared_ptr.h:156-171 | a new block owns the object with one strong handle, and through it the handles inside; nothing else changes |
| SharedHandles.AdoptThenDrop | null/shared_ptr.h:173-177 | when the only handle dies the object goes with all it contains, and the block with it |
| SharedHandles.CycleLeaks | null/shared_ptr.h:65-74 | two objects that own each other outlive the last handle to them |
| SharedHandles.SelfAssign | null/shared_ptr.h:186-192 | assigning a handle to itself changes nothing, whatever it owns |
| SharedHandles.SelfMove | null/shared_ptr.h:217-223 | moving a handle to itself changes nothing |
| SharedHandles.AssignReplaces | null/shared_ptr.h:202-209 | copy assignment: the target refers to what the source did, alive if strong, and all other handles outside objects are as they were |
| SharedHandles.MoveAssignReplaces | null/shared_ptr.h:233-240 | move assignment: likewise, and the source is null |
| SharedHandles.AliveIsUsed | null/shared_ptr.h:277-281 | an object is alive exactly while use_count is not zero, and both counts equal the handles |
| SharedHandles.ResetOwnsAlone | null/shared_ptr.h:266-275 | after reset, also around null, the handle is the only owner of a new block |
| SharedHandles.Heap.DecUseCount | null/shared_ptr.h:65-74 | the recursive routine does what the stack of pending work says, for any pending work of its callers |
| SharedHandles.Heap.DecWeakCount | null/shared_ptr.h:97-105 | counts down, and frees the block at the last unit |
| SharedHandles.Heap.IncUseCount | null/shared_ptr.h:59-63 | counts up, nothing else changes |
| SharedHandles.Heap.IncWeakCount | null/shared_ptr.h:91-95 | counts up, nothing else changes |
| SharedHandles.Heap.Dispose | null/shared_ptr.h:120-124 | the object dies and its members are destroyed |
| SharedHandles.Heap.Destroy | null/shared_ptr.h:173-177 | the destructor of either kind of handle equals its part of the cascade |
| SharedHandles.Heap.Drop | null/weak_ptr.h:21-25 | a handle's end leaves the store DropExact and DropSurvivors describe |
| SharedHandles.Heap.Adopt | null/shared_ptr.h:156-171 | the constructor around a pointer, as AdoptOwns says; without room for the block the object is deleted, as DeleteExact says, and the exception passed on |
| SharedHandles.Heap.NullConstruct | null/weak_ptr.h:19 | a null handle of either kind |
| SharedHandles.Heap.CopyConstruct | null/shared_ptr.h:179-184 | a copy, of either kind, and a weak handle from a strong one |
| SharedHandles.Heap.MoveConstruct | null/shared_ptr.h:211-215 | the new handle takes over, the old one is null |
| SharedHandles.Heap.Swap | null/shared_ptr.h:283-289 | the two handles exchange what they refer to |
| SharedHandles.Heap.CopyAssign | null/shared_ptr.h:186-192 | through a local copy and swap: the target is replaced, also when it is the source |
| SharedHandles.Heap.MoveAssign | null/shared_ptr.h:217-223 | through a local and swap: the target is replaced and the source null, also when they are one |
| SharedHandles.Heap.Reset | null/shared_ptr.h:266-275 | the handle owns a new block alone; if that fails the handle is untouched |
| SharedHandles.Heap.ResetWeak | null/weak_ptr.h:118-123 | the handle is null and its unit given back |
| SharedHandles.Heap.Lock | null/weak_ptr.h:105-116 | a new strong handle if the object is alive, a null one otherwise |
| SharedHandles.Heap.UseCount | null/weak_ptr.h:131-135 | the number of strong handles, zero for a null one |
| SharedHandles.Heap.Expired | null/weak_ptr.h:125-129 | null, or the object is dead |
| RingProtocol.StepInv | null/spsc_ring_buffer.h:22-50 | every load, slot access and store of either side keeps the order of seen and real counts and the contents of the live slots |
| RingProtocol.Fifo | null/spsc_ring_buffer.h:22-50 | in every interleaving with stale loads the completed pushes are the completed pops and then the live slots in order, within the capacity |
| RingProtocol.Exclusive | null/spsc_ring_buffer.h:26-46 | each side works on the slot of the element whose turn it is, below the bound it has seen; both sides never touch one slot |
| RingProtocol.ReuseFollowsRelease | null/spsc_ring_buffer.h:29-32 | before a push reuses a slot, the pop that had read that slot stored its index, at an earlier step, and the push side loaded that store or a later one after it |
| RingProtocol.ReadFollowsPublication | null/spsc_ring_buffer.h:43-46 | before a pop reads a slot, the push that wrote that slot stored its index, at an earlier step, and the pop side loaded that store or a later one after it; the slot holds what was pushed |
| RingProtocol.SeenAtStep | null/spsc_ring_buffer.h:29-43 | what a side has seen of the other's index it has loaded at some step |
| RingProtocol.PushGoesOn | null/spsc_ring_buffer.h:24-36 | a push gives up exactly if the ring was full at the store seen, else writes its item to the slot whose turn it is, then publishes it; no other step touches the buffer or what is published |
| RingProtocol.PopGoesOn | null/spsc_ring_buffer.h:39-50 | a pop gives up exactly if the ring was empty at the store seen, else reads the oldest published element, then consumes it |
| RingProtocol.TestsExact | null/spsc_ring_buffer.h:29-44 | the modular tests are exact on unbounded counts: push refuses exactly if full at the store seen, pop exactly if empty at it |
| RingProtocol.SeenOrder | null/spsc_ring_buffer.h:29-43 | seen tail, tail, seen head, head, and seen tail plus capacity are in this order |
| RingProtocol.FullTest | null/spsc_ring_buffer.h:27-30 | the next slot is the tail's slot exactly when the distance is the capacity |
| RingProtocol.SameSlot | null/spsc_ring_buffer.h:43-44 | within one turn equal slots mean equal counts |
| RingProtocol.NextSlot | null/spsc_ring_buffer.h:47 | the index of the next element, from the index of this one |
| SpscRingBuffer.PushEffect | null/spsc_ring_buffer.h:22-36 | four uninterrupted steps of push in unbounded counts |
| SpscRingBuffer.PopEffect | null/spsc_ring_buffer.h:38-50 | four uninterrupted steps of pop in unbounded counts |
| SpscRingBuffer.SizeOf | null/spsc_ring_buffer.h:52-62 | the distance around the ring is the number of elements |
| SpscRingBuffer.RingBuffer.constructor | null/spsc_ring_buffer.h:14-17 | an empty ring with one spare slot |
| SpscRingBuffer.RingBuffer.Push | null/spsc_ring_buffer.h:22-36 | refuses exactly if full at the store seen, else appends; equals the protocol's steps |
| SpscRingBuffer.RingBuffer.Pop | null/spsc_ring_buffer.h:38-50 | refuses exactly if empty at the store seen, else takes the oldest; the out-parameter is untouched on refusal |
| SpscRingBuffer.RingBuffer.Size | null/spsc_ring_buffer.h:52-62 | the number of elements |
| SpscRingBuffer.RingBuffer.IsFull | null/spsc_ring_buffer.h:64-69 | holds exactly at capacity |
| SpscRingBuffer.RingBuffer.IsEmpty | null/spsc_ring_buffer.h:71-76 | holds exactly with no element |
| QueueProtocol.StepInv | null/concurrent_blocking_queue.h:28-106 | every step of any number of threads keeps conservation, no lost wake-up, and that a close under way will wake who sleeps |
| QueueProtocol.NoLostWakeup | null/concurrent_blocking_queue.h:33-40 | while open, a sleeping consumer means at most as many elements as notified consumers that have not run; likewise producers and free slots |
| QueueProtocol.SomeoneRuns | null/concurrent_blocking_queue.h:63-77 | with capacity, sleepers of both kinds mean that some woken thread is about to run |
| QueueProtocol.Conservation | null/concurrent_blocking_queue.h:28-95 | accepted elements are the delivered ones and then the queue, in order; the size stays within the capacity |
| QueueProtocol.NothingAcceptedAfterClose | null/concurrent_blocking_queue.h:36-37 | closing is for good and nothing is accepted after it |
| QueueProtocol.RefusedExactly | null/concurrent_blocking_queue.h:45-95 | when exactly each of the four calls gives false or nothing |
| QueueProtocol.ReturnsExactly | null/concurrent_blocking_queue.h:28-95 | a call returns at the step at which its thread finds the queue closed, room or an element for it, or its time up, and at no other; otherwise it goes to sleep |
| QueueProtocol.TransfersExactly | null/concurrent_blocking_queue.h:36-94 | the queue changes exactly when a push runs with room on an open queue, which appends its element, or a pop runs with an element, which takes the front one |
| QueueProtocol.WakesExactly | null/concurrent_blocking_queue.h:33-105 | a sleeper stays in its call until notify_one picks it, a notify_all for its kind wakes it, it wakes spuriously or its time is up |
| QueueProtocol.InsideItsCall | null/concurrent_blocking_queue.h:28-95 | each thread is inside the call it made, timed or not as it was called |
| QueueProtocol.ExpiredExactly | null/concurrent_blocking_queue.h:50-86 | a wait counts as timed out exactly if its time ran out since the thread last ran |
| QueueProtocol.NotifiedExactly | null/concurrent_blocking_queue.h:40-105 | a thread counts as notified exactly if a notification woke it since it last ran |
| QueueProtocol.ClosedExactly | null/concurrent_blocking_queue.h:97-103 | the queue is closed exactly once some close has taken the mutex |
| QueueProtocol.CloseSteps | null/concurrent_blocking_queue.h:97-106 | each close notifies all consumers, then all producers, then is done |
| QueueProtocol.NothingOnlyWhenDrained | null/concurrent_blocking_queue.h:63-77 | an untimed pop gives nothing only if every element that is ever accepted has been delivered |
| QueueProtocol.ClosedCallsReturn | null/concurrent_blocking_queue.h:33-37 | on a closed queue every call returns at its next evaluation of the predicate |
| QueueProtocol.NoSleeperAfterFlush | null/concurrent_blocking_queue.h:97-106 | once a close has run notify_all on a wait set, nobody is ever in it again |
| QueueProtocol.SleeperWillBeNotified | null/concurrent_blocking_queue.h:97-106 | whoever sleeps on a closed queue is about to be notified by a close under way |
| BlockingQueue.Queue.constructor | null/concurrent_blocking_queue.h:18-22 | an empty open queue |
| BlockingQueue.Queue.PushSection | null/concurrent_blocking_queue.h:28-61 | push and try_push from taking the mutex to waiting or returning: appended and true exactly with room on an open queue, asleep exactly if full, open and in time, else false; the thread leaves exactly if it returns |
| BlockingQueue.Queue.PopSection | null/concurrent_blocking_queue.h:63-95 | pop and try_pop likewise: the front element exactly if there is one, asleep exactly if empty, open and in time, else nothing; the thread leaves exactly if it returns |
| BlockingQueue.Queue.CloseSection | null/concurrent_blocking_queue.h:100-103 | the part of close under the mutex |
| BlockingQueue.Queue.NotifyPoppersSection | null/concurrent_blocking_queue.h:104 | every sleeping consumer is woken and still in its call, no other thread is touched, no consumer sleeps |
| BlockingQueue.Queue.NotifyPushersSection | null/concurrent_blocking_queue.h:105 | every sleeping producer is woken and still in its call, no other thread is touched, no producer sleeps |
| BlockingQueue.Queue.Size | null/concurrent_blocking_queue.h:108-113 | the number of elements, within the capacity |
| LruSpec.StepShape | null/lru_cache.h:23-55 | what one call does to the list, by position: a hit moves to the front, a put that misses on a full list drops the last |
| LruSpec.StepOk | null/lru_cache.h:23-55 | keys stay distinct, the length stays within the capacity and never shrinks |
| LruSpec.Inclusion | null/lru_cache.h:23-55 | on one trace the list of a smaller cache is a subsequence of that of a larger one |
| LruSpec.HitsCarryOver | null/lru_cache.h:23-32 | every hit of the smaller cache is a hit of the larger with the same value |
| LruSpec.HitsMonotone | null/lru_cache.h:23-55 | the hit count is monotone in the capacity |
| LruSpec.ListIsRecency | null/lru_cache.h:30-54 | the list holds the most recently touched keys, as many as fit, in order |
| LruSpec.StackDistance | null/lru_cache.h:30-54 | a key is at position i exactly if it was touched, i distinct others were touched since, and i is below the capacity |
| LruSpec.TouchedIsPut | null/lru_cache.h:34-55 | at any capacity the touched keys are those that were ever put |
| LruSpec.AbsentExactly | null/lru_cache.h:48-52 | a key that was put is absent exactly if capacity-many distinct others were touched since its last touch |
| LruSpec.PresentExactly | null/lru_cache.h:34-55 | a key is present exactly if it was put and fewer distinct others than the capacity were touched since its last touch |
| LruSpec.FewTouchesKeep | null/lru_cache.h:48-52 | the front key stays through any trace that touches fewer distinct others than the capacity |
| LruCache.List.Unlink | null/lru_cache.h:30 | takes a node out of the doubly linked list, which stays linked |
| LruCache.List.LinkFront | null/lru_cache.h:54 | puts a node in front, the list stays linked |
| LruCache.LruCache.ContentsOk | null/lru_cache.h:58-60 | keys are distinct, the map has exactly the keys of the nodes, the length is within the capacity |
| LruCache.Make | null/lru_cache.h:17-21 | capacity 0 is refused, any other gives an empty cache |
| LruCache.LruCache.Get | null/lru_cache.h:23-32 | the heap list follows the specification; the node returned is the key's node, null on a miss |
| LruCache.LruCache.Overwrite | null/lru_cache.h:39-45 | the value of the node present is replaced and the node moved to the front |
| LruCache.LruCache.EvictLast | null/lru_cache.h:48-52 | the last node and its key go, and nothing else |
| LruCache.LruCache.Insert | null/lru_cache.h:48-55 | a new front node for the key, after eviction if full |
| LruCache.LruCache.Put | null/lru_cache.h:34-55 | the heap list follows the specification; keys that stay keep their nodes |
| LruCache.Replay | null/lru_cache.h:23-60 | over any trace from any state, the empty one included, the heap list and the answers are those of the specification, and each key kept throughout keeps its node |
| LruCache.ReplayNew | null/lru_cache.h:17-60 | over any trace from construction the heap list is the specification's Run and each answer its Answer; the index is a bijection onto the nodes and holds exactly the keys the stack-distance law says |
| LruCache.IndexedBijection | null/lru_cache.h:58-60 | an index that sends each node's key to the node, and nothing else, is a bijection between distinct keys and nodes |
| LruCache.ReplayFew | null/lru_cache.h:23-60 | the pointer returned for a key stays that key's through any calls that touch fewer distinct others than the capacity |
| RelayProtocol.StepInv | asio/proxy/server.cc:98-172 | every handler and every completion keeps fidelity, one operation a direction, and the watchdog's relation of deadline and armed expiry |
| RelayProtocol.Fidelity | asio/proxy/server.cc:98-172 | in every state, failed and stopped ones included, the bytes read in a direction are the bytes written and then the chunk in flight, at most a buffer; no operation or wait is started while another is pending |
| RelayProtocol.LostByFailure | asio/proxy/server.cc:121-127 | bytes are lost only by a write that failed, and are exactly those it had still to write |
| RelayProtocol.PumpSteps | asio/proxy/server.cc:98-172 | after a receive the pump sends all of it from the start of the untouched buffer, after a write it receives again, after a failure it ends; nothing else changes its operation |
| RelayProtocol.OpSteps | asio/proxy/server.cc:112-132 | how each completion changes the operation, and what a receive puts in the buffer |
| RelayProtocol.TimerSteps | asio/proxy/server.cc:17-46 | how each step changes a watchdog's wait, and that only a failed operation or a wait come to its deadline stops the session |
| RelayProtocol.OtherDirection | asio/proxy/server.cc:89-172 | a step about one direction leaves the other alone, but that a stop aborts its wait |
| RelayProtocol.ClockSteps | asio/proxy/server.cc:19-45 | the clock is each handler's last reading and never goes back |
| RelayProtocol.ConnectionExactly | asio/proxy/server.cc:72-86 | the session relays exactly once the handler of a connect that succeeded has run, and is abandoned exactly once that of one that failed has |
| RelayProtocol.ConnectOnce | asio/proxy/server.cc:76-85 | the connect ends once, and its handler runs once |
| RelayProtocol.NothingAfterFailure | asio/proxy/server.cc:78-79 | after a connect that failed no operation and no wait is ever started and no byte read |
| RelayProtocol.BytesCounted | asio/proxy/server.cc:98-172 | the byte counts the fidelity theorem speaks of are those of the run's completions |
| RelayProtocol.WatchdogSafety | asio/proxy/server.cc:15-34 | a completed wait stops an open session exactly if every operation its direction started is at least the timeout old; an aborted wait never does |
| RelayProtocol.ArmedByDeadline | asio/proxy/server.cc:32-46 | the deadline is the timeout after the direction's last start, what is armed is never later, and while open something is armed |
| RelayProtocol.WatchdogPromptness | asio/proxy/server.cc:17-34 | two successful waits of a direction that starts nothing in between stop the session; if it was still open then, the second fell due exactly the timeout after the last start |
| RelayProtocol.ConnectOpens | asio/proxy/server.cc:76-83 | a connected session has both pumps receiving, is open exactly if no timeout passed before the watchdogs were started, and what each watchdog's wait is in every case |
| RelayProtocol.StopCancels | asio/proxy/server.cc:89-96 | a failed operation stops; after the step that stops an open session no wait is pending that could still expire |
| RelayProtocol.StaysClosed | asio/proxy/server.cc:89-96 | a stopped session stays stopped |
| RelayProtocol.ClosedStep | asio/proxy/server.cc:89-172 | once stopped, each handler run uses up the measure, and so does each completion in the lexicographic one |
| RelayProtocol.FewRunsAfterStop | asio/proxy/server.cc:89-172 | after the first stop at most ten handlers run, whatever was queued then |
| RelayProtocol.ReleasedExactly | asio/proxy/server.cc:174-182 | the measure is used up exactly when no handler holds the session; until then some step other than a tick is possible |
| RelayProtocol.CanRelease | asio/proxy/server.cc:89-182 | from every stopped state the session can be released in a bounded number of steps |
| RelaySession.Watchdog.Start | asio/proxy/server.cc:15-34 | arms the timer for the deadline, or answers that the callback is due exactly if the deadline has come |
| RelaySession.Watchdog.Stop | asio/proxy/server.cc:36-40 | aborts a wait that has not completed, and no other |
| RelaySession.Watchdog.Delay | asio/proxy/server.cc:42-46 | moves the deadline to the given time from now; the timer stays |
| RelaySession.Session.constructor | asio/proxy/server.cc:65-70 | a session whose connect is pending |
| RelaySession.Session.Stop | asio/proxy/server.cc:89-96 | closes and cancels both watchdogs, as the protocol's step |
| RelaySession.Session.ReceiveFromClient | asio/proxy/server.cc:98-115 | starts the receive of direction one and delays its watchdog |
| RelaySession.Session.SendToServer | asio/proxy/server.cc:117-134 | starts the write of the bytes received and delays its watchdog |
| RelaySession.Session.ReceiveFromServer | asio/proxy/server.cc:136-153 | as the first, for the other direction |
| RelaySession.Session.SendToClient | asio/proxy/server.cc:155-172 | as the second, for the other direction |
| RelaySession.Session.HandleConnect | asio/proxy/server.cc:76-83 | an error abandons the session, success starts both pumps and both watchdogs; keeps the invariant |
| RelaySession.Session.HandleReceiveFromClient | asio/proxy/server.cc:102-110 | an error stops, a chunk is passed on to the server; keeps the invariant |
| RelaySession.Session.HandleWriteToServer | asio/proxy/server.cc:121-129 | an error stops, success receives again; keeps the invariant |
| RelaySession.Session.HandleReceiveFromServer | asio/proxy/server.cc:140-148 | an error stops, a chunk is passed on to the client; keeps the invariant |
| RelaySession.Session.HandleWriteToClient | asio/proxy/server.cc:159-167 | an error stops, success receives again; keeps the invariant |
| RelaySession.Session.StartWatchdog1 | asio/proxy/server.cc:178-180 | starts the first watchdog with the callback that stops the session |
| RelaySession.Session.StartWatchdog2 | asio/proxy/server.cc:178-181 | starts the second |
| RelaySession.Session.HandleWait1 | asio/proxy/server.cc:26-30 | an aborted wait does nothing, a completed one starts the watchdog again; keeps the invariant |
| RelaySession.Session.HandleWait2 | asio/proxy/server.cc:26-30 | the same for the other watchdog |
| UniquePtr.StepSole | null/unique_ptr.h:104-212 | every operation keeps: at most one owner, who holds the deleter paired with the pointer |
| UniquePtr.StepLedger | null/unique_ptr.h:104-212 | what an operation adds to adoptions it adds to releases, deletions or owners |
| UniquePtr.OneOwner | null/unique_ptr.h:113-153 | in every program at most one handle owns a pointer, with the deleter it was adopted with, converted as often as its owners were |
| UniquePtr.DeletedByPaired | null/unique_ptr.h:104-153 | every deletion uses the deleter the pointer was paired with when it was made |
| UniquePtr.Ledger | null/unique_ptr.h:104-192 | adoptions of a pointer equal its releases, deletions and present owners |
| UniquePtr.OnceAnAdoption | null/unique_ptr.h:104-192 | after each adoption, and before the next, there is at most one deletion or release, and exactly one if the pointer is no longer owned |
| UniquePtr.DeletedExactlyOnce | null/unique_ptr.h:104-108 | when all handles are gone, a pointer was deleted exactly once for each adoption that was not released |
| UniquePtr.NoMovedFromDeletion | null/unique_ptr.h:126-132 | a deleter that a converting move has moved from is never called |
| UniquePtr.UniquePtr.constructor | null/unique_ptr.h:99-102 | adopts a pointer with a deleter |
| UniquePtr.UniquePtr.Default | null/unique_ptr.h:96-97 | null, with a default deleter |
| UniquePtr.UniquePtr.Move | null/unique_ptr.h:113-116 | takes pointer and deleter over and leaves an empty handle |
| UniquePtr.UniquePtr.Convert | null/unique_ptr.h:126-132 | takes the pointer and the converted deleter over and leaves a null handle with a moved-from deleter |
| UniquePtr.UniquePtr.Destroy | null/unique_ptr.h:104-108 | calls the deleter exactly if the pointer is not null |
| UniquePtr.UniquePtr.Swap | null/unique_ptr.h:206-212 | exchanges pointers and deleters, also of a handle with itself |
| UniquePtr.UniquePtr.MoveAssign | null/unique_ptr.h:118-124 | takes over and deletes what it owned with its own deleter; a self-move changes neither pointer nor deleter and deletes nothing |
| UniquePtr.UniquePtr.ConvertAssign | null/unique_ptr.h:134-145 | the same from a handle of another type |
| UniquePtr.UniquePtr.Reset | null/unique_ptr.h:179-184 | owns the new pointer with a default deleter, what it owned is deleted with the old one |
| UniquePtr.UniquePtr.AssignNull | null/unique_ptr.h:147-153 | empty, what it owned is deleted with the old deleter |
| UniquePtr.UniquePtr.Release | null/unique_ptr.h:186-192 | gives the pointer up and keeps the deleter |
| UniquePtr.Program.MoveAssign | null/unique_ptr.h:118-124 | the operation on the heap is the step of the program model, also for a self-move |
| UniquePtr.Program.ConvertConstruct | null/unique_ptr.h:126-132 | the operation on the heap is the step of the program model |
| UniquePtr.Program.Reset | null/unique_ptr.h:179-184 | the operation on the heap is the step of the program model |
| UniquePtr.Program.Destroy | null/unique_ptr.h:104-108 | the operation on the heap is the step of the program model |

## Left out

- `null/concurrent_lru_cache.h`: the algorithm of `lru_cache` under one mutex, so an easy copy.
- `asio/echo`, `asio/basic`, `asio/socket`, `asio/coro`, and the acceptor, resolver and start-up code of
  the proxy: input and output over a library that is not part of this model.
- `system` and `debug`: demonstrations that a reading of one branch settles.
- The C++ memory model: steps are atomic and interleaved.  Beyond that, the ring's loads of the other
  side's index may return any store not older than one already seen; release and acquire appear only
  as the order of what was seen.
- The width of the counters and indices: use and weak counts do not overflow, and the ring's
  `Capacity + 1` does not wrap to zero.
- Template machinery and pointer conversions: a pointer is an identity, so the converting constructors
  and assignments of `shared_ptr` and `weak_ptr` are those of the same type.
- Destructor bodies and deleters that use handles other than the members of the object they destroy,
  and objects whose destructor throws.
- Temporaries of the heap model: the addresses of a local handle and of a new control block are
  parameters, required to be unused.
- Exceptions other than that of a failed allocation of a control block: copies and moves of elements,
  keys and values, and the allocations of the queue, the list and the map are taken to succeed.
- SpscRingBuffer.RingBuffer.Size: does not model calls from a third thread, which get no snapshot; the same holds
  for IsFull and IsEmpty.
- BlockingQueue.Queue.PushSection: the call is split where it waits, because a wait gives the mutex up; the loop
  around the wait is the sequence of a thread's sections in QueueProtocol.  The same holds for PopSection.
- The `empty` and `is_closed` queries of the queue: one-line reads under the mutex.
- LruCache.List.Unlink: `std::list` is modelled with null at both ends instead of a sentinel node.
- RelaySession.Session.HandleConnect: the two clock readings of a start and of the deadline it sets are one, and
  each handler's steps are one step, as the event loop runs on one thread (asio/proxy/server.cc:266).
- RelayProtocol.CanRelease: which completions the event loop delivers, and when, is its own affair; the
  theorem gives a continuation that releases the session, and FewRunsAfterStop bounds all of them.
