# Models of the RT-Thread IPC kernel, its small-memory heap and the byte ring

This project states what three parts of the repository are for and proves it.

**IPC objects** (`project/rt-thread/src/ipc.c`, with the scheduler transitions of `scheduler_comm.c` and the
linked list of `rtservice.h`). Each lock/unlock region is one atomic step of a state machine over any number
of threads, objects and messages; a suspended thread's timer is a step of its own that may come at any time.
Runs are arbitrary sequences of steps, so every theorem about runs covers every interleaving.

- *Mutex* (`WaitList`, `Mutex*`): recursive hold counts, waiter lists sorted by priority, direct hand-off,
  transitive priority inheritance. The inheritance equations are a fixpoint over all threads and mutexes; the
  chain walk restores it although it is local and stops early. When a timeout and its clean-up are
  interleaved with other steps the equations can fail. `EveryRunExactIff` says exactly when: every state of a run is
  exact, up to the mutexes of threads between timeout and clean-up, iff each clean-up recognised the boost it had lent
  (`Recognised`, four comparisons on fields). Whether a thread that owns no mutex runs at its initial priority has a
  condition of its own, the guard at its last release (`EveryRunAtInitIff`). `SplitTimeoutLeavesBoost` is a run where both
  fail, and `LeftoverStays` says how long that lasts. `EveryRunSafe` with `NoInversionInAnyRun` proves what remains true in all runs: nobody is
  ever under-boosted. A deadlock can also keep a boost alive without a source; `BoostHasASourceIff` gives the exact
  condition for each thread.
- *Message queue* (`Mq*`, `MessageQueue`): the lock is released in the middle of every send and receive and the
  copies run outside it, one byte a step. Proved: node conservation, no lost wake-up, and that the whole
  machine refines an atomic bounded deque of messages.
- *Mailbox* (`Mailbox*`), *semaphore* (`Semaphore*`), *event* (`Event*`): a circular buffer that refines a bounded
  double-ended queue; tokens that are conserved; a set of bits against which no suspended thread is ever
  satisfied.
- What each call answers, whom it suspends and whom it wakes is stated on steps and runs apart from the functions that
  compute it (`MutexHolds`, `MutexOrder`, `MqWaits`, `MailboxWaits`, `SemaphoreCalls`, `EventCalls`, and `HeapCalls` for
  the heap): nested takes are counted over whole runs, a granted token and the bits of an event stay with the thread
  they woke, and equals are served in order of arrival through every boost.
- *Linked list* (`LinkedList`, `SuspendList`): the pointer operations against the sequence of the ring.

**Small-memory heap** (`project/rt-thread/src/mem.c`; `Heap*`, `SmallMem`): first fit over headers embedded in the
heap, with splitting, two-sided coalescing, a cached lowest free block and accounting. A block list is the
meaning; the object works on the header words in place and is proved to do to the list what the list
functions say.

**Byte ring** (`project/applications/abus/afifo.c`, `afifo.h`; `Powers`, `Ring*`, `Afifo`): free-running 32-bit
indices and masked positions refine a plain byte queue across index overflow.

Code that works in place is modelled by classes whose methods change fields, arrays and pointers; each is
proved to make exactly the step of a function on values, and the laws are lemmas about those functions and
about all runs of them.

Modelling choices:

- A smaller number is a more urgent priority. Priority ceilings are unset (0xFF).
- One CPU: the lock regions are the atomic steps. Suspending on a list means queueing as
  `rt_susp_list_enqueue` does and marking the thread suspended; inserting into the ready queue means marking it
  ready. `rt_sched_thread_ready` is taken to succeed on a thread that is on a suspend list.
- Timeouts are nondeterministic; a call carries only whether it may wait. In the message queue, mailbox,
  semaphore and event machines the place a thread takes in a suspend list is a free choice, of which FIFO order
  and `WaitList.Enqueue` order (`SuspendList.EnqueueInserts`) are two. In runs that queue by priority the most urgent
  thread comes out first (`MostUrgentFirst`, `TokensToMostUrgent`), provided nobody's priority changes while it is
  suspended there: the kernel re-queues waiters of mutexes only (`LateBoostIsIgnored`).
- The mutex kernel holds each suspend list and taken list as a sequence of objects; `LinkedLists` proves the
  pointer list underneath.
- The heap is an array of 4-byte words. Every block offset is a multiple of 8, so header fields and moved
  payloads fall on whole words. `RT_ALIGN` wraps at 32 bits as in the source; `ServedInFull` and
  `FailedReallocIntactIff` say which request sizes that affects, `WrappedReallocFrees` what then happens.
- The check in `afifo_alloc` admits requests up to 2^31, but `is_power_of_2` takes a signed int: a
  request above 2^30 never gets a ring (`Afifos.AllocSize`, `Afifos.LargeRequestRounds`). A size of 0 shifts by 32,
  which C leaves undefined; it is reported as such.
- `rt_mq_recv` documents that a positive value is the length of a message. A thread resumed by a reset returns
  `thread->error`, which is then +1 in this build (`EveryRunKeepsPromiseIff`, `ResetLooksLikeAByte`).
- `max_value` of a semaphore does not bound its value: a reset ignores it (`LimitKeptIff`, `ResetBreaksLimit`).

## Model

| member | source | states |
|---|---|---|
| `WaitList.EnqueueSorted` | project/rt-thread/src/ipc.c:241-285 | queueing by priority keeps a list sorted by current priority; its head is the more urgent of the newcomer and the old head |
| `WaitList.EnqueuePlace` | project/rt-thread/src/ipc.c:241-285 | the newcomer stands exactly behind the last thread that is not less urgent (first come first served among equals) and nobody else moves |
| `WaitList.HeadSplit` | project/rt-thread/src/ipc.c:827-842 | taking a thread out of a sorted list leaves a head that, together with that thread, gives the old head priority |
| `WaitOrder.JoinRanked` | project/rt-thread/src/ipc.c:254-275 | queueing by priority is exactly the place behind everybody not less urgent and in front of everybody who is; any ordered list stays ordered, for any ranking |
| `WaitOrder.ArrivalAppends` | project/rt-thread/src/ipc.c:249-251 | ranked by time of arrival, queueing appends: the FIFO list is the same law |
| `LinkedLists.InsertAfter` | project/rt-thread/include/rtservice.h:60-67 | the new node comes right behind the given place of the ring, for every ring and place, and all next/prev links agree again |
| `LinkedLists.InsertBefore` | project/rt-thread/include/rtservice.h:75-82 | the same before the given place; before a list head it is the end of the list |
| `LinkedLists.Unlink` | project/rt-thread/include/rtservice.h:88-94 | the ring closes over the node taken out, which becomes a ring of its own; a lone node stays one |
| `LinkedLists.IsEmpty` | project/rt-thread/include/rtservice.h:100-103 | the test holds iff the ring consists of the head alone |
| `LinkedLists.Len` | project/rt-thread/include/rtservice.h:109-120 | the loop counts the nodes other than the head, modulo 2^32 |
| `LinkedLists.CutUndoesWith` | project/rt-thread/include/rtservice.h:60-94 | the ring of nodes after an insertion and the removal of the same node is the ring before, node for node |
| `LinkedLists.RingFixesLinks` | project/rt-thread/include/rtservice.h:60-94 | the order of a ring fixes every next and prev pointer, so such a removal gives back all of them |
| `LinkedLists.FindPlace` | project/rt-thread/src/ipc.c:254-267 | the loop stops at the first strictly less urgent thread, or at the head |
| `LinkedLists.SuspListEnqueue` | project/rt-thread/src/ipc.c:241-285 | on the linked nodes: a FIFO list grows at its end, a PRIO list becomes the list WaitList.Enqueue describes |
| `LinkedLists.ThreadReady` | project/rt-thread/src/scheduler_comm.c:103-144 | a suspended thread leaves its list and becomes ready; any other is refused and nothing changes |
| `LinkedLists.SuspListDequeue` | project/rt-thread/src/ipc.c:105-145 | the first thread is unlinked, made ready and given the error unless that is negative; null, with nothing changed, iff there is none or it is not suspended |
| `LinkedLists.SuspListResumeAll` | project/rt-thread/src/ipc.c:165-182 | every thread of a list of suspended threads is made ready with the error, and the list is empty |
| `MutexModel.NeedInherits` | project/rt-thread/src/ipc.c:845-865 | the loop over the taken list yields the minimum of the initial priority and the priorities of all owned mutexes |
| `MutexWalk.WalkSafe` | project/rt-thread/src/ipc.c:868-920 | if no thread is under-boosted except that one waiter's place lags behind its new priority, the chain walk ends, on boost and on de-boost, with nobody under-boosted and no ownership or waiting link changed |
| `MutexWalk.WalkExact` | project/rt-thread/src/ipc.c:868-920 | if all inheritance equations hold except at the mutex waited for by one thread whose priority just changed, the walk ends with all of them holding everywhere, although it stops at the first unchanged owner |
| `MutexWalk.TurnUsesRoom` | project/rt-thread/src/ipc.c:876-919 | each turn of the walk moves the sum of all priorities strictly one way: the termination measure |
| `MutexKeeps.TakeKeeps` | project/rt-thread/src/ipc.c:1324-1527 | a take (recursive, free, refused or blocking) keeps safety and, from an exact state, exactness |
| `MutexKeeps.ReleaseKeeps` | project/rt-thread/src/ipc.c:1581-1707 | a release (nested, last without waiters, last with hand-off) keeps safety and exactness |
| `MutexKeeps.TimerKeeps` | project/rt-thread/src/thread.c:117-148 | the timer waking a waiter keeps safety, and the equations elsewhere |
| `MutexKeeps.ResumeFailedIff` | project/rt-thread/src/ipc.c:1466-1517 | the second half of a failed take leaves a state exact up to the other outstanding clean-ups iff the thread recognises the boost it lent |
| `MutexKeeps.CleanUpExactIff` | project/rt-thread/src/ipc.c:1468-1512 | from any state that is exact up to outstanding clean-ups, on any mutexes: a late clean-up restores the equations iff the mutex has no owner, the owner runs at the priority of the thread that gave up, or the owner's priority is its initial one, the first waiter's left on this mutex, or that of another mutex it owns |
| `MutexKeeps.PromptIsRecognised` | project/rt-thread/src/thread.c:117-148 | a waiter that cleans up right after its timeout meets that condition unless an earlier timeout on the same mutex is still outstanding |
| `MutexRuns.NextClaims` | project/rt-thread/src/ipc.c:1449-1517 | only a timer opens a claim between timeout and clean-up, and only the clean-up of the same thread closes it |
| `MutexRuns.NextExactIff` | project/rt-thread/src/ipc.c:1324-1707 | a take, release, timeout, clean-up or other suspension leads from a state exact up to outstanding clean-ups to another one iff it is no clean-up that fails the condition |
| `MutexRuns.EveryRunExactIff` | project/rt-thread/src/ipc.c:1324-1707 | in every interleaving: all states are exact up to outstanding clean-ups iff every clean-up met the condition |
| `MutexLeftovers.NextAtInitIff` | project/rt-thread/src/ipc.c:922-943 | a step keeps every thread that owns no mutex at its initial priority iff it is no release of a thread's only mutex, held once, by a thread that runs at neither its initial priority nor the mutex's |
| `MutexLeftovers.EveryRunAtInitIff` | project/rt-thread/src/ipc.c:922-943 | in any run this holds in every state iff every such release meets that guard |
| `MutexLeftovers.ExactGuards` | project/rt-thread/src/ipc.c:922-943 | where the inheritance equations hold, stale mutexes or not, every release meets the guard |
| `MutexLeftovers.NoMutexNoBoost` | project/rt-thread/src/ipc.c:922-943 | so it holds throughout every run whose clean-ups all recognise their boosts |
| `MutexLeftovers.UnowningFrozen` | project/rt-thread/src/ipc.c:868-943 | no step at all changes the priority of a thread that owns no mutex |
| `MutexLeftovers.LeftoverStays` | project/rt-thread/src/ipc.c:868-943 | so a boost left over on a thread that owns no mutex stays until it owns one again |
| `MutexRuns.StartExact` | project/rt-thread/src/ipc.c:1005-1037 | the initial state satisfies all inheritance equations |
| `MutexRuns.EveryPromptRunExact` | project/rt-thread/src/ipc.c:827-943 | exact priority inheritance after every run of nested and chained takes, releases and timeouts with prompt clean-up: each current priority is the minimum over the initial priority and all owned mutexes, each mutex priority is its first waiter's, each list is sorted |
| `MutexRuns.EveryRunSafe` | project/rt-thread/src/ipc.c:1415-1697 | with timeouts and clean-ups as separate interleaved steps: current(owner) <= mutex priority <= current(first waiter) in every reachable state |
| `MutexRuns.ResumedAssertionsHold` | project/rt-thread/src/ipc.c:1451-1464 | in every reachable state the two assertions after a blocked take hold: success iff the thread owns the mutex |
| `MutexRuns.OwnershipSound` | project/rt-thread/src/ipc.c:1350-1697 | in every reachable state: hold is 0 iff there is no owner, a taken list is exactly the set of mutexes owned, no waiter owns what it waits for |
| `MutexRuns.ReleaseHandsToMostUrgent` | project/rt-thread/src/ipc.c:1606-1697 | hand-off goes to a waiter no other waiter is more urgent than |
| `MutexHolds.TakeAnswers` | project/rt-thread/src/ipc.c:1347-1407 | a take is answered Done iff nobody owns the mutex or the thread holds it fewer than 255 times, and then it holds it once more; full, timed out and blocked are told apart exactly; a refused take changes only the error code |
| `MutexHolds.TakeMovesNothing` | project/rt-thread/src/ipc.c:1350-1382 | a take that does not block moves no waiter and no thread priority |
| `MutexHolds.ReleaseAnswers` | project/rt-thread/src/ipc.c:1606-1697 | a release is answered Done iff the thread owns the mutex, and then it holds it once less; the last one hands it to the first waiter, once held, or to nobody |
| `MutexHolds.ReleaseTouches` | project/rt-thread/src/ipc.c:1606-1697 | besides the releaser only the thread that gets the mutex is touched |
| `MutexHolds.ResumeAnswers` | project/rt-thread/src/ipc.c:1449-1527 | the second half of a take is answered Done iff the thread owns the mutex; no mutex changes hands in it |
| `MutexHolds.TimerTouches` | project/rt-thread/src/thread.c:117-148 | a timeout takes exactly that thread off its list and touches no owner, count, priority or other thread |
| `MutexHolds.NextCounts` | project/rt-thread/src/ipc.c:1347-1697 | every step changes the holds a thread knows of by the take or release it answers with Done and by nothing else |
| `MutexHolds.HoldsAreCounted` | project/rt-thread/src/ipc.c:1347-1697 | after any run a thread holds a mutex as often as its takes of it returned Done less its releases that did, plus one while a hand-off waits for its take to return; it owns the mutex iff that is positive |
| `MutexOrder.WalkChainOnly` | project/rt-thread/src/ipc.c:868-920 | the chain walk changes no priority off the chain of owners |
| `MutexOrder.WalkInTurn` | project/rt-thread/src/ipc.c:885-893 | the walk lets no thread overtake another of its own priority that it does not come by |
| `MutexOrder.NextInTurn` | project/rt-thread/src/ipc.c:254-275 | first come, first served among equals in every step, boosts and de-boosts included: whoever stands in front of an equal that was in line before stood there before with the same priority, unless that one's own place was re-evaluated |
| `MutexChains.ChainNotInverted` | project/rt-thread/src/ipc.c:868-920 | along any blocking chain the last owner is at least as urgent as the first thread, now and as created |
| `MutexChains.NoInversionInAnyRun` | project/rt-thread/src/ipc.c:1415-1697 | the same in every state any run reaches |
| `MutexChains.BoostHasASourceIff` | project/rt-thread/src/ipc.c:845-920 | a thread's priority is the initial priority of itself or of a thread blocked behind it iff it is in no set of threads that only boost each other at a priority none of them was created with; thread by thread, whatever happens elsewhere |
| `MutexChains.PriorityIsMostUrgentBehindIff` | project/rt-thread/src/ipc.c:845-920 | under the same condition, and only then, it is the most urgent initial priority at the start of any chain ending in the thread |
| `MutexChains.SelfBoostedIsDeadlock` | project/rt-thread/src/ipc.c:845-920 | where the equations hold such a set is a deadlock: behind each of its threads another one of them is blocked |
| `MutexChains.PriorityIsMostUrgentBehind` | project/rt-thread/src/ipc.c:845-920 | so without deadlock the priority is the most urgent initial priority behind the thread |
| `MutexLimits.SplitTimeoutLeavesBoost` | project/rt-thread/src/ipc.c:1468-1512 | a concrete run with a timeout and its clean-up split by a take of a third thread: one clean-up fails its condition, the last release fails its guard (priority 5, created with 10, mutex at 255), and the thread keeps priority 5 until it owns a mutex again |
| `MutexLimits.DeadlockKeepsBoost` | project/rt-thread/src/ipc.c:868-920 | a concrete run into a deadlock: all equations hold, the two deadlocked threads are such a set, and their boost has no source |
| `MutexKernel.Kernel.ListEnqueue` | project/rt-thread/src/ipc.c:254-275 | the loop over the waiters computes WaitList.Enqueue on current priorities |
| `MutexKernel.Kernel.MutexUpdatePriority` | project/rt-thread/src/ipc.c:827-842 | the mutex priority becomes the first waiter's, 0xff if none |
| `MutexKernel.Kernel.ThreadGetMutexPriority` | project/rt-thread/src/ipc.c:845-865 | the loop returns the priority the thread needs |
| `MutexKernel.Kernel.ChangePriority` | project/rt-thread/src/scheduler_comm.c:175-217 | only the current priority of the thread changes |
| `MutexKernel.Kernel.Ready` | project/rt-thread/src/scheduler_comm.c:103-144 | succeeds iff the thread was suspended, and makes it ready |
| `MutexKernel.Kernel.WalkChain` | project/rt-thread/src/ipc.c:876-919 | the in-place loop computes exactly Walk, whose properties are WalkSafe and WalkExact |
| `MutexKernel.Kernel.ThreadUpdatePriority` | project/rt-thread/src/ipc.c:868-920 | priority change plus walk, in place |
| `MutexKernel.Kernel.CheckAndUpdatePriority` | project/rt-thread/src/ipc.c:922-943 | the releaser is re-evaluated, and a reschedule asked for, iff its priority equals the mutex's |
| `MutexKernel.Kernel.Take` | project/rt-thread/src/ipc.c:1324-1464 | the in-place method makes exactly the take step of the state machine and returns its outcome, which TakeAnswers and HoldsAreCounted pin |
| `MutexKernel.Kernel.Release` | project/rt-thread/src/ipc.c:1581-1707 | the in-place method makes exactly the release step and returns its outcome |
| `MutexKernel.Kernel.ThreadTimeout` | project/rt-thread/src/thread.c:117-148 | the timer's effect on a suspended waiter, in place |
| `MutexKernel.Kernel.Resume` | project/rt-thread/src/ipc.c:1449-1527 | the rest of a blocked take, success or clean-up, in place |
| `MqKeeps.NextCopies` | project/rt-thread/src/ipc.c:3368-4012 | no step of send, urgent send, receive, timeout or reset creates, loses or doubles a pool node |
| `MqKeeps.HeldAlone` | project/rt-thread/src/ipc.c:3477-3486 | a node in a thread's hands is on no list and in no other thread's hands |
| `MqKeeps.NextWakes` | project/rt-thread/src/ipc.c:3368-4012 | no step loses a wake-up: what suspended threads wait for is there only as far as threads already woken will take it |
| `MqRuns.RoomToLink` | project/rt-thread/src/ipc.c:3525-3537 | linking always finds the 16-bit counter below its maximum: the value-overflowed branches of send and urgent send are unreachable |
| `MqRuns.NextSafe` | project/rt-thread/src/ipc.c:3368-3910 | every step keeps the whole invariant |
| `MqRuns.EveryRunSafe` | project/rt-thread/src/ipc.c:3368-4012 | after any interleaving, with the lock released in the middle of every call: each pool node is in exactly one of the live list, the free list or one thread's hands; entry is the length of the live list; suspended receivers imply entry <= woken receivers, suspended senders imply free nodes <= woken senders |
| `MqRuns.FilledPayload` | project/rt-thread/src/ipc.c:3477-3486 | when a node is linked it carries exactly the sender's message although its bytes were copied outside the lock |
| `MqRuns.CopiedPayload` | project/rt-thread/src/ipc.c:3873-3880 | the bytes a receiver has copied out are the message taken, truncated to its size, although copied outside the lock |
| `MqRuns.NextRefines` | project/rt-thread/src/ipc.c:3368-4012 | every two-phase step is a step of an atomic bounded deque with the same answer: send appends when it links, urgent prepends, receive takes the front, the result is the message truncated to the receiver's size |
| `MqRuns.EveryRunIsADeque` | project/rt-thread/src/ipc.c:3368-4012 | every run of any length and interleaving is a run of that deque |
| `MqRuns.DeliveredInOrder` | project/rt-thread/src/ipc.c:3477-3889 | over any run without urgent messages and resets the messages taken, followed by those queued, are those queued before followed by those linked |
| `MqWaits.NextWaits` | project/rt-thread/src/ipc.c:3405-3905 | a node given back wakes exactly the first suspended sender, a linked message exactly the first receiver; a thread that finds none and may wait joins its list at its place; nobody else moves but at a time-out or reset |
| `MqWaits.MostUrgentFirst` | project/rt-thread/src/ipc.c:3540-3905 | in every run in which threads queue by priority and keep it while suspended, each thread woken is one that no thread waiting for the same is more urgent than |
| `MqReturns.PositiveIsLengthIff` | project/rt-thread/src/ipc.c:3740-3910 | the documented promise that a positive return value is the length of a message holds for every step that ends a call iff that step is not a thread leaving after a reset resumed it |
| `MqReturns.ZeroIffLinked` | project/rt-thread/src/ipc.c:3368-3910 | a call returns zero iff it ends by linking its message, and a negative value iff it ends neither so nor by a message nor after a reset |
| `MqReturns.NextDismissedIff` | project/rt-thread/src/ipc.c:3983-4012 | a thread is in that position after a step iff it was and did not leave, or the step is a reset that found it waiting |
| `MqReturns.EveryRunKeepsPromiseIff` | project/rt-thread/src/ipc.c:3740-4012 | over runs at whose end no dismissed thread is left, the promise holds throughout iff no reset found a thread waiting |
| `MqReturns.NoResetNoDismissal` | project/rt-thread/src/ipc.c:3983-4012 | in particular it holds in every run without resets |
| `MqReturns.ResetLooksLikeAByte` | project/rt-thread/src/ipc.c:3833-3839 | a receiver on an empty queue that is reset gets the value 1 with nothing copied: a concrete case |
| `MessageQueues.MessageQueue.constructor` | project/rt-thread/src/ipc.c:3116-3143 | linking the pool nodes one by one gives the initial queue with every node free |
| `MessageQueues.MessageQueue.TakeNode` | project/rt-thread/src/ipc.c:3472-3475 | the first node leaves the free list; null iff it is empty |
| `MessageQueues.MessageQueue.Fill` | project/rt-thread/src/ipc.c:3477-3486 | the unlocked copy writes length and bytes of the owned node and disturbs neither list |
| `MessageQueues.MessageQueue.LinkTail` | project/rt-thread/src/ipc.c:3512-3555 | head, tail and next pointers afterwards are those of the live list with the node appended, the counter and the first receiver move as in the state machine, and no pointer of a node outside the live list changes |
| `MessageQueues.MessageQueue.LinkHead` | project/rt-thread/src/ipc.c:3680-3714 | the same with the node in front; no other node is touched |
| `MessageQueues.MessageQueue.TakeHead` | project/rt-thread/src/ipc.c:3857-3871 | the first node leaves the live list; tail becomes NULL with the last one |
| `MessageQueues.MessageQueue.CopyOut` | project/rt-thread/src/ipc.c:3873-3880 | copies the message truncated to the receiver's size and nothing behind it |
| `MessageQueues.MessageQueue.GiveBack` | project/rt-thread/src/ipc.c:3886-3905 | the node goes to the front of the free list and the first suspended sender, and no other, is resumed |
| `MessageQueues.MessageQueue.Reset` | project/rt-thread/src/ipc.c:3983-4012 | every queued node is freed and the counter is 0; receivers and then senders are resumed in order, each with the positive error RT_ERROR |
| `MailboxModel.OffsetsMeet` | project/rt-thread/src/ipc.c:2652-2668 | (out_offset + entry) mod size is in_offset, for every size >= 1 |
| `MailboxModel.PutTailAppends` | project/rt-thread/src/ipc.c:2652-2668 | a send appends; its overflow branch is never taken |
| `MailboxModel.PutHeadPrepends` | project/rt-thread/src/ipc.c:2778-2792 | an urgent send prepends |
| `MailboxModel.TakeHeadPops` | project/rt-thread/src/ipc.c:2932-2944 | a receive removes the front |
| `MailboxRuns.NextSafe` | project/rt-thread/src/ipc.c:2555-3021 | every send, urgent send, receive, retry, timeout and reset keeps offsets, lists and wake-up rule |
| `MailboxRuns.EveryRunSafe` | project/rt-thread/src/ipc.c:2555-3021 | in every reachable state of a mailbox of any size the offsets agree and no wake-up is lost in either direction |
| `MailboxRuns.NextRefines` | project/rt-thread/src/ipc.c:2555-3021 | each step does to the mails, and answers, what a bounded double-ended queue does |
| `MailboxRuns.ReceivedInOrder` | project/rt-thread/src/ipc.c:2652-2944 | over any run without urgent mails and resets, received followed by present is present-before followed by sent |
| `Mailboxes.Mailbox.Send` | project/rt-thread/src/ipc.c:2582-2681 | one pass of a send over the array and offsets in place: full iff entry equals size, otherwise the mail is appended and the first receiver resumed |
| `Mailboxes.Mailbox.Urgent` | project/rt-thread/src/ipc.c:2760-2808 | the same at the front |
| `Mailboxes.Mailbox.Recv` | project/rt-thread/src/ipc.c:2862-2964 | one pass of a receive in place: empty iff entry is 0, otherwise the front is returned and the first sender resumed |
| `MailboxRuns.OkIffTransferred` | project/rt-thread/src/ipc.c:2555-3021 | a call that ends returns RT_EOK iff it put its mail into or took it out of the box; after a reset it returns the positive error |
| `MailboxWaits.NextWaits` | project/rt-thread/src/ipc.c:2582-2964 | a mail put in wakes exactly the first suspended receiver, one taken out exactly the first sender; the caller is suspended at its place iff it has to wait and may, and is otherwise out of its call; nobody else moves but at a time-out or reset |
| `MailboxWaits.MostUrgentFirst` | project/rt-thread/src/ipc.c:2671-2957 | in every run in which threads queue by priority and keep it while suspended, each thread woken is one that no thread waiting for the same is more urgent than |
| `Mailboxes.Mailbox.Reset` | project/rt-thread/src/ipc.c:3007-3021 | the mailbox and both wait lists are empty; receivers and then senders are resumed with RT_ERROR |
| `SemaphoreModel.EveryRunSafe` | project/rt-thread/src/ipc.c:580-732 | in no reachable state is a taker suspended while the value is positive |
| `SemaphoreModel.TokensConserved` | project/rt-thread/src/ipc.c:580-732 | over any run without resets, takes and accepted releases balance with the change of the value and of the tokens handed to resumed takers |
| `SemaphoreModel.LimitWakesNobody` | project/rt-thread/src/ipc.c:795-806 | the branch that resumes all takers when the limit falls below the value never finds one |
| `SemaphoreModel.LimitKeptIff` | project/rt-thread/src/ipc.c:721-807 | a step keeps value <= max_value iff it is no reset above the limit and sets no limit below the value |
| `SemaphoreModel.ResetBreaksLimit` | project/rt-thread/src/ipc.c:768-816 | a reset can put the value above a limit set before: a concrete case |
| `SemaphoreCalls.TakeExact` | project/rt-thread/src/ipc.c:580-641 | a take succeeds iff the value is positive and then costs one token; it is refused iff there is none and it may not wait; otherwise the thread joins the list at its place |
| `SemaphoreCalls.ReleaseExact` | project/rt-thread/src/ipc.c:695-741 | a release succeeds iff somebody waits or the limit is not reached; the first suspended thread and nobody else gets the token, and the value only if nobody waits |
| `SemaphoreCalls.LeavingExact` | project/rt-thread/src/ipc.c:630-640 | a thread returns with success iff it was granted a token; time-outs and resets end in an error and move no token |
| `SemaphoreCalls.ControlExact` | project/rt-thread/src/ipc.c:768-816 | a reset sets the value cut to 16 bits and dismisses exactly the suspended threads; a limit is refused iff its low 16 bits are zero and changes nothing else |
| `SemaphoreCalls.GrantIsKept` | project/rt-thread/src/ipc.c:702-709 | a token granted to a suspended thread stays its own through any run, resets included, until its take returns with success |
| `SemaphoreCalls.TokensToMostUrgent` | project/rt-thread/src/ipc.c:702-709 | in every run in which takers queue by priority and keep it while suspended, each token goes to one that no suspended taker is more urgent than |
| `SemaphoreCalls.LateBoostIsIgnored` | project/rt-thread/src/ipc.c:885-893 | they have to keep it: only a wait for a mutex is re-queued, so a taker boosted while suspended is passed over; a concrete case |
| `Semaphores.Semaphore.Take` | project/rt-thread/src/ipc.c:580-641 | in place: a token is taken iff there is one; without one the caller is refused or suspended at its place |
| `Semaphores.Semaphore.Release` | project/rt-thread/src/ipc.c:695-741 | in place: the first suspended taker gets the token if there is one, otherwise the value up to its limit |
| `Semaphores.Semaphore.SetLimit` | project/rt-thread/src/ipc.c:785-816 | the in-place method is the limit function of the state machine |
| `Semaphores.Semaphore.Reset` | project/rt-thread/src/ipc.c:768-783 | all takers are resumed in order with RT_ERROR and the value is the argument cut to 16 bits |
| `EventModel.MatchedIsIntersection` | project/rt-thread/src/ipc.c:1990-2010 | in AND and in OR mode a satisfied thread receives the bits it asked for among those set |
| `EventRuns.SweepWakes` | project/rt-thread/src/ipc.c:1988-2040 | the pass over the list wakes exactly the satisfied threads, all judged by the same set |
| `EventRuns.SweepClears` | project/rt-thread/src/ipc.c:2020-2044 | a bit is collected for clearing iff some woken CLEAR thread matched it |
| `EventRuns.SendExact` | project/rt-thread/src/ipc.c:1956-2052 | a send wakes exactly the threads satisfied by the old bits with the new ones, hands each its matched bits, clears exactly the bits matched by woken CLEAR threads, and never takes the invalid-mode branch |
| `EventRuns.RecvExact` | project/rt-thread/src/ipc.c:2088-2185 | a receive succeeds at once iff all (any) requested bits are set; a bit is received iff it was requested and set; a set bit is gone iff the receive succeeded, asked for clearing and requested it; otherwise it fails if it may not wait, and else the thread waits for what it asked for, at its place |
| `EventRuns.NobodyOverlooked` | project/rt-thread/src/ipc.c:1956-2285 | after any run no suspended thread is satisfied by the current set |
| `EventCalls.SentBitsArrive` | project/rt-thread/src/ipc.c:2195-2210 | a thread woken by a send receives the bits it asked for among those set at that send, and its call can end in no other way, whatever sends, clears, time-outs and resets come before it runs |
| `EventCalls.EmptySetRefused` | project/rt-thread/src/ipc.c:1970-2108 | an empty set is refused by send and receive with nothing changed |
| `EventCalls.LeavingExact` | project/rt-thread/src/ipc.c:2189-2210 | how a suspended receive ends: with an error after a time-out, with the reset's error after a reset, with bits if woken; the events and the other threads stay |
| `EventCalls.ResetExact` | project/rt-thread/src/ipc.c:2268-2283 | a reset clears all events and dismisses exactly the suspended threads |
| `EventCalls.SendRanked` | project/rt-thread/src/ipc.c:1988-2040 | the threads a send leaves suspended stay in order, for any priorities |
| `Events.Event.FinishRecv` | project/rt-thread/src/ipc.c:2195-2210 | the resumed thread is given its own event set |
| `Events.Event.Reset` | project/rt-thread/src/ipc.c:2268-2283 | in place: the suspended threads are resumed in order with RT_ERROR and no event is left |
| `Events.Event.Walk` | project/rt-thread/src/ipc.c:1988-2040 | the in-place loop with removal from the list under iteration computes the pass |
| `Events.Event.Send` | project/rt-thread/src/ipc.c:1956-2052 | the in-place method is the send step of the state machine |
| `Events.Event.Recv` | project/rt-thread/src/ipc.c:2121-2185 | the in-place method is the receive step of the state machine |
| `HeapModel.LiveDetermines` | project/rt-thread/src/mem.c:128-166 | two well-formed block lists of the same heap with the same live blocks are equal |
| `HeapOps.AllocWellFormed` | project/rt-thread/src/mem.c:320-391 | taking a free block, cut in two or whole, keeps the tiling, the merged neighbours and the minimum sizes |
| `HeapOps.CoalesceWellFormed` | project/rt-thread/src/mem.c:128-166 | merging a freed block with free neighbours on both sides leaves no two free neighbours anywhere |
| `HeapOps.ShrinkWellFormed` | project/rt-thread/src/mem.c:452-470 | shrinking a block in place and merging its rest keeps the heap well formed |
| `HeapEdges.ShrinkToEight` | project/rt-thread/src/mem.c:426-470 | a realloc to 1..8 bytes of a block with more than 36 leaves eight payload bytes, fewer than any allocation makes |
| `HeapEdges.RoundsToEight` | project/rt-thread/src/mem.c:426 | among 32-bit sizes exactly 1..8 round to eight |
| `HeapEdges.NextLargeIff` | project/rt-thread/src/mem.c:280-548 | an operation keeps every block at 16 payload bytes or more iff it is no such realloc |
| `HeapEdges.EveryRunLargeIff` | project/rt-thread/src/mem.c:280-548 | the same over whole runs |
| `HeapEdges.EightByteBlock` | project/rt-thread/src/mem.c:426-470 | such a block exists: a concrete case |
| `HeapWords.LinkSplit` | project/rt-thread/src/mem.c:326-348 | writing the new header and relinking next and prev gives the header words of the split list |
| `HeapWords.LinkMerge` | project/rt-thread/src/mem.c:136-165 | unlinking the absorbed header gives the header words of the merged list |
| `HeapWords.LocalChangeKeepsBodies` | project/rt-thread/src/mem.c:326-348 | header writes never touch the payload of a live block |
| `HeapLaws.SumsMakeUpHeap` | project/rt-thread/src/mem.c:350-544 | used plus free extents make up the payload area plus one header |
| `HeapLaws.AllocGrants` | project/rt-thread/src/mem.c:280-398 | a granted block is new, large enough and disjoint from all live ones; used grows by its extent |
| `HeapLaws.AllocCompleteAndLowest` | project/rt-thread/src/mem.c:280-398 | for a non-zero request NULL is returned iff no free block holds the rounded size; otherwise the lowest such block is chosen |
| `HeapLaws.ServedInFull` | project/rt-thread/src/mem.c:286-303 | the rounded size covers the request iff rounding up does not wrap 32 bits |
| `HeapCalls.RoundedIsLeast` | project/rt-thread/src/mem.c:294-299 | the size carved is the least multiple of 8 no smaller than the request and 16; for the requests that wrap it is 16 |
| `HeapCalls.AllocExact` | project/rt-thread/src/mem.c:280-398 | an allocation returns NULL iff the request is zero or no free block has room, with nothing changed; otherwise the lowest free block with room is cut after the rounded size if the rest can stand alone, and taken whole otherwise |
| `HeapCalls.ReallocExact` | project/rt-thread/src/mem.c:412-497 | a realloc of a live block returns NULL iff the rounded size is beyond the heap, zero, or needs a move for which no free block has room; it stays put iff the size is equal or leaves more than 28 bytes; otherwise it moves into the lowest free block with room; no other live block changes |
| `HeapCalls.ReallocNullExact` | project/rt-thread/src/mem.c:443-445 | a realloc of NULL is an allocation of the rounded size, failures included |
| `HeapLaws.FreeKeeps` | project/rt-thread/src/mem.c:506-548 | a free removes exactly the given block from the live ones and its extent from used |
| `HeapLaws.AllocThenFree` | project/rt-thread/src/mem.c:280-548 | freeing what was just allocated restores the block list, split or not |
| `HeapLaws.FailedReallocIntactIff` | project/rt-thread/src/mem.c:423-441 | a realloc to a non-zero size that returns NULL leaves the heap alone iff the size does not wrap to zero on rounding |
| `HeapEdges.WrappedReallocFrees` | project/rt-thread/src/mem.c:423-441 | at size 0xFFFFFFF9 a realloc of any live block returns NULL and the block is gone |
| `HeapEdges.WrappedRequest` | project/rt-thread/src/mem.c:286-441 | an allocation of that size is granted with sixteen bytes on a fresh heap: a concrete case |
| `HeapLaws.MoveLive` | project/rt-thread/src/mem.c:474-496 | a moved block takes the place of the old one among the live blocks |
| `HeapLaws.EveryRunWellFormed` | project/rt-thread/src/mem.c:128-548 | after any run of alloc, free and realloc the blocks tile the heap, aligned, with no two free neighbours, and the accounting is exact |
| `HeapLaws.MaxIsThePeak` | project/rt-thread/src/mem.c:350-365 | max is the largest amount in use at any moment of the run, the moment inside a moving realloc included |
| `HeapLaws.HistoryDoesNotMatter` | project/rt-thread/src/mem.c:128-548 | two histories that leave the same live blocks leave the same block list |
| `HeapLaws.FreeAllAfterAnyRun` | project/rt-thread/src/mem.c:128-548 | freeing all live blocks in any order after any history gives back the initial heap |
| `SmallMem.SmallMem.Init` | project/rt-thread/src/mem.c:179-243 | the region is refused iff it is too small; otherwise the control block, the heap and its end header take exactly the aligned part of it |
| `SmallMem.SmallMem.PlugHoles` | project/rt-thread/src/mem.c:128-166 | two-sided coalescing over the header words, with the cached lowest free block kept right and all payloads untouched |
| `SmallMem.SmallMem.Search` | project/rt-thread/src/mem.c:308-312 | the loop from the cached pointer with its early cut-off finds the lowest fitting free block, if any |
| `SmallMem.SmallMem.Alloc` | project/rt-thread/src/mem.c:280-398 | on the header words in place: the block-list allocation, all live payloads untouched, cached pointer, used and max right |
| `SmallMem.SmallMem.Free` | project/rt-thread/src/mem.c:506-548 | on the header words in place: the block-list free, all other payloads untouched |
| `SmallMem.SmallMem.Realloc` | project/rt-thread/src/mem.c:412-497 | on the header words in place: the block-list realloc; the first min(old payload, new size) bytes are kept, no other live payload changes, failure leaves all as it was |
| `Powers.IsPowerOf2` | project/applications/abus/afifo.c:29-43 | the loop returns true iff the int argument is a power of two |
| `Powers.Fls` | project/applications/abus/afifo.c:91-105 | the loop returns the number of bits of the argument, 0 for 0 |
| `Powers.RoundupPowOfTwo` | project/applications/abus/afifo.c:106-108 | for 1..2^31 the result is the least power of two not below the request |
| `Powers.MaskIsRemainder` | project/applications/abus/afifo.c:125-127 | masking with size - 1 is the remainder by size |
| `Powers.WrapKeepsRemainder` | project/applications/abus/afifo.c:134 | the masked position does not see the wrap of the 32-bit index |
| `RingModel.InAppends` | project/applications/abus/afifo.c:115-137 | in appends the longest prefix that fits, in two copies, and keeps used <= size |
| `RingModel.PeekIsPrefix` | project/applications/abus/afifo.c:189-211 | peek copies the oldest bytes, as many as asked for or present |
| `RingModel.AddOutDrops` | project/applications/abus/afifo.h:133-140 | add_out drops the oldest bytes and no others |
| `RingModel.PeekThenAddOutIsOut` | project/applications/abus/afifo.c:139-162 | peek followed by add_out of the length peeked is out |
| `RingModel.AddInQueuesWrittenBytes` | project/applications/abus/afifo.h:101-111 | bytes written at the in position and announced by add_in are queued as in would have queued them |
| `RingRuns.NextRefines` | project/applications/abus/afifo.c:115-211 | each operation answers and changes the contents as a bounded byte queue does |
| `RingRuns.EveryRunRefines` | project/applications/abus/afifo.c:115-211 | every run of in, out, peek, drop and reset gives the answers of the byte queue, across any number of index wraps |
| `RingRuns.NothingLostOrReordered` | project/applications/abus/afifo.c:115-211 | over any run: bytes that left, then bytes queued, are bytes queued before, then bytes accepted |
| `Afifos.AllocSize` | project/applications/abus/afifo.c:54-112 | a ring is made iff the request is in 1..2^30 and both allocations succeed, and then has the least sufficient power of two; zero is undefined; larger requests loop for ever or fail |
| `Afifos.LargeRequestRounds` | project/applications/abus/afifo.c:29-52 | 2^30 + 1 rounds to 2^31, which is_power_of_2 refuses because its parameter is a signed int |
| `Afifos.Afifo.GetUsed` | project/applications/abus/afifo.h:54-57 | the index difference is the number of queued bytes |
| `Afifos.Afifo.GetFree` | project/applications/abus/afifo.h:58-61 | the rest of the buffer |
| `Afifos.Afifo.Put` | project/applications/abus/afifo.c:115-137 | in place: the accepted prefix is appended to the contents |
| `Afifos.Afifo.Peek` | project/applications/abus/afifo.c:189-211 | in place: the caller's buffer receives the oldest bytes and is unchanged behind them |
| `Afifos.Afifo.Take` | project/applications/abus/afifo.c:139-162 | in place: the oldest bytes are copied out and leave the contents |
| `Afifos.Afifo.AddOut` | project/applications/abus/afifo.h:133-140 | in place: the oldest bytes leave the contents |

## Left out

- Deleting and detaching objects, where de-boosting a suspended owner is not propagated, and `rt_mutex_drop_thread`.
- Priority ceilings (`rt_mutex_setprioceiling`): all ceilings are 0xFF.
- Resuming a thread that waits for a mutex by anything but a release or its timer (`rt_thread_resume`, signals).
- The message queue with priorities (`RT_USING_MESSAGEQUEUE_PRIORITY`), which this build does not compile.
- The arithmetic of `rt_mq_init` that derives the number of nodes from the pool size: the pool is given as its nodes.
- Object registration, hooks, debug output, the interruptible and killable variants (they differ in the suspend flag only).
- The ready queue's contents and bit masks (`rt_sched_insert_thread`, `number_mask`), ticks, time slices and the
  recomputation of remaining timeouts.
- A timer interrupt racing with `rt_sched_thread_ready`, SMP spinlocks and everything else that needs a second CPU.
- `heap_end->prev`, which is written by coalescing only and read by nobody: the heap invariant does not mention it.
- `rt_smem_detach` and the shell commands `memcheck` and `memtrace`.
- `afifo_get_free_block`, which measures from `out` where its comment speaks of `in`, and lock-free use of one ring by
  two parties at once (the `min` macro samples the far index twice): the ring is sequential here.
- Device drivers, motor, servo and chassis code, PID, arm geometry, `robotmanager.c`, `PathFinder.c` and
  `perf_counter.c`: input/output plumbing, floating point and finite tables.
- Error codes other than success, failure and the positive error of a reset in the message queue, mailbox and event are
  not told apart; a semaphore take ended by a reset returns it negated like any other failure.
