# GoodAsio, verified

A Dafny model of GoodAsio, a small single-threaded reactor, and of the echo servers written with it and
beside it, with proofs of what every run of them satisfies. `dafny verify dfyconfig.toml` verifies the
whole project.

## What is modelled

The reactor is four layers that have to agree, and the model keeps each of them in the form the program has.

* **Readiness back ends** (`Interests.dfy`, `Backends.dfy`). `Selector`, `Poller` and `Epoller` are classes
  with the program's fields: two bitmaps, a list and a running maximum; a vector of poll entries; and the
  kernel-side set of an epoll instance with ADD and DEL. A kernel call is an `Answer` chosen by the
  environment: it fails, or it tells which conditions hold and which descriptors are in fault, and for
  epoll which reports are put into the buffer and in what order. Whatever POSIX.1-2017 (`select`, `poll`,
  System Interfaces volume) and epoll allow is a possible answer.
* **Container, queue and loop** (`IOEventContainer.dfy`, `EventQueue.dfy`, `EventLoop.dfy`). Classes with the
  program's vectors and FIFO. Each operation is proved to make one step of the state machine in
  `LoopSpec.dfy`, whose states also carry the history of everything submitted, handed over and executed.
  A queue object records the run it has made, and its invariant says that this record is a run of the
  machine, so the theorems about runs hold of the objects. A callback is whatever list of
  submissions the environment likes.
* **Timers** (`Timers.dfy`, `HeapSpec.dfy`, `HeapTop.dfy`, `TimerHeap.dfy`). `std::priority_queue` is a binary heap in an array with the
  libstdc++ algorithms: a new element rises from the end; to pop, a hole sinks from the top to a leaf along
  the better children and the last element rises from there. The C++ standard (section 28.7 of ISO/IEC
  14882:2017) leaves the algorithm open and asks for a comparator that is a strict weak order and does not
  move; the program's is not strict, rounds to seconds and reads a running clock twice per call. The clock may
  advance by any amount at every reading. `HeapSpec.dfy` says what the algorithms make of an array as functions
  of these readings; the heap object is proved to compute them in place, and a step of the reactor carries the
  readings of its comparisons, so that order, contents and complete draining are theorems about the steps.
* **The echo servers** (`Sockets.dfy`, `EchoSpec.dfy`, `EchoExchange.dfy`, `EchoServer.dfy`,
  `PollServer.dfy`, `EpollServer.dfy`, `Connections.dfy`). The server of `main.cpp` with its callbacks and its session objects, on top of the queue;
  and the two hand-written loops. All three refine the connection machine in `Connections.dfy`: accept,
  receive, reply and close, on each descriptor, over and over.

Environment choices (kernel answers, accepted descriptors, bytes read and written, submissions of callbacks)
are parameters, and clock readings are nondeterministic, so every statement is for all of them. `run` is
observed for as many iterations as its list of choices is long; since the list is arbitrary, that is every
finite part of every run.

## Where the program falls short, and exactly when

* The drain loop asks the top alone whether it is ready. The top speaks for the timers below it exactly when the
  timers' start points are whole seconds apart: for two timers, once in order (`TopTellsIffInPhase`); for a heap
  that pushes build (`BuiltTopTellsIffSecondsApart`); and over runs, a pass is certain to leave no expired timer
  behind, whatever the waits and whenever it is made, exactly for such start points
  (`PassesDrainIffSecondsApart`). Start points are clock readings in nanoseconds, so in practice they are not:
  `OutOfPhaseTopHidesReadyTimer` pushes two timers after which the top is not ready while the other one is.
* Between timers in phase, what can still put a pair in the wrong order is the second changing between the two
  clock readings of a comparison, and only if the left operand is read in an earlier second than the right one, or
  two or more seconds later: exactly the other readings, which are said to agree,
  never do (`PushTellsIffAgree`). C++ leaves open which operand
  is read first. With start points in phase and such readings the heap is in order at every later moment and
  every drain is complete (`HeapStaysOrdered`, `DrainIsComplete`). The answers themselves agree with the deadlines
  exactly when the readings share a second (`CompareIsSoundIffSameSecond`).
* `Poller` erases by descriptor: it forgets only what it reports exactly when it does not report just one
  direction of a descriptor wanted both ways (`PollerForgetsOnlyReportedIff`), so whatever is ready exactly when no
  descriptor is wanted both ways (`PollerIsExactIffOneDirection`).
* `Epoller` cannot ADD a descriptor twice: a registration takes effect exactly when the descriptor is not
  wanted the other way (`EpollAddTakesEffectIff`). It also deletes every reported descriptor but compares the
  mask with `==`, so it forgets only what it hands out exactly when no reported descriptor carries an error or
  hang-up bit (`EpollForgetsOnlyReportedIff`).
* Hence container and tracker stay coupled over a pass always for `Selector`, and for the other two exactly under
  these conditions (`Container.UpdateAllP`).
* `ready` stays filled after its events are executed and deleted, and `empty()` counts it: `run` makes one more
  pass before it returns exactly when the last pass handed over an I/O event (`OneMorePass`).

The echo server sets no timers and meets the tracker's conditions by itself, faults under epoll apart: it never
wants a descriptor both ways (`ServerIsOneWay`).

## Model

| member | source | states |
|---|---|---|
| Interests.OneShot | lib/inc/IOManager.h:25-30 | over any history of the abstract tracker an interest that is not wanted is neither reported nor wanted later unless it is registered again |
| Interests.WantedIffUnreported | lib/inc/IOManager.h:25-30 | after any history the abstract tracker wants exactly what has not been reported since it was last registered |
| Interests.OutcomeAt | lib/inc/IOManager.h:29 | an extraction returns exactly what is wanted and ready at that moment, or throws |
| Backends.Selector.RegisterReadFd | lib/src/IOManager.cpp:4-10 | adds the pair; bitmaps, tracking list and maximum stay mutually consistent |
| Backends.Selector.RegisterWriteFd | lib/src/IOManager.cpp:12-18 | adds the pair; bitmaps, tracking list and maximum stay mutually consistent |
| Backends.Selector.ExtractAll | lib/src/IOManager.cpp:20-43 | reports exactly the ready interests, forgets exactly those and keeps the rest in order, even with both directions of a descriptor pending; a failed call throws and changes nothing |
| Backends.Poller.RegisterReadFd | lib/src/IOManager.cpp:45-50 | adds the pair |
| Backends.Poller.RegisterWriteFd | lib/src/IOManager.cpp:52-57 | adds the pair |
| Backends.Poller.ExtractAll | lib/src/IOManager.cpp:59-75 | reports exactly the ready interests, and is left wanting what erasing by descriptor leaves; a failed call throws and changes nothing |
| Backends.PollerForgetsOnlyReportedIff | lib/src/IOManager.cpp:71-73 | only reported interests are forgotten if and only if the report does not hold one direction alone of a descriptor wanted both ways |
| Backends.PollerIsExactIffOneDirection | lib/src/IOManager.cpp:71-73 | for every readiness only reported interests are forgotten, if and only if no descriptor is wanted both ways |
| Backends.EpollAddTakesEffectIff | lib/src/IOManager.cpp:81-93 | a registration adds its interest if and only if the opposite one is not registered |
| Backends.EpollForgetsOnlyReportedIff | lib/src/IOManager.cpp:101-109 | a pass forgets only what it hands out if and only if no reported descriptor is in fault |
| Backends.EpollHandsOutReady | lib/src/IOManager.cpp:95-111 | without faults a pass hands out only ready interests, and all of them if the registered ones fit the buffer |
| Backends.BatchesReadyIffMayReport | lib/src/IOManager.cpp:96-100 | without faults and with room for all, the batches epoll_wait may choose are exactly the listings of the ready descriptors, each once, in any order |
| Backends.Epoller.ExtractAll | lib/src/IOManager.cpp:95-111 | hands out the reported descriptors whose mask is exactly the requested bit, in any order of reports, and deletes every reported one; a failed call throws and changes nothing |
| Backends.IOManager.Register | lib/inc/IOManager.h:27-28 | over any back end adds the interest, except that epoll ignores it when the opposite one is registered |
| Backends.IOManager.ExtractAll | lib/inc/IOManager.h:29 | interest by interest what each back end hands out and what it still wants; it forgets only what it hands out exactly under its own condition: select always, poll and epoll under theirs; all ready interests are handed out if, for epoll, they fit and none is in fault |
| Backends.Lockstep | lib/src/IOManager.cpp:4-111 | the three back ends, run on the same disciplined history and with any batches epoll may report, return call by call what the abstract one-shot set returns and are left wanting what it wants |
| IOEventContainer.Container.Append | lib/inc/IOEventContainer.h:17-27 | adds the event at the end and its interest to what the tracker wants, unless epoll refuses it; container and tracker stay coupled if and only if the back end is not epoll or the descriptor is not wanted the other way |
| IOEventContainer.Container.UpdateAllP | lib/src/IOEventContainer.cpp:11-28 | splits the container, in order, into reported and kept events; what is reported, and what the tracker wants afterwards, is what the back end makes of its interests and the answer, also after an event has been orphaned; the tracker never wants what no event waits for; coupling survives if and only if the back end forgets only what it reports |
| Events.PartitionConserves | lib/src/IOEventContainer.cpp:15-27 | the split loses, doubles and misplaces no event |
| Events.PartitionIsStable | lib/src/IOEventContainer.cpp:15-27 | both parts keep submission order |
| Timers.TimeLeftRoundsUp | lib/inc/Event.h:87-94 | `timeLeft` is the time to the deadline rounded up to seconds, zero exactly when `isReady` holds, which is exactly when the deadline has passed |
| Timers.EarlierDeadlineLessTime | lib/inc/Event.h:91-94 | at any instant `timeLeft` is monotone in the deadline |
| Timers.OutOfOrderByAtMostOne | lib/inc/Event.h:91-94 | a pair once in order by `timeLeft` is never later out of order by more than one second |
| Timers.OrderPersistsIffInPhase | lib/inc/Event.h:91-94 | pairs with two given start points, once in order, stay in order whatever their waits, if and only if the start points are whole seconds apart |
| Timers.TopTellsIffInPhase | lib/src/EventQueue.cpp:20 | of two timers with given start points, once in order, the upper one not being ready means that the lower one is not, whatever their waits, if and only if the start points are whole seconds apart |
| Timers.VerdictLasts | lib/src/EventQueue.cpp:30-32 | between timers in phase, a comparison that reads its left operand in the same second as the right one or in the next decides their order for all later time |
| Timers.CompareIsSoundIffSameSecond | lib/src/EventQueue.cpp:30-32 | the comparator's answers on pending timers agree with their deadlines if and only if its two clock readings share a second |
| HeapSpec.OrderSurvivesTime | lib/src/EventQueue.cpp:30-32 | a heap of in-phase timers that is ordered stays ordered at every later time |
| HeapSpec.TopIsLeast | lib/src/EventQueue.cpp:20 | in an ordered heap no timer has less time left than the top |
| HeapSpec.PushedConserves | lib/inc/EventQueue.h:22-24 | a push adds exactly its timer, whatever the readings |
| HeapSpec.PoppedConserves | lib/src/EventQueue.cpp:22 | a pop removes exactly the top, whatever the readings |
| HeapSpec.PushedSettles | lib/inc/EventQueue.h:22-24 | with timers in phase and agreeing readings a push leaves the heap ordered although the clock moves during every comparison |
| HeapSpec.PoppedSettles | lib/src/EventQueue.cpp:22 | with timers in phase and agreeing readings a pop leaves the heap ordered although the clock moves during every comparison |
| HeapSpec.DrainsConserve | lib/src/EventQueue.cpp:20-23 | the drain loop loses and doubles nothing and hands over expired timers only |
| HeapSpec.DrainsCompletely | lib/src/EventQueue.cpp:20-23 | with timers in phase and agreeing readings the drain loop leaves an ordered heap without any expired timer |
| HeapTop.PushTellsIffAgree | lib/src/EventQueue.cpp:30-32 | whichever in-phase timers are compared with two given readings in a push, the top speaks for both ever after, if and only if the left reading falls into the second of the right one or the next |
| HeapTop.BuiltTopTellsIffSecondsApart | lib/src/EventQueue.cpp:20-23 | in heaps built by pushing timers at given start points, a top that is not ready means that none is, whatever their waits, if and only if the start points are whole seconds apart |
| HeapTop.OutOfPhaseTopHidesReadyTimer | lib/src/EventQueue.cpp:20-23 | a concrete heap made by pushing a second timer onto a first, out of phase, whose top is not ready while the timer below is |
| TimerHeap.Heap.Less | lib/src/EventQueue.cpp:30-32 | the comparator with one clock reading per operand, in either order |
| TimerHeap.Heap.Push | lib/inc/EventQueue.h:22-24 | rising from the end in place is the push of the readings that its comparisons made |
| TimerHeap.Heap.Pop | lib/src/EventQueue.cpp:22 | sinking the hole and rising again in place is the pop of the readings that its comparisons made |
| TimerHeap.Heap.TopIsReady | lib/src/EventQueue.cpp:20 | tells whether the top is ready at the reading made |
| EventQueue.Queue.DrainTimers | lib/src/EventQueue.cpp:20-23 | the loop that moves tops into the FIFO is a drain, and appends what it drained in that order |
| EventQueue.Queue.SubmitIO | lib/inc/EventQueue.h:26-34 | one submission step: the event reaches the container only, last |
| EventQueue.Queue.SubmitTimer | lib/inc/EventQueue.h:21-24 | one submission step: the timer, started at a reading of the clock, is pushed onto the heap only |
| EventQueue.Queue.Pop | lib/src/EventQueue.cpp:3-11 | a null result without any change if the FIFO is empty, otherwise one execution step on its first event |
| EventQueue.Queue.UpdateReadyTasks | lib/src/EventQueue.cpp:13-24 | one pass step: the I/O events whose pair the tracker hands out, in reverse order, then the drained timers; pending events stay coupled to the tracker if and only if the back end forgets only what it reports; every ready one is handed over if, for epoll, the registered descriptors fit and none is in fault |
| EventQueue.Queue.Empty | lib/src/EventQueue.cpp:26-28 | empty exactly when container, stale vector, FIFO and heap all are |
| EventLoop.Loop.Iterate | lib/src/EventLoop.cpp:4-11 | executes the first event and then submits exactly what its callback asks for, in order; only on an empty FIFO makes the one pass that the answer determines instead |
| EventLoop.Loop.Run | lib/src/EventLoop.cpp:3-13 | for any callbacks and any kernel: the run is, turn by turn, what the turns ask for, executions with their callbacks' submissions and passes with the tracker's reports; when `run` returns every event ever submitted has been executed exactly once; tracker and container stay coupled at every loop head, over select in any case, over poll if no descriptor is ever wanted both ways, over epoll if moreover no report carries a fault |
| EventLoop.TurnExecutes | lib/src/EventLoop.cpp:5-8 | after a turn with an event in the FIFO it has been executed, and each thing its callback asked for has become an event of that socket, descriptor, direction and callback, or a timer of that wait, and is pending |
| EventLoop.TurnPasses | lib/src/EventQueue.cpp:13-19 | after a turn with an empty FIFO exactly the pending events that the tracker wanted and the answer reports are in the FIFO, and the others are still pending |
| LoopSpec.NextKeepsInv | lib/src/EventQueue.cpp:3-24 | every submission, execution, pass and clock reading keeps the invariant of the whole reactor |
| LoopSpec.InOnePlace | lib/inc/EventQueue.h:14-16 | at every moment of every run a submitted event is in exactly one of container, heap, FIFO and the executed events |
| LoopSpec.ExactlyOnce | lib/src/EventLoop.cpp:3-13 | when the queue is empty every submitted event has been executed exactly once and nothing else has |
| LoopSpec.HandedOverStays | lib/src/EventQueue.cpp:13-24 | what is executed or handed over at any moment of a run is a beginning of what is executed or handed over at its end, so events of one pass run before those of every later pass |
| LoopSpec.LaterSubmissionRunsLater | lib/src/EventLoop.cpp:4-11 | an event submitted at any step, by a callback for instance, runs after all that was executed or handed over by then |
| LoopSpec.PassOrder | lib/src/EventQueue.cpp:14-23 | a pass appends to the FIFO exactly the reported I/O events, in reverse submission order, and then timers, all submitted before it; the other I/O events stay pending |
| LoopSpec.NoTimerRunsEarly | lib/inc/Event.h:87-89 | in no run is a timer executed before its start point plus its wait |
| LoopSpec.HeapStaysOrdered | lib/src/EventQueue.cpp:20-32 | as long as timers start in phase and comparisons have agreeing readings, through any interleaving of pushes, pops and clock readings, the heap is ordered by `timeLeft` at every moment and would stay so at every later time |
| LoopSpec.WithinSecondsIsSteady | lib/src/EventQueue.cpp:30-32 | that holds in particular of a run whose timers start in phase and whose steps do not see the second change |
| LoopSpec.DrainIsComplete | lib/src/EventQueue.cpp:20-23 | in such a run a pass leaves no expired timer behind and hands none over while one with an earlier or equal deadline stays |
| LoopSpec.PassesDrainIffSecondsApart | lib/src/EventQueue.cpp:20-23 | in every run that submits timers at given start points and then makes a pass, comparisons agreeing, the pass leaves no expired timer behind, if and only if the start points are whole seconds apart |
| LoopSpec.WorkBound | lib/src/EventLoop.cpp:4-11 | a run that submits N events takes at most 2N iterations plus the passes that handed nothing over |
| LoopSpec.OneMorePass | lib/src/IOEventContainer.cpp:34-36 | with nothing left to execute the queue is empty exactly when the last pass handed over no I/O event, and after any further pass it is empty |
| LoopSpec.StaleEventsAreOver | lib/src/IOEventContainer.cpp:30-36 | at a pass, what the stale vector still points at has been executed, and the queue does not count as empty |
| Connections.LegalIffCyclic | main.cpp:31-51 | the connection machine allows exactly the traces in which each descriptor's actions are accept, receive, reply, over and over |
| Connections.OpenAfterIsOpen | test-servers/poll_server.cpp:77-107 | after a legal history the descriptors listed in accept order are exactly the open ones |
| Sockets.SessionSocket.SRead | lib/src/Sockets.cpp:3-10 | the buffer becomes the chunk padded with zeros, with nothing of the old content; on a read error all zeros, and it throws |
| Sockets.SessionSocket.SWrite | lib/src/Sockets.cpp:12-19 | what is sent is a prefix of the buffer; throws, with nothing sent, exactly when write() fails |
| Sockets.ServerSocket.SRead | lib/src/Sockets.cpp:25-29 | creates a new session on whatever accept() returned, -1 included, with a blank buffer and makes it the current one |
| EchoServer.Server.constructor | main.cpp:19-25 | leaves the first accept event as the only outstanding event |
| EchoServer.Server.StartAccept | main.cpp:31-33 | submits the accept event on the listener |
| EchoServer.Server.HandleAccept | main.cpp:46-59 | counts, submits the next accept and the session's read in this order, and reports and resets the count when more than a second has passed |
| EchoServer.Server.HandleRead | main.cpp:40-44 | submits the session's write |
| EchoServer.Server.HandleWrite | main.cpp:35-38 | deletes exactly that session |
| EchoServer.Server.ExecuteAccept | lib/inc/Event.h:45-48 | the socket acts before the callback: the effect of one accept event |
| EchoServer.Server.ExecuteRead | lib/inc/Event.h:45-48 | the effect of one read event: the session's own buffer becomes the chunk and then zeros, and no other changes |
| EchoServer.Server.ExecuteWrite | lib/inc/Event.h:63-66 | the effect of one write event: as many bytes of the session's own buffer as write() took are sent before the session is deleted |
| EchoServer.Server.Update | lib/src/EventQueue.cpp:13-24 | a pass of the server's loop reports exactly what the tracker hands out on the answer, all pending ready events if, for epoll, they fit and none is in fault; tracker and container stay coupled if and only if the back end is not epoll or nothing reported is in fault |
| EchoServer.Server.Iterate | lib/src/EventLoop.cpp:4-11 | executes the next event if there is one and only otherwise makes a pass; either is one step of the echo machine with the environment's choices |
| EchoServer.Server.Run | lib/src/EventLoop.cpp:3-13 | every iteration of `run` is the step of the echo machine that its turn's choices determine; it never returns; tracker and container stay coupled, over select and poll in any case, over epoll without faults in its reports |
| EchoServer.TurnIsServed | lib/src/EventLoop.cpp:5-8 | with an event in the FIFO the turn's descriptor becomes a session, its chunk fills the buffer, or that many bytes of the buffer are sent and the session deleted, according to the event |
| EchoServer.TurnIsPassed | lib/src/EventQueue.cpp:13-19 | with an empty FIFO exactly the pending events that the tracker wanted and the answer reports are handed over |
| EchoSpec.EchoNextKeepsInv | main.cpp:31-59 | every step of the server keeps its invariant, whatever the environment chooses |
| EchoSpec.EchoStepIsReactorSteps | main.cpp:31-59 | every step of the server is a sequence of reactor steps between the same states |
| EchoSpec.EchoRunIsReactorRun | main.cpp:19-59 | every run of the server is a run of the reactor from an empty queue, observed at its loop heads, so all that holds of reactor runs holds of it |
| EchoSpec.EchoEventsInOnePlace | lib/src/EventLoop.cpp:3-13 | at every loop head each event the server ever submitted is in exactly one of container, FIFO and the executed events, once |
| EchoSpec.EchoRunsInGenerations | lib/src/EventLoop.cpp:4-11 | what is executed or handed over at a loop head runs before everything submitted later |
| EchoSpec.OneOutstandingEach | main.cpp:31-51 | at every loop head exactly one outstanding event on the listener and on each open session, none on any other socket, each carrying its live socket's descriptor |
| EchoSpec.LiveDescriptorsDiffer | main.cpp:35-51 | live sockets never share a descriptor, although closed numbers are reused |
| EchoSpec.ServerIsOneWay | main.cpp:31-51 | the server never has two pending events in opposite directions on one descriptor |
| EchoSpec.NeverDry | main.cpp:46-51 | in every reachable state an event is outstanding |
| EchoSpec.HeadIsServable | main.cpp:35-51 | the next event's callback always finds its session alive, with its buffer and its descriptor; an accept is on the listener |
| EchoSpec.ConnectionsCycle | main.cpp:31-51 | the server's actions are legal for the connection machine: each descriptor goes through accept, receive, reply, over and over |
| EchoExchange.AcceptOpens | main.cpp:46-59 | an accept opens a new session with a blank buffer of 20 bytes on the accepted descriptor, submits the next accept and its read in this order, and prints and resets the count exactly if at least a second and a microsecond has passed |
| EchoExchange.ReadFillsBuffer | lib/src/Sockets.cpp:3-10 | a read puts the chunk and then zeros into that session's own buffer, submits its write, and leaves all other sessions alone |
| EchoExchange.ReplySendsPrefix | lib/src/Sockets.cpp:12-19 | a write sends exactly as many bytes of the session's buffer as write() took, deletes that session and leaves all others alone |
| EchoExchange.PayloadIsolation | lib/src/Sockets.cpp:3-19 | a session's reply is, byte for byte and as far as write() took it, the chunk of at most 20 bytes that read() gave at the one earlier step at which that session read, padded with zeros to 20, however sessions interleave |
| EchoExchange.OneExchangeEach | main.cpp:35-44 | a session reads once and is answered once: what it read and was sent never changes |
| EchoSpec.CountsAddUp | main.cpp:46-58 | the printed counts and the running count always total the accepts executed |
| PollServer.Server.Pass | test-servers/poll_server.cpp:73-107 | told from what was ready: each ready connection is received from and then waits to write, or is replied to and gone, the others are left alone, and a connection is accepted exactly if the listener is ready; the vector is the listener and the connections in accept order without duplicates; the actions are legal for the connection machine and no connection takes two of them in a pass |
| PollServer.ErasedAreSurvivors | test-servers/poll_server.cpp:104-106 | erasing by descriptor after the loop removes exactly the connections that were replied to |
| EpollServer.RestStaysMeant | test-servers/epoll_server.cpp:79-105 | after any part of a batch every report not yet handled names an open descriptor registered as it was reported, even when accept has reused a number closed in the batch |
| EpollServer.Server.Pass | test-servers/epoll_server.cpp:74-105 | told from the answer: each connection reported without a fault is received from and then waits to write, or is replied to and deregistered, unless its number was accepted again; the others are left alone, and a connection is accepted exactly if the listener is reported without a fault; all actions are legal for the connection machine, and exactly the open connections are registered in their phases |

## Left out

- Socket creation, bind, listen and option setting (lib/src/Sockets.cpp:35-80): system calls that keep no state of the program.
- Failing `accept`, `read` and `write` in the echo servers: `accept` is taken to succeed when it is called (the program does not look at its result), and a thrown read or write error ends the run; the socket classes do state what a failure does.
- EventLoop.Loop.Run: `run` is observed for finitely many iterations, any number of them, because a run need not end.
- EchoServer.Server.Run: it stops at a turn whose choices the kernel could not make at that moment; every actual run is described by turns without such a one.
- Backends.Epoller.ExtractAll: error and hang-up bits are one flag; for `select` a descriptor in fault simply counts as ready.
- Backends.IOManager.Register: `select` is asked only for descriptors below FD_SETSIZE, beyond which FD_SET is undefined, and a tracker is not asked for -1.
- The widths of `int`, `long` and `long long`: integers are unbounded, since seconds and nanoseconds here stay far below the limits; the clock is taken to be monotone.
- The poll timeout: the program always passes zero.
- The `ready` flag of an I/O event (lib/src/IOEventContainer.cpp:18): it is set and never read.
- Object addresses: sockets and events get identities that are never reused, so a use of a deleted one cannot be masked by a later allocation.
- The uninitialized `revents` of new poll entries: `poll` overwrites them before they are read.
- Payloads, counters and printing in the two hand-written servers: they share one buffer between connections, so payload isolation does not hold for them.
- Threads (main.cpp:82-111) and the multithreaded servers: each loop owns all its state; those servers repeat the single-threaded bodies.
- Blocking servers, Boost.Asio servers and clients, the Python clients, and lib/inc/Selector.h, an older version of the same selector.
