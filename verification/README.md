# Event queue, frame codec and path policy: a verified model

This project models three components of the repository in Dafny and proves what their code
keeps over every input and every run. `dafny verify dfyconfig.toml` checks it.

**The event queue** (`src/lib/base`). Producers store events under recycled ids and post the ids to
a separately locked buffer; one consumer pops an id and then, under another lock, removes its event.
Timers are relative countdowns in a heap that every check decrements in place against a shared
stopwatch. `EventMachine.dfy` is the interleaved state machine, one label per atomic step;
`EventHistory.dfy` records what a run has done and refines it to one FIFO, `EventOrder.dfy` and
`EventRuns.dfy` hold the whole-run theorems. `Timers.dfy` is the timer machine on the heap and its
refinement to a table of timers; `TimerRuns.dfy` and `TimerKinds.dfy` hold the whole-run theorems. `EventQueue.dfy` is
the class itself, whose methods are proved to take steps of those two machines; `QueueSpec.dfy`
says what a getEvent call must do, `LoopSpec.dfy` what the main loop must do, `LoopLedger.dfy` how
often it dispatches and frees each event and `LoopTimers.dfy` what its timers do meanwhile, through the theory of runs in `Chains.dfy`. `SimpleEventQueueBuffer.dfy` and `PriorityQueue.dfy`
are the two containers, with their loops.

**The RDFT frame codec** (`product/starter/src/FrameCodec.cpp`). `FrameCodec.dfy` has the printer and the
incremental parser on byte arrays and buffers, with 64-bit arithmetic written out.
`FrameLayout.dfy` states the format byte by byte and which buffers are refused for which reason;
`FrameStream.dfy` proves what both mean for a byte stream, through the theory of incremental
decoders in `Draining.dfy`.

**The path policy** (`product/starter/src/PathPolicy.cpp`). `PathPolicy.dfy` has the validator and the
lexical join, `PathRules.dfy` states which path is refused for which reason; `Paths.dfy` splits,
joins and cleans component lists.

## Where the code and its documentation differ

The model follows the code. Each difference is stated as a theorem.

- `IEventQueue.h:104` says that the count in a one-shot timer's event is always 1. It is 1 exactly when
  the check comes before a second duration has gone by (`TimerRuns.OneShotCountIff`,
  `TimerRuns.LateOneShotCountsTwo`).
- `IEventQueue.h:59-63` says that `getEvent` returns true if and only if an event was available. When the
  buffer answers Unknown, `processEvent` starts over and drops what that attempt reports, so the
  event can be filled in and false returned. That happens exactly when an attempt after the
  first finds the event (`UnknownAnswer.ReplyIsTruthfulIff`); with the simple buffer and one
  consumer it cannot (`EventRuns.ConsumerGetsOldest`).
- `IEventQueue.h:75-78` says that `addEvent` adds to the end of the queue. `loop` announces readiness
  before it drains the events that waited for it, so a producer that runs in between overtakes
  them. Order is kept exactly when no event overtakes another, neither of them refused or discarded
  (`EventOrder.OrderKeptIff`, `EventOrder.OvertakingHappens`).
- `adoptBuffer` destroys the old buffer and restarts ids at 0. It is safe exactly while the consumer
  neither waits for the buffer nor is between finding it non-empty and removing the event
  (`EventMachine.AdoptKeepsIff`, `EventRuns.AdoptLosesInHand`).
- A timer never fires early by the clock readings the queue takes, but `Arch::time()` drops the fraction
  of a second. In real time a timer never fires early exactly when the fraction dropped at arming
  is no more than its duration lacks to whole seconds (`TimerRuns.OnTimeIff`,
  `TimerRuns.NeverEarlyInRealTime`, `TimerRuns.EarlyOtherwise`); at worst it is early by less than a
  second (`TimerRuns.EarlyByLessThanASecond`).
- `saveEvent` overwrites a stored event exactly when 2^32 events are stored (`EventStore.SaveIsFreshIff`).

## Model

| member | source | states |
|---|---|---|
| EventStore.SaveAllocates | src/lib/base/EventQueue.cpp:305-321 | While fewer than 2^32 events are stored, an id not in use is chosen, live and free ids stay disjoint and without repeats, and together stay exactly 0..n-1 for n the peak of stored events |
| EventStore.SaveIsFreshIff | src/lib/base/EventQueue.cpp:313-319 | In an allocated store, the chosen id is unused if and only if fewer than 2^32 events are stored |
| EventStore.RemoveAllocates | src/lib/base/EventQueue.cpp:323-339 | Removing a stored event gives its id back and keeps the allocation of ids and their number |
| EventMachine.StepKeeps | src/lib/base/EventQueue.cpp:47-97 | Every atomic step of producers, consumer and loop keeps the invariant: the ids in hand, in the buffer and being saved are exactly the stored ones, each once, and the ready flag says whether the buffer holds any |
| EventMachine.AdoptKeepsIff | src/lib/base/EventQueue.cpp:72-97 | Replacing the buffer keeps the invariant if and only if the consumer neither waits for the buffer, nor has just seen it non-empty, nor holds an id |
| EventMachine.RunInv | src/lib/base/EventQueue.cpp:99-211 | Every machine state reached by any interleaving satisfies the invariant |
| EventMachine.TakenFromFlight | src/lib/base/EventQueue.cpp:143-147 | Removing the event of the popped id takes exactly the oldest event in flight |
| EventMachine.StoredIsLive | src/lib/base/EventQueue.cpp:305-339 | As many events are stored as are in hand, in the buffer and being saved; with nothing being saved, as are in flight |
| EventHistory.RunTraced | src/lib/base/EventQueue.cpp:72-211 | In every run, also through refusals and adopted buffers, the events stored and not lost are the posted ones and those being saved, the posted ones are the delivered ones and those in flight, those deferred are the pending queue, and the ids issued number the peak of stored events |
| EventHistory.FifoRefined | src/lib/base/EventQueue.cpp:126-147 | Table, free ids and id buffer refine one FIFO: what was posted and not discarded is what was delivered followed by what is in flight, in order, in every interleaving |
| EventRuns.ConsumerGetsOldest | src/lib/base/EventQueue.cpp:126-147 | With one consumer the buffer never answers Unknown after it was seen non-empty, and the event taken is the oldest posted and undelivered one |
| EventRuns.HeldIdNotReissued | src/lib/base/EventQueue.cpp:126-147 | In every run, an event stored while an id is popped and not yet removed gets another id, and never one in use |
| EventRuns.AdoptLosesInHand | src/lib/base/EventQueue.cpp:89-90 | Replacing the buffer while an id is in hand makes the consumer receive a default event instead of the stored one |
| EventOrder.OrderKeptIff | src/lib/base/EventQueue.cpp:50-61 | In every run, the events not lost go to the consumer in the order of the addEvent calls if and only if none of them was stored while an earlier one of them was pending; events are told apart by their calls, so equal ones are no exception |
| EventOrder.EachOnItsWayOnce | src/lib/base/EventQueue.cpp:47-211 | In every run, what was delivered, is in flight, is being saved and is pending are exactly the accepted events neither refused nor discarded by adoptBuffer, each once |
| EventOrder.AddedInOrder | src/lib/base/EventQueue.cpp:47-211 | Unless overtaken, they come in the order of the addEvent calls, over refusals and adopted buffers |
| EventOrder.OvertakingHappens | src/lib/base/EventQueue.cpp:50-61 | A run in which an event added after the readiness flip is posted before one added earlier |
| EventRuns.StepConserves | src/lib/base/EventQueue.cpp:188-211 | Each step changes the number of copies held by what it accepts less what it frees |
| EventRuns.FreedExactlyOnce | src/lib/base/EventQueue.cpp:56-90 | Over every run, how often an event with freeable data was accepted equals the copies held pending, in the table or in hand plus the number of times it was freed |
| EventRuns.OthersNeverFreed | src/lib/base/Event.h:75-92 | Over every run, the data of Unknown, Quit, System and Timer events, and of events whose flag bit 1 is set, is never freed |
| EventQueues.EventQueue.constructor | src/lib/base/EventQueue.h:102-124 | A new queue is in the initial state of both machines |
| EventQueues.EventQueue.SaveEvent | src/lib/base/EventQueue.cpp:305-321 | The in-place table and free list become those of the store after saving, under the id it chooses |
| EventQueues.EventQueue.RemoveEvent | src/lib/base/EventQueue.cpp:323-339 | The stored event or a default one is returned, and the store becomes the one without it |
| EventQueues.EventQueue.DeleteData | src/lib/base/Event.h:75-92 | By type and flag bits: exactly the data of events that are not Unknown, Quit, System or Timer and whose bit 1, keep the data, is clear is freed |
| EventQueues.EventQueue.AddEventToBuffer | src/lib/base/EventQueue.cpp:198-211 | The event ends up last in flight, or is taken out again and its data freed if the buffer refuses; either way the machine steps store then post or refuse |
| EventQueues.EventQueue.AddEvent | src/lib/base/EventQueue.cpp:175-196 | By type and flag bits: Unknown, System and Timer events change nothing; with bit 0 set only the data is freed, unless bit 1 is set or the event is a Quit; the rest is put last among the pending or, once ready, last in flight; and the machine steps as it says |
| QueueSpec.AddsInTurn | src/lib/base/EventQueue.cpp:175-196 | What a number of addEvent calls queue, defer and free is what each does by its type and flag bits, one after another |
| EventQueues.AddFrees | src/lib/base/EventQueue.cpp:175-196 | What addEvent frees is what the ledger over whole runs enters for it |
| EventQueues.AdoptFrees | src/lib/base/EventQueue.cpp:83-90 | What adoptBuffer frees is what the ledger over whole runs enters for it |
| EventQueues.EventQueue.AdoptBuffer | src/lib/base/EventQueue.cpp:72-97 | Everything stored is freed once per copy and the machine restarts with the given buffer or a new empty one, keeping what is pending; the queue is valid again if and only if that buffer holds no ids |
| EventQueues.EventQueue.DrainPending | src/lib/base/EventQueue.cpp:56-61 | The pending events join those in flight, behind them and in order |
| EventQueues.EventQueue.NewTimer | src/lib/base/EventQueue.cpp:213-245 | A creation step of the timer machine, for both kinds of timer; what is then served is stated by TimerKinds.ServedAsCreated |
| EventQueues.EventQueue.DeleteTimer | src/lib/base/EventQueue.cpp:247-260 | The loop's first match is erased and the timer forgotten: a deletion step of the timer machine |
| EventQueues.EventQueue.HasTimerExpired | src/lib/base/EventQueue.cpp:341-379 | A check step of the timer machine; it reports exactly when a countdown has run out, with the timer's id, target and count, and otherwise leaves only positive countdowns |
| EventQueues.EventQueue.TakeEvent | src/lib/base/EventQueue.cpp:126-147 | The oldest event in flight is returned and taken out |
| EventQueues.EventQueue.CheckTimers | src/lib/base/EventQueue.cpp:103-123 | One turn reports a timer, gives up because the caller's time is up, or waits until the earliest deadline |
| EventQueues.EventQueue.AwaitEvent | src/lib/base/EventQueue.cpp:101-124 | The loop waits only with nothing in flight, each wait to the earliest deadline; it ends with a user event exactly when one is in flight, also one that came during a wait |
| EventQueues.EventQueue.ProcessEvent | src/lib/base/EventQueue.cpp:99-153 | The whole call: turns that wait only with nothing in flight, each to the earliest deadline, then the oldest event in flight if there is one, counting those that came during the waits, and otherwise the event of a timer the last check served, the end of the caller's time, or still waiting at the end of the script |
| EventQueues.EventQueue.GetEvent | src/lib/base/EventQueue.cpp:155-159 | The same, and what it amounts to: an event is reported exactly when it was filled in, what came meanwhile is queued in order and only if nothing was in flight, and the call gives up only on a non-negative timeout |
| QueueSpec.GotMeans | src/lib/base/EventQueue.cpp:99-159 | Of any call: what came during its waits is added behind what was in flight, nothing comes unless nothing was, the oldest event then in flight is taken, and a call that reports nothing has used its whole script or the caller's time |
| EventQueues.EventQueue.CallTimers | src/lib/base/EventQueue.cpp:213-260 | A handler's newTimer and deleteTimer calls are one run of the timer machine |
| EventQueues.EventQueue.Dispatch | src/lib/base/EventQueue.cpp:66-67 | What the handler adds is queued behind what is in flight, and then exactly the event's own data is freed, if it is of no type of the queue's own and bit 1 of its flags is clear |
| EventQueues.EventQueue.LoopRound | src/lib/base/EventQueue.cpp:64-69 | One round is a getEvent call, then its handler, then the event's data freed; or the loop ends in that call, with a Quit or still waiting |
| EventQueues.EventQueue.RunLoop | src/lib/base/EventQueue.cpp:63-69 | Round after round, each following its script, until a Quit that getEvent hands over or a script that runs out |
| EventQueues.EventQueue.Loop | src/lib/base/EventQueue.cpp:47-70 | From what is in flight and then pending, a run of rounds that ends in a Quit, a wait or the end of the scripts; its user events are dispatched in order, each once and none before it arrives, timer events and waits come only when every user event that is there has been dispatched, and nothing is dispatched from the first Quit on. Event by event, the data freed is what was dispatched and what was added for immediate delivery, and what was in flight or entered the queue is dispatched, the ending Quit or still in flight |
| QueueSpec.WaitIsEarliest | src/lib/base/EventQueue.cpp:108-123 | The computed wait is the least of the caller's remaining time and every timer's, positive, and negative only when there is neither |
| LoopSpec.RoundsTrace | src/lib/base/EventQueue.cpp:63-69 | Any run of rounds dispatches user events in order of arrival, waits and reports timers only when all that are there were dispatched; the order in which it frees data, which LoopLedger.LoopFrees counts |
| LoopLedger.LoopFrees | src/lib/base/EventQueue.cpp:64-68 | For every event: if it is of no type of the queue's own and flag bit 1 is clear, its data is freed once for each time it was dispatched and, with bit 0 set, once for each time it was added; otherwise never |
| LoopLedger.LoopAccounts | src/lib/base/EventQueue.cpp:47-70 | For every event: how often it was in flight at the start or was added and let in is how often it was dispatched, is the ending Quit or is still in flight |
| LoopSpec.LoopEndMeans | src/lib/base/EventQueue.cpp:64-69 | The Quit that ends the loop is the oldest event then in flight; a loop that ends in a wait has used its whole script and has nothing in flight |
| LoopTimers.LoopTiming | src/lib/base/EventQueue.cpp:63-69 | In any run of rounds the checks of each script and the handlers' timer calls are one run of the timer machine, and the timer events dispatched go, in order, to the targets of the timers that run serves |
| LoopTimers.HandlersCall | src/lib/base/EventQueue.cpp:66 | In every round all the handler's newTimer and deleteTimer calls are made, between the getEvent call and the next round |
| LoopTimers.CallsListed | src/lib/base/EventQueue.cpp:63-69 | The loop's timer run lists, round by round, the clock readings of exactly the turns that waited and of the one that found a timer, and then the handler's calls |
| LoopSpec.AheadOfFirstQuit | src/lib/base/EventQueue.cpp:65-69 | What has been dispatched when the loop ends is exactly the events ahead of the first Quit |
| LoopSpec.OneForOneHasRoom | src/lib/base/EventQueue.cpp:198-211 | If no more than 2^32 events are in flight at the start or come in any one wait, handlers that queue at most one event each never run out of ids, however long the loop runs |
| QueueSpec.WaitedArrivals | src/lib/base/EventQueue.cpp:101-124 | Events that came during several waits are queued one after another |
| QueueSpec.TakeOldestKeeps | src/lib/base/EventQueue.cpp:126-147 | Look, pop and remove together take the oldest event in flight and keep the invariant |
| SimpleBuffer.ReversedPopBack | src/lib/base/SimpleEventQueueBuffer.cpp:51-52 | The back of the deque is the oldest id |
| SimpleBuffer.SimpleEventQueueBuffer.AddEvent | src/lib/base/SimpleEventQueueBuffer.cpp:57-66 | An id is queued last and the ready flag set |
| SimpleBuffer.SimpleEventQueueBuffer.GetEvent | src/lib/base/SimpleEventQueueBuffer.cpp:45-55 | The oldest id is popped, or Unknown answered exactly when there is none; the flag keeps meaning non-empty |
| SimpleBuffer.SimpleEventQueueBuffer.IsEmpty | src/lib/base/SimpleEventQueueBuffer.cpp:68-72 | The flag's answer is whether ids are queued |
| SimpleBuffer.SimpleEventQueueBuffer.WaitForEvent | src/lib/base/SimpleEventQueueBuffer.cpp:29-43 | The wait returns at the first wake-up with an id queued or a non-negative timeout outlasted, at once if an id is there, and loses no id posted meanwhile |
| TimerHeap.FrontIsLeast | src/lib/base/PriorityQueue.h:107-111 | The front of a heap has the least remaining time |
| TimerHeap.CountdownKeepsHeap | src/lib/base/EventQueue.cpp:354-357 | Decrementing every countdown by the same amount keeps heap order without re-heapifying |
| TimerHeap.PriorityQueue.Push | src/lib/base/PriorityQueue.h:46-50 | Heap order is kept and exactly the timer is added |
| TimerHeap.PriorityQueue.Pop | src/lib/base/PriorityQueue.h:53-57 | Heap order is kept and exactly the front is removed |
| TimerHeap.PriorityQueue.Erase | src/lib/base/PriorityQueue.h:60-64 | Heap order is restored and exactly the given entry is removed |
| TimerHeap.PriorityQueue.CountDown | src/lib/base/EventQueue.cpp:354-357 | Every entry is counted down once, in place |
| Timers.StepTable | src/lib/base/EventQueue.cpp:213-260 | Each step on the heap is the step on a table that holds each live timer at most once and no other, so erasing the first match is enough |
| Timers.ServedPicks | src/lib/base/EventQueue.cpp:359-366 | A check serves an expired timer with the least countdown, and none only if none has expired |
| Timers.RunValid | src/lib/base/EventQueue.cpp:213-379 | In every reachable state the queue is a heap that holds each live timer at most once |
| Timers.HeapRefinesTable | src/lib/base/EventQueue.cpp:213-379 | Every run of the heap machine is a run of the table machine that serves the same timers |
| TimerRuns.RefinesDeadlines | src/lib/base/EventQueue.cpp:213-379 | The shared relative countdown behaves as a scheduler of absolute deadlines: an event is reported exactly when a deadline has passed, for an earliest one, also across checks that skip the reset |
| TimerRuns.NeverEarly | src/lib/base/EventQueue.cpp:346-376 | In every run on a clock that does not go back, an event is reported only once the full duration has passed since the timer was created or last reported |
| TimerRuns.FiringCount | src/lib/base/EventQueue.cpp:458-465 | Each event's count is the whole periods since arming, net of the clock movement inside checks, and at least 1 |
| TimerRuns.CountsAddUp | src/lib/base/EventQueue.cpp:350-376 | Over a whole run, counts times the period sum to at most the elapsed time, short by less than one period an event |
| TimerRuns.OneShotCountIff | src/lib/base/IEventQueue.h:99-110 | In every run the count reported is 1 if and only if the check comes before a second duration has gone by since arming, net of the clock movement inside checks |
| TimerRuns.LateOneShotCountsTwo | src/lib/base/EventQueue.cpp:458-465 | A run in which a one-shot timer reports count 2 |
| TimerRuns.CountFitsIff | src/lib/base/EventQueue.cpp:463 | In every run the count fits 32 bits if and only if the check comes before 2^32 periods have gone by since arming, net of the clock movement inside checks |
| TimerRuns.PassedOver | src/lib/base/EventQueue.cpp:350-376 | A check that serves another timer leaves an overdue one overdue, with strictly fewer timers ahead of it |
| TimerRuns.BoundedBypass | src/lib/base/EventQueue.cpp:341-379 | From any moment of any run on a clock that does not go back, an overdue timer is served within as many checks as there are timers at or below its countdown, and each check until then reports an event, however far the clock moves and whatever timers come and go |
| TimerRuns.DeletedStaysSilent | src/lib/base/EventQueue.cpp:247-260 | After deleteTimer no check reports the timer until its address is handed out again |
| TimerRuns.OneShotServedOnce | src/lib/base/EventQueue.cpp:373-376 | A one-shot timer is reported at most once |
| TimerKinds.QueuedIff | src/lib/base/EventQueue.cpp:213-260 | In every run, after the last newTimer or newOneShotTimer call for an address a timer with that target, period and kind is queued if and only if it has been neither deleted nor, as a one-shot, reported since |
| TimerKinds.ServedAsCreated | src/lib/base/EventQueue.cpp:213-245 | Every timer reported in a run has the period and kind that the last creation of its address asked for, and its target, which is the timer itself when none was given |
| TimerKinds.PeriodicServedAgain | src/lib/base/EventQueue.cpp:359-376 | In every run on a clock that does not go back, a timer created as periodic and not deleted is reported each time its deadline has passed, within as many checks as timers are queued |
| TimerRuns.OnTimeIff | src/lib/arch/Arch.cpp:52-57 | With whole-second readings a timer armed at a real instant never fires early if and only if the fraction of the second dropped at arming is no more than its duration lacks to whole seconds |
| TimerRuns.NeverEarlyInRealTime | src/lib/arch/Arch.cpp:52-57 | In every run a timer armed so is reported only once its full duration has passed in real time |
| TimerRuns.EarlyOtherwise | src/lib/arch/Arch.cpp:52-57 | Every other timer is reported early in some run |
| TimerRuns.EarlyByLessThanASecond | src/lib/arch/Arch.cpp:52-57 | Measured in real time a timer is early by less than one second |
| TimerRuns.FiresEarlyInRealTime | src/lib/arch/Arch.cpp:52-57 | A one second timer reported a tenth of a second after its creation |
| UnknownAnswer.ReplyIsTruthfulIff | src/lib/base/EventQueue.cpp:131-138 | The returned flag says whether an event was filled in if and only if no attempt after the first finds one |
| UnknownAnswer.ReplyMeans | src/lib/base/EventQueue.cpp:131-138 | The event filled in is that of the first attempt that finds one, and it is reported only if that is the first attempt of all |
| UnknownAnswer.InfiniteWaitDropsResult | src/lib/base/EventQueue.cpp:131-138 | With no time limit the event is always filled in, yet false is returned unless the very first answer was an event |
| FrameCodec.CheckedFrameBytes | product/starter/src/FrameCodec.cpp:37-55 | Succeeds exactly when 32 + metadata + payload fits 64 bits, and then returns that sum; no wrapped sum is ever used |
| FrameCodec.WriteBigEndian | product/starter/src/FrameCodec.cpp:15-19 | Writes exactly the bytes of ToBigEndian, the most significant first by FrameLayout.DigitAt, and touches no other byte |
| FrameCodec.CopyBytes | product/starter/src/FrameCodec.cpp:117-129 | Copies exactly the given bytes and touches no other byte |
| FrameCodec.FillFrame | product/starter/src/FrameCodec.cpp:103-131 | The cursor writes fill the resized buffer with header fields, metadata and payload in order |
| FrameCodec.Encode | product/starter/src/FrameCodec.cpp:59-132 | An acceptable frame is printed as its wire form, whose bytes FrameLayout.WireIsLaidOut fixes; any other is refused for the first reason in order, as FrameLayout.EncodeRefusals lists |
| FrameCodec.Receiver.TryDecode | product/starter/src/FrameCodec.cpp:134-238 | A frame is moved to the output and exactly its bytes removed from the buffer; every other outcome leaves both unchanged; which outcome it is, FrameLayout.DecodeAnswers and FrameLayout.DecodeYields fix |
| Bytes.ReadWritten | product/starter/src/FrameCodec.cpp:15-25 | Reading a written integer of any width gives it back |
| Bytes.WriteRead | product/starter/src/FrameCodec.cpp:15-25 | Writing an integer read from bytes gives the bytes back |
| FrameLayout.DigitAt | product/starter/src/FrameCodec.cpp:15-25 | Byte i of a k-byte integer is its digit of weight 256^(k-1-i): the most significant byte comes first |
| FrameLayout.WireIsLaidOut | product/starter/src/FrameCodec.cpp:103-131 | A byte string is the encoding of a frame if and only if it is "RDFT", then version, type, flags, metadata length, payload length and stream id at bytes 4, 6, 8, 12, 16 and 24, most significant byte first, then metadata and payload |
| FrameLayout.KnownTypes | product/starter/include/relaydesk/filetransfer/Protocol.h:75-105 | Exactly the registered message types are known |
| FrameLayout.EncodeRefusals | product/starter/src/FrameCodec.cpp:70-101 | A frame is encoded if and only if version, type, metadata size, payload size and total size are acceptable, and refused for the first of these that is not |
| FrameLayout.DecodeAnswers | product/starter/src/FrameCodec.cpp:139-214 | For every buffer, from its bytes: each of the seven errors is reported if and only if all earlier checks pass and its own does not, and more data is asked for if and only if 32 bytes are not there, or all checks pass and the frame is not |
| FrameLayout.DecodeYields | product/starter/src/FrameCodec.cpp:216-237 | A frame is yielded if and only if all checks pass and its bytes are there, and then it is the frame they lay out |
| FrameStream.DecodeWire | product/starter/src/FrameCodec.cpp:59-238 | Decoding an encoding followed by any bytes gives the frame and its exact length |
| FrameStream.DecodeCanonical | product/starter/src/FrameCodec.cpp:148-237 | The bytes removed for a frame are exactly its encoding under the same limits |
| FrameStream.FrameReadyIff | product/starter/src/FrameCodec.cpp:134-238 | A frame is yielded if and only if the buffer starts with an acceptable encoding |
| FrameStream.PrefixFree | product/starter/src/FrameCodec.cpp:70-131 | No encoding is a prefix of another frame's, so encoding is injective |
| FrameStream.DecodeStable | product/starter/src/FrameCodec.cpp:134-238 | A frame or an error stays what it was when bytes arrive behind it |
| FrameStream.NeedMoreCompletes | product/starter/src/FrameCodec.cpp:206-214 | Whenever a whole header asks for more data, some continuation completes the frame |
| FrameStream.CompletesIff | product/starter/src/FrameCodec.cpp:134-238 | Of any buffer: some continuation yields a frame if and only if the buffer starts with an acceptable encoding or is the start of one |
| FrameStream.ErrorIffHopeless | product/starter/src/FrameCodec.cpp:148-204 | A protocol error is reported if and only if 32 bytes are there and no continuation yields a frame |
| FrameStream.ProperPrefixWaits | product/starter/src/FrameCodec.cpp:206-214 | Every proper prefix of an acceptable encoding asks for more data |
| FrameStream.ChunkIndependence | product/starter/src/FrameCodec.cpp:134-238 | However a byte stream is cut, append and drain give the same frames, leftover bytes and final status |
| FrameStream.StreamRoundTrip | product/starter/src/FrameCodec.cpp:59-238 | Draining the encodings of any list of acceptable frames and a proper prefix of another gives exactly the list, then asks for more with that prefix left, in whatever chunks it arrives |
| FrameStream.StreamCanonical | product/starter/src/FrameCodec.cpp:134-238 | Whatever arrives, the bytes received are the encodings of the frames yielded followed by what is left |
| Draining.DrainResumes | product/starter/src/FrameCodec.cpp:206-237 | For every stable decoder, draining a prefix and then the rest is draining the whole |
| Draining.FeedIsDrain | product/starter/src/FrameCodec.cpp:206-237 | For every stable decoder, feeding chunk by chunk is draining their concatenation |
| Draining.DrainWires | product/starter/src/FrameCodec.cpp:206-237 | For every exact decoder, draining concatenated encodings yields their frames, then continues with the tail |
| Draining.DrainIsWires | product/starter/src/FrameCodec.cpp:206-237 | For every exact decoder, drained bytes are the encodings of the frames they gave and what is left |
| PathPolicy.NoErrorIff | product/starter/src/PathPolicy.cpp:113-171 | The component scan passes if and only if each component passes by itself |
| PathRules.AcceptedIff | product/starter/src/PathPolicy.cpp:62-179 | A path is accepted, as its normal form, if and only if it breaks none of the six rules for paths and no component breaks one of the eight for components, each rule stated by characters, sizes and names for each platform |
| PathRules.RefusedIff | product/starter/src/PathPolicy.cpp:62-179 | A path is refused with an error if and only if that is the first rule for paths it breaks or, if it breaks none, the first rule broken by the first component that breaks one |
| PathRules.AbsoluteIff | product/starter/src/PathPolicy.cpp:83-84 | Which paths count as absolute on either host, by their first characters |
| PathPolicy.AcceptedComponents | product/starter/src/PathPolicy.cpp:113-171 | Every component of an accepted path is non-empty, not a dot name and without a colon, on every platform |
| PathPolicy.AcceptedIsRelative | product/starter/src/PathPolicy.cpp:79-87 | The normal form of an accepted path is still relative |
| PathPolicy.RevalidationIsStable | product/starter/src/PathPolicy.cpp:62-179 | Validating an accepted path's normal form accepts it unchanged |
| PathPolicy.PortableIsEverywhere | product/starter/src/PathPolicy.cpp:140-170 | Portable and Windows validation agree on every input, and what Portable accepts is accepted everywhere with the same normal form |
| PathPolicy.CleanPathIsClean | product/starter/src/PathPolicy.cpp:202-204 | A cleaned absolute path is its root followed by clean components |
| PathPolicy.CleanPathFolds | product/starter/src/PathPolicy.cpp:202-204 | Cleaning keeps the root and folds the components behind it |
| PathPolicy.CleanPathDropsParent | product/starter/src/PathPolicy.cpp:202-204 | Cleaning takes away a plain component followed by "..", whatever stands around them |
| PathPolicy.CleanPathParent | product/starter/src/PathPolicy.cpp:202-204 | "/srv/in/../out" and every path of that shape becomes "/srv/out" |
| PathPolicy.CleanIsFixed | product/starter/src/PathPolicy.cpp:53 | Cleaning what is clean changes nothing |
| PathPolicy.CleanExtended | product/starter/src/PathPolicy.cpp:203-204 | Cleaning a clean root joined with plain components is concatenation of components |
| PathPolicy.ContainedIff | product/starter/src/PathPolicy.cpp:209-215 | The string containment test holds if and only if the root is the same and its components are the candidate's first ones |
| PathPolicy.InsideIff | product/starter/src/PathPolicy.cpp:51-58 | Between clean paths the whole test is containment of components, and for Windows the string test on the case-folded paths |
| PathPolicy.FoldedContained | product/starter/src/PathPolicy.cpp:51-58 | Case folding cannot make a joined path fail the containment test |
| PathPolicy.JoinIsClean | product/starter/src/PathPolicy.cpp:202-204 | The joined candidate is the cleaned root, a separator and the normal form, and cleaning leaves it so |
| PathPolicy.JoinStaysInside | product/starter/src/PathPolicy.cpp:202-215 | The candidate of an accepted path passes the containment test on every platform, with or without case folding |
| PathPolicy.ValidationErrors | product/starter/src/PathPolicy.cpp:62-179 | Validation itself never answers RootNotAbsolute or EscapesRoot |
| PathPolicy.JoinLexicallyUnderRoot | product/starter/src/PathPolicy.cpp:181-223 | EscapesRoot is never returned; RootNotAbsolute exactly for a root that is not; otherwise the result is the validator's, which PathRules.AcceptedIff and PathRules.RefusedIff fix, and the output is the cleaned root, a separator and the normal form, and empty on every refusal |
| PathPolicy.JoinIsInjective | product/starter/src/PathPolicy.cpp:203-221 | Under one root, distinct normal forms are joined to distinct outputs |
| PathPolicy.JoinedComponents | product/starter/src/PathPolicy.cpp:202-221 | The output's components are the cleaned root's followed by the path's |
| Paths.SplitParts | product/starter/src/PathPolicy.cpp:102-103 | The parts of a split hold no separator and join to the string again |
| Paths.SplitJoined | product/starter/src/PathPolicy.cpp:102-103 | Splitting joined components gives them back |
| Paths.JoinedPrefixIff | product/starter/src/PathPolicy.cpp:214-215 | A joined path and a separator begin another if and only if its components properly begin the other's |
| Paths.FoldedIsClean | product/starter/src/PathPolicy.cpp:202-204 | Folding components over a stack leaves no empty or dot component, and ".." only at the front where the host keeps it |
| Paths.FoldedKeeps | product/starter/src/PathPolicy.cpp:53 | Folding clean components changes nothing |
| Paths.FoldedLast | product/starter/src/PathPolicy.cpp:202-204 | What each component adds to the fold of those before it: a plain one itself, an empty one or "." nothing, and ".." takes the last plain one away |
| Paths.ParentUndoes | product/starter/src/PathPolicy.cpp:202-204 | ".." undoes the plain component before it, wherever the two stand |

## Left out

Assumptions the theorems rest on are listed here with what the model does not do.

- Handler registration and lookup, `waitForReady`, platform initialisation and logging: plain map operations and I/O. A handler is the list of addEvent calls made until it returns, by itself or by other threads, and of its newTimer and deleteTimer calls, which may depend on the event and on how many were dispatched; calls made by the handler of an event delivered at once count as made by the outer handler.
- Real threads, mutexes and condition variables: the machine interleaves atomic steps. Saving an event and posting its id are two steps, between which the lock keeps other producers and the removal out; popping an id and removing its event are two. addEvent's test of readiness and its push to the pending queue are one step.
- Platform buffers (Windows, X11, macOS): only the interface's contract is used, that they may refuse an id or answer Unknown. System events of such buffers are not part of the machine.
- EventQueues.EventQueue.AdoptBuffer: a given buffer is a simple one; the class has no other kind.
- EventQueues.EventQueue.ProcessEvent: takes the clock readings of its turns and the events that come during each wait as a script; when the script ends the caller is still blocked in the wait. While it waits no other thread creates or deletes timers; the timer machine's own runs have no such limit.
- EventQueues.EventQueue.Loop: with the simple buffer and for a bounded number of events, one script each. It asks that at no point it can reach more than 2^32 events are in flight, the limit of `saveEvent`, and that handlers create timers at free addresses and delete existing ones. Interleaving inside the calls is covered by the machine's runs.
- TimerHeap.PriorityQueue.Push: any heap order may result; the sift used here is one implementation of the standard library's.
- Timers use reals: the rounding of doubles is not modelled. The count is an unbounded integer, with the condition under which its 32-bit cast is exact. The stopwatch appears as its last reset and the readings taken.
- TimerRuns.NeverEarly: asks that clock readings do not go back, as a steady clock's do not.
- TimerRuns.BoundedBypass: asks the same; a reading before the last reset would give an overdue timer time again.
- Timer addresses come from the caller of `NewTimer`, as fresh from those in use; freed memory is the list of events whose data was freed.
- Unicode normalization, UTF-8 length, upper case and case folding are functions about which only the laws in `NfcLaws` and `FoldLaws` are assumed: normalization is idempotent and makes no backslash; folding works piecewise and keeps the separator. Strings are sequences of characters rather than UTF-16 units.
- Network and resource roots, and drive letters without a slash, in Qt's absolute-path test and path cleaning. What cleaning does with ".." above the root differs between Qt versions and is a parameter.
- Diagnostic strings of both RelayDesk components and `consumedBytes` of a failed decode, which is always 0.
