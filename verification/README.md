# IOC, modelled in Dafny

IOC carries events, commands and data between objects of a C program. An object either posts events to whoever has
subscribed (ConlesMode), or connects to a service and talks over a link, whose two ends meet inside one process (the
FIFO protocol) or over a socket (the TCP protocol). This project models the stateful parts of that library and proves
what they keep. `dafny verify dfyconfig.toml` checks it.

| file | what it models |
|---|---|
| `ConlesEngine.dfy` | posting, subscribing and the processing thread, as interleaved atomic steps |
| `SuberTable.dfy`, `EvtDescQueue.dfy` | the subscriber table and link state, the 64-slot event ring, updated in place |
| `FifoRendezvous.dfy`, `LinkRole.dfy` | connect, accept and close as interleaved atomic steps; role negotiation |
| `CmdPolling.dfy`, `PollingRpc.dfy` | the two command rings of a link; runs of the polling RPC over them |
| `FifoEvents.dfy`, `CallbackBatch.dfy` | event callbacks and the pull queue; the batch buffer and its flush |
| `BatchRaces.dfy` | the batch buffer as its threads use it: additions and the two halves of flushes, interleaved |
| `ByteRings.dfy` | the circular byte buffers of both protocols, proved against one ring |
| `RingRaces.dfy` | the FIFO buffer as its threads use it: stores without a lock, in single steps, against the reader |
| `Bytes.dfy`, `TcpWire.dfy`, `TcpLink.dfy`, `TcpRuns.dfy` | the frame format, the socket loops and receiver thread, whole streams and commands end to end |
| `TcpReads.dfy` | polling reads of a TCP link, interleaved with its receiver thread and the starts of commands |
| `CmdPayload.dfy`, `CmdStatus.dfy` | command payloads, embedded or on the heap; the status lifecycle |
| `ObjTables.dfy`, `TimeSpec.dfy`, `Options.dfy` | service and link tables; time differences; option modes |
| `Slots.dfy` | slot counting and circular queues, shared by the tables and rings above |

Where the code takes a mutex, the model has an owner field or makes the critical section one step. The FIFO protocol's
store takes none (Source/_IOC_SrvProtoFifo.c:993-995, 1346-1352); its loads and write-backs are separate steps in
`RingRaces.dfy`. Callbacks are recorded calls or functions given from outside. Time, the network's cutting of a stream and the allocator's addresses are
inputs the proofs hold for all values of. Every run considered is finite and arbitrary: nothing is claimed about
liveness.

## What turned out not to hold

Each of these is stated with the exact condition under which the code does what one would expect.

- A post that may block, made by the processing thread from a callback while the ring is full, never ends: it waits for
  room that only its own thread could make, and with it the whole engine stands still for ever. Nothing else brings what
  is under way to rest before it is done (`StuckIff`, `SelfBlockReachable`).
- A FIFO connect can report an incompatible usage although the roles fit: exactly when the service's side has closed the
  new link before the client's check (`ConnectSucceedsIff`, `EarlyCloseReportsIncompatible`).
- FIFO connect looks at its peer twice, at its check and at the assertion behind it, under no mutex that closing takes. The
  assertion holds, and a connect that reports success has a peer, exactly as long as no close severs the link in between
  (`SecondAssertionHoldsIff`, `AssertionHoldsIffNotSevered`); there is a run in which it fails, and in a build without
  assertions returns success without a peer (`CloseBetweenLoadsFailsAssertion`, `SuccessWithoutPeer`).
- A close whose trylock fails leaves an open peer pointing at a freed link, and nothing else does
  (`DanglingIffTryLockFailed`, `FailedTryLockLeavesDangling`).
- The FIFO polling buffer is stored to without the lock its reader holds. Over any interleaving it stays a ring and
  conserves its bytes exactly when no copy goes to an end that has moved, or over bytes come in since the check, and no
  count written back is stale (`SoundThroughoutIff`): between a store's load of the count and its write-back no read may
  take bytes (`CountWindowIff`), and between its load of the end and its copy no other store may copy (`CopyWindowIff`).
  One sender and one reader suffice to break it (`ReadDuringStoreBreaksRing`), and so do two senders
  (`TwoSendersOverwrite`); with store and read excluding each other it holds (`ExclusiveRunsConserve`).
- With several polling execs under way, the one that finds its response drops whatever was queued before it
  (`ScanSparesIff`, `OverlappingExecsLoseResponse`); over any run an exec can get its first response exactly when no
  other's scan has passed over one of its own (`ServedFirstIffNotSkipped`).
- A FIFO post reports success although the pull queue was full and the event is gone; all reported events are queued
  exactly when no post found the queue full (`AllReportedQueuedIff`, `FullQueueLosesReported`).
- An addition accepted between the two halves of a batch flush is written over the bytes the callback is about to read
  (`FlushDeliversTakenIff`, `AddDuringFlushClobbers`). Over any run, what is delivered and held is what was accepted
  exactly when no addition overwrites taken bytes with others and no flush's callback overtakes another's with other
  bytes (`BatchRaces.SoundThroughoutIff`, `AddedDuringFlush`, `OvertakenFlush`).
- A TCP answer is there for exec only until the receiver thread leaves an error: if the peer closes right after answering
  and the thread sees that first, exec drops the answer and ends in FAILED. It ends with the answer exactly if no error has
  come in by the time it looks (`AnswerTakenIff`, `AnswerComesBack`, `CommandOverTcp`, `CloseAfterAnswerLosesIt`).
- A TCP exec is not woken when the stream breaks within data or a command: it stays until its own time is up (`WokenIff`).
- TCP data buffered when the stream breaks cannot be read any more, until a command is started on the link, which clears
  the error (`AllReachesReaderIff`, `ReadableAfterStreamIff`, `SentAndClosedIsLost`).
- A TCP frame of 2^32 bytes or more is not received as sent, its length field being 32 bits wide: neither data
  (`DataReceivedIffFits`, `DataOfTwoToThe32Skipped`) nor a command's payload (`RequestReceived`, `ResponseReceived`). A
  request then arrives without its payload and a response with a cut one, and the rest of the payload is parsed as frames
  (`LongRequestArrivesBare`, `LongResponseCut`).
- A TCP command callback that leaves the OUT payload alone answers with the initiator's own address if that payload was on
  the initiator's heap, and nothing in its process backs it (`LeftPayloadAnswerableIff`, `ReusedDescriptorUnanswerable`).
- A TCP response whose payload frame is cut off leaves a payload that nothing in this process backs
  (`CutResponseUnreadable`).
- A link ID is looked up by its low 32 bits (`FoundIsAskedForIff`).
- The time differences check the order of the seconds only, and wrap round for readings out of order within a second
  (`DeltaWrapsIff`, `BackwardsWithinSecondWraps`).

## Model

| member | source | states |
|---|---|---|
| `ConlesEngine.DeliveredInAcceptedOrder` | Source/_IOC_ConlesEvent.c:477-516 | in every reachable state the events delivered are a prefix of the events accepted, synchronous posts included |
| `ConlesEngine.AtMostOneDelivery` | Source/_IOC_ConlesEvent.c:342-402 | at most one delivery is in progress, IsInCbProc is set exactly while its callbacks run, and Main is the CbProc > Sub > Unsub > Ready priority of the flags |
| `ConlesEngine.SyncPostDeliversIffDrained` | Source/_IOC_ConlesEvent.c:865-925 | a synchronous post goes on to deliver exactly when the ring is empty and the thread idle, whatever the two counters were when loaded |
| `ConlesEngine.SyncPostInCallbackForbidden` | Source/_IOC_ConlesEvent.c:779-784 | a synchronous post made from a processing-thread callback returns FORBIDDEN and never delivers |
| `ConlesEngine.ForbiddenIff` | Source/_IOC_ConlesEvent.c:779-784 | a post is answered FORBIDDEN if and only if it is synchronous and finds the processing thread calling back |
| `ConlesEngine.NoConsumerIff` | Source/_IOC_ConlesEvent.c:786-792 | a post is answered NO_EVENT_CONSUMER if and only if nobody is registered, and otherwise goes on in its own mode |
| `ConlesEngine.AsyncPostAnswered` | Source/_IOC_ConlesEvent.c:795-862 | each try of an asynchronous post: accepted exactly with room in the ring, TOO_MANY exactly when full and non-blocking, TIMEOUT exactly when full and out of time, tried again exactly otherwise |
| `ConlesEngine.SyncPostAnswered` | Source/_IOC_ConlesEvent.c:865-925 | each try of a synchronous post: delivers exactly with nothing queued or in flight, TOO_LONG_EMPTYING_EVTDESC_QUEUE exactly otherwise when non-blocking or out of time, tried again exactly in the remaining case |
| `ConlesEngine.SubscribeAnswered` | Source/_IOC_ConlesEvent.c:543-562 | TOO_MANY exactly for a full table, CONFLICT exactly for a consumer it has otherwise, SUCCESS exactly otherwise; the consumer then listens for exactly what it named and nobody else's subscription changes |
| `ConlesEngine.UnsubscribeAnswered` | Source/_IOC_ConlesEvent.c:564-583 | the consumer then listens for nothing and all others for what they did; NO_EVENT_CONSUMER exactly if nobody is registered |
| `ConlesEngine.PostCallReturns` | Source/_IOC_ConlesEvent.c:926-929 | a post ends exactly at its return, with the result its check decided |
| `ConlesEngine.PostRuns` | Source/_IOC_ConlesEvent.c:795-812 | a post that nothing comes between is accepted, counted and returned with SUCCESS |
| `ConlesEngine.DeliveryRuns` | Source/_IOC_ConlesEvent.c:480-507 | the processing thread, undisturbed, takes the oldest event, calls back exactly its listeners, and counts it |
| `ConlesEngine.SubscribeRuns` | Source/_IOC_ConlesEvent.c:543-562 | a subscription that nothing comes between, from a callback or not, changes the table and leaves everything else |
| `ConlesEngine.UnsubscribeRuns` | Source/_IOC_ConlesEvent.c:564-583 | the same for its end |
| `ConlesEngine.StuckIff` | Source/_IOC_ConlesEvent.c:932-970 | in a reachable state no step of what is under way leads on if and only if it is done, or a may-block post made from a callback finds the ring full; in that case no step of anybody does |
| `ConlesEngine.SelfBlockReachable` | Source/_IOC_ConlesEvent.c:846-853 | there is such a run |
| `ConlesEngine.CallbacksExact` | Source/_IOC_ConlesEvent.c:342-402 | callbacks made so far plus those still owed are those the snapshots ask for, in order |
| `ConlesEngine.SnapshotsOnlyAppended` | Source/_IOC_ConlesEvent.c:356-389 | what a snapshot has collected never changes afterwards, whatever subscription changes follow |
| `ConlesEngine.ConsumerReceivesExactlyItsEvents` | Source/_IOC_ConlesEvent.c:342-402 | a consumer's callbacks are, in order and once each, the events delivered while it listened: all of them when no delivery is in progress, a prefix otherwise |
| `ConlesEngine.ReceivedOnce` | Source/_IOC_ConlesEvent.c:360-389 | one snapshot calls a consumer at most once |
| `ConlesEngine.ReceivedIsMeant` | Source/_IOC_ConlesEvent.c:360-389 | the calls of the snapshots to one consumer are those its subscriptions at those moments ask for |
| `ConlesEngine.ReachableInv` | Source/_IOC_ConlesEvent.c:761-929 | queued number plus pending increment equals callbacked number plus ring length plus event in flight, with the flags, paths and histories that rest on it, over every interleaving |
| `ConlesEngine.StepKeepsControl` | Source/_IOC_ConlesEvent.c:801-811 | every step keeps the counter equation, the exclusiveness of synchronous delivery and the exactness of the flags |
| `ConlesEngine.StepKeepsHistory` | Source/_IOC_ConlesEvent.c:477-507 | every step keeps accepted = delivered + in flight + queued, and accepted = returned successes + accepted but unreturned |
| `ConlesEngine.StepKeepsSnapshots` | Source/_IOC_ConlesEvent.c:342-389 | every step keeps the table consistent and every recorded snapshot that of a table without doubles |
| `SuberTables.InsertRegisters` | Source/_IOC_ConlesEvent.c:238-291 | a successful insert registers the consumer for its events, leaves all others as they were and keeps the table consistent; TOO_MANY exactly for a full table, CONFLICT exactly for a consumer it has otherwise |
| `SuberTables.RemoveUnregisters` | Source/_IOC_ConlesEvent.c:293-333 | a remove takes out exactly the given consumer and keeps the table consistent |
| `SuberTables.SnapshotExact` | Source/_IOC_ConlesEvent.c:360-389 | a snapshot holds exactly the consumers listening to the event, each once |
| `SuberTables.SnapshotInSlotOrder` | Source/_IOC_ConlesEvent.c:360-389 | a snapshot lists its consumers in slot order |
| `SuberTables.FullCount` | Source/_IOC_ConlesEvent.c:238-291 | a count below the number of slots means a free slot |
| `SuberTables.SuberList.InsertSuber` | Source/_IOC_ConlesEvent.c:238-291 | the search loops leave the table that the insert function gives, with its result |
| `SuberTables.SuberList.RemoveSuber` | Source/_IOC_ConlesEvent.c:293-333 | the same for removal |
| `SuberTables.SuberList.CollectMatching` | Source/_IOC_ConlesEvent.c:356-389 | the collecting loop returns the snapshot |
| `LinkStates.LinkStateObj.TransferByBehavior` | Source/_IOC_ConlesEvent.c:171-211 | the main state is the priority of the three flags after each behaviour |
| `EvtDescQueues.EvtDescQueue.EnqueueElementLast` | Source/_IOC_EvtDescQueue.c:32-67 | appends to the bounded queue, or changes nothing when 64 are queued; slot i mod 64 holds the i-th event for every live i |
| `EvtDescQueues.EvtDescQueue.DequeueElementFirst` | Source/_IOC_EvtDescQueue.c:69-102 | hands out the oldest event, or reports an empty queue and touches nothing |
| `EvtDescQueues.EvtDescQueue.IsEmpty` | Source/_IOC_EvtDescQueue.c:24-30 | equal counters mean an empty queue and the other way round |
| `LinkRoles.Negotiated` | Source/IOC_Service.c:732-778 | the chain of tests leaves the capabilities that complement the client's usage, and nothing else |
| `LinkRoles.InitiatorGetsExecutor` | Source/IOC_Service.c:732-778 | a client that is only a command initiator is refused or gets an executor and nothing else |
| `LinkUsageMasks.MasksNegotiate` | Source/IOC_Service.c:732-778 | the mask arithmetic computes that negotiation |
| `LinkUsageMasks.UndefinedHasNoRole` | Source/_IOC_SrvProtoFifo.c:581-604 | the negotiated mask is zero exactly when no role is left |
| `FifoRendezvous.ReachableInv` | Source/_IOC_SrvProtoFifo.c:449-651 | over every interleaving: one connect at a time, pairs mutual, every open link pointing at its partner until that partner's close cleared the pointer |
| `FifoRendezvous.SlotHeldByWaiter` | Source/_IOC_SrvProtoFifo.c:449-460 | the connection slot is filled exactly while the client holding ConnMutex waits, and with that client |
| `FifoRendezvous.FirstAssertionHolds` | Source/_IOC_SrvProtoFifo.c:449-450 | the first assertion of connect holds: its slot is empty when its ConnMutex is taken |
| `FifoRendezvous.AcceptorAnswers` | Source/_IOC_SrvProtoFifo.c:570-650 | an acceptor takes whoever is in the slot out of it and signals it: refused, and polled on, if and only if its usage complements no capability, and otherwise paired up, both peers set and the negotiated usage with them; an empty slot is seen as empty |
| `FifoRendezvous.ConnectSucceedsIff` | Source/_IOC_SrvProtoFifo.c:462-477 | connect's check, its first load of the peer, passes if and only if an acceptor paired the client and its link has not been closed since; acceptors pair exactly the clients whose usage the capabilities complement; a client whose wait nothing has signalled would pass without a peer |
| `FifoRendezvous.CheckDecides` | Source/_IOC_SrvProtoFifo.c:464-477 | a woken client goes on to the assertion exactly if still paired, and is told INCOMPATIBLE_USAGE, its link freed, exactly if not |
| `FifoRendezvous.ConnectReturns` | Source/_IOC_SrvProtoFifo.c:482-489 | connect returns what it decided, SUCCESS only for a paired client, and gives ConnMutex back |
| `FifoRendezvous.StuckIff` | Source/_IOC_SrvProtoFifo.c:449-680 | no step of a connect, accept or close under way is possible if and only if all have ended but connects that wait, with nobody accepting: a connect is held up by nothing else |
| `FifoRendezvous.CloseRuns` | Source/_IOC_SrvProtoFifo.c:692-731 | a close that finds both mutexes free leaves its link gone, the other side without a peer, and everything else as it was |
| `FifoRendezvous.OtherSteps` | Source/_IOC_SrvProtoFifo.c:651-680 | an acceptor that has seen nobody may look again or give up, its link freed |
| `FifoRendezvous.SecondAssertionHoldsIff` | Source/_IOC_SrvProtoFifo.c:479-489 | after a passed check the assertion, the second load, holds, and connect reports success with a peer, if and only if the acceptor's link has not been closed by then |
| `FifoRendezvous.AssertionHoldsIffNotSevered` | Source/_IOC_SrvProtoFifo.c:464-480 | over any run between the two loads: the peer is still there if and only if it was and no close severed the link in between |
| `FifoRendezvous.CloseBetweenLoadsFailsAssertion` | Source/_IOC_SrvProtoFifo.c:464-480 | a run in which the check passes and the assertion fails |
| `FifoRendezvous.SuccessWithoutPeer` | Source/_IOC_SrvProtoFifo.c:479-489 | and one in which, assertions compiled out, connect returns success and a link without a peer |
| `FifoRendezvous.PeersPointAtEachOther` | Source/_IOC_SrvProtoFifo.c:606-611 | with every trylock successful, peers point at each other or at a link just letting go, never at a freed one |
| `FifoRendezvous.DanglingIffTryLockFailed` | Source/_IOC_SrvProtoFifo.c:692-711 | an open link points at its freed partner if and only if that partner's trylock failed |
| `FifoRendezvous.ServerUsageNegotiated` | Source/_IOC_SrvProtoFifo.c:581-611 | a connected server link's usage is the non-empty intersection of the capabilities with the complement of its client's |
| `FifoRendezvous.InitiatorHasExecutorPeer` | Source/_IOC_SrvProtoFifo.c:2074-2080 | the peer of an initiator-only client is an executor |
| `FifoRendezvous.EarlyCloseReportsIncompatible` | Source/_IOC_SrvProtoFifo.c:462-477 | a run in which a client with a fitting role is told that it has none |
| `FifoRendezvous.FailedTryLockLeavesDangling` | Source/_IOC_SrvProtoFifo.c:700-704 | a run that ends with a pointer to a freed link |
| `CmdPollings.CmdPolling.QueueCmd` | Source/_IOC_SrvProtoFifo.c:2099-2130 | appends the command as PENDING, or refuses it and changes nothing at 64 |
| `CmdPollings.CmdPolling.WaitCmd` | Source/_IOC_SrvProtoFifo.c:2344-2401 | hands out the oldest command as PROCESSING; an empty queue is reported to a non-blocking call, and an expired wait is TIMEOUT whatever the queue then holds |
| `CmdPollings.CmdPolling.QueueResp` | Source/_IOC_SrvProtoFifo.c:2444-2467 | appends the response, or refuses it and changes nothing at 64 |
| `CmdPollings.CmdPolling.ScanResps` | Source/_IOC_SrvProtoFifo.c:2136-2163 | takes the first response with the sequence number and everything before it, or nothing |
| `PollingRpc.ReachableInv` | Source/_IOC_SrvProtoFifo.c:2092-2166 | sequence numbers distinct, rings bounded and in order, responses only for taken commands, and none lost while execs do not overlap, over every run |
| `PollingRpc.ExecGetsOwnResponse` | Source/_IOC_SrvProtoFifo.c:2143-2153 | any exec that returns a response returns one acknowledged for its own sequence number |
| `PollingRpc.CommandsTakenInOrder` | Source/_IOC_SrvProtoFifo.c:2351-2401 | waitCMD hands out commands in exec order, each once, none skipped, and both rings stay within 64 |
| `PollingRpc.LoneExecServed` | Source/_IOC_SrvProtoFifo.c:2092-2166 | with one exec at a time: never refused, alone in its ring, and served the first response acknowledged for it, past any stale ones |
| `PollingRpc.RefusedIffFull` | Source/_IOC_SrvProtoFifo.c:2099-2130 | an exec is refused, its command queued nowhere, if and only if 64 commands wait; a response is dropped if and only if 64 wait |
| `PollingRpc.ScanEndsWaitIff` | Source/_IOC_SrvProtoFifo.c:2143-2163 | a scan ends its exec's wait if and only if there is a response for it, and with the first of these |
| `PollingRpc.ScanSparesIff` | Source/_IOC_SrvProtoFifo.c:2143-2153 | another exec's responses survive a scan if and only if none of them stood before the match |
| `PollingRpc.ServedFirstIffNotSkipped` | Source/_IOC_SrvProtoFifo.c:2136-2163 | over any run, however execs overlap: a done exec was served the first response acknowledged for it, and a waiting one can still be, if and only if no other exec's scan found one of its responses before its own match |
| `PollingRpc.SkippedOnlyByScans` | Source/_IOC_SrvProtoFifo.c:2143-2153 | the execs counted as passed over are those, and nothing else makes them so |
| `PollingRpc.OverlapsIff` | Source/_IOC_SrvProtoFifo.c:2092-2098 | execs count as overlapping from exactly the step in which one draws its number while another is under way |
| `PollingRpc.OverlappingExecsLoseResponse` | Source/_IOC_SrvProtoFifo.c:2143-2153 | a run of two execs in which one's only response is dropped |
| `FifoEvents.FifoEvtLink.PostEvt` | Source/_IOC_SrvProtoFifo.c:803-846 | one callback per listing of the ID, or one queue entry if there is room; on a link with a callback success exactly if one was made, on one without exactly if subscribed |
| `FifoEvents.PostToPeer` | Source/_IOC_SrvProtoFifo.c:803-846 | a post without a peer is NO_EVENT_CONSUMER, with one it is the peer's |
| `FifoEvents.FifoEvtLink.PullEvt` | Source/_IOC_SrvProtoFifo.c:855-925 | one attempt of the retry loop: the oldest waiting event, or the code its wait on an empty queue ends with |
| `FifoEvents.FifoEvtLink.UnsubEvt` | Source/_IOC_SrvProtoFifo.c:772-785 | as one step, clears the subscription for a matching callback and reports NOT_EXIST otherwise |
| `FifoEvents.PulledInOrder` | Source/_IOC_SrvProtoFifo.c:823-925 | over any run, events pulled followed by events waiting are those waiting at first followed by those queued: in order, once each |
| `FifoEvents.AllReportedQueuedIff` | Source/_IOC_SrvProtoFifo.c:823-848 | every event whose post reported success was queued if and only if no post found the queue full |
| `FifoEvents.FullQueueLosesReported` | Source/_IOC_SrvProtoFifo.c:823-848 | a post onto 64 waiting events, reported and gone |
| `FifoEvents.ReportedIffCalled` | Source/_IOC_SrvProtoFifo.c:815-841 | on a link with a callback a post reports success if and only if it calls back |
| `FifoEvents.ReportedCalledBackIff` | Source/_IOC_SrvProtoFifo.c:815-841 | over any run, the events reported there are exactly those called back, once each and in order, if and only if no subscription in force lists one twice |
| `CallbackBatches.CallbackBatch.AddDataToBatch` | Source/_IOC_SrvProtoFifo.c:1832-1864 | appends all of the data or none of it; bytes accepted = bytes delivered + bytes accumulated, within the buffer |
| `CallbackBatches.CallbackBatch.FlushCallbackBatch` | Source/_IOC_SrvProtoFifo.c:1871-1912 | delivers exactly what has accumulated, in one callback, and leaves nothing |
| `CallbackBatches.CallbackBatch.CloseBatchWindow` | Source/_IOC_SrvProtoFifo.c:2008-2020 | after it everything accepted has been delivered and nothing is left |
| `CallbackBatches.CallbackBatch.FlushData` | Source/_IOC_SrvProtoFifo.c:2520-2556 | the same, from the sender's side, whether or not the window is open |
| `CallbackBatches.FlushDeliversTakenIff` | Source/_IOC_SrvProtoFifo.c:1884-1907 | with additions between a flush's halves, the callback gets the bytes taken if and only if the added bytes repeat them |
| `CallbackBatches.AddDuringFlushClobbers` | Source/_IOC_SrvProtoFifo.c:1884-1907 | one added byte delivered in place of the byte taken |
| `BatchRaces.StepSoundIff` | Source/_IOC_SrvProtoFifo.c:1832-1912 | one addition or flush half keeps delivered, about to be delivered and accumulated together what was accepted, if and only if it neither overwrites taken bytes with others nor delivers before an earlier flush with other bytes |
| `BatchRaces.SoundThroughoutIff` | Source/_IOC_SrvProtoFifo.c:1832-1912 | that holds throughout any interleaving of any number of threads if and only if no step was one of those |
| `BatchRaces.OneByOneConserves` | Source/_IOC_SrvProtoFifo.c:1871-1907 | if a flush kept others out to its end, nothing would be lost, doubled or reordered over any run |
| `BatchRaces.UninterruptedFlush` | Source/_IOC_SrvProtoFifo.c:1871-1907 | the two halves taken together are the flush of `CallbackBatch` |
| `BatchRaces.AddedDuringFlush` | Source/_IOC_SrvProtoFifo.c:1884-1907 | a run in which an added byte is delivered twice and the one taken never |
| `BatchRaces.OvertakenFlush` | Source/_IOC_SrvProtoFifo.c:1884-1907 | a run of two flushes that delivers out of order |
| `ByteRings.StoreAppends` | Source/_IOC_SrvProtoFifo.c:1590-1629 | a store appends all of its bytes to the queue or changes nothing, and keeps end = (start + available) mod size |
| `ByteRings.StoreAnswers` | Source/_IOC_SrvProtoFifo.c:1590-1607 | INVALID_PARAM exactly for no data, BUFFER_FULL exactly for data that does not fit, SUCCESS exactly otherwise |
| `ByteRings.ReadTakesFront` | Source/_IOC_SrvProtoFifo.c:1694-1773 | a read takes bytes off the front and leaves the rest |
| `ByteRings.ReadTakesMost` | Source/_IOC_SrvProtoFifo.c:1747-1749 | as many as there are and as there is room for, and no fewer |
| `ByteRings.CopyInTwoPieces` | Source/_IOC_SrvProtoFifo.c:1602-1629 | the two-copy store lays the data round the ring for every position, amount and size |
| `ByteRings.CopyInChunks` | Source/_IOC_SrvProtoTCP.c:165-185 | the chunk loop terminates and lays the same bytes, ending at the same position |
| `ByteRings.CopyOutTwoPieces` | Source/_IOC_SrvProtoFifo.c:1694-1773 | the two-copy read gives the oldest bytes, in order, and touches nothing else of the caller's buffer |
| `ByteRings.CopyOutChunks` | Source/_IOC_SrvProtoTCP.c:251-272 | the chunk loop terminates and gives the same bytes, ending at the same position |
| `ByteRings.LaidInPieces` | Source/_IOC_SrvProtoTCP.c:165-185 | laying data in two pieces round the ring is laying it at once |
| `ByteRings.TakenInPieces` | Source/_IOC_SrvProtoTCP.c:251-272 | the same for taking |
| `ByteRings.FifoPollingBuffer.StoreData` | Source/_IOC_SrvProtoFifo.c:1590-1629 | a store that nothing overlaps: all of the data or none of it, and bytes of all successful stores = bytes read so far + bytes still buffered |
| `ByteRings.FifoPollingBuffer.ReadData` | Source/_IOC_SrvProtoFifo.c:1640-1773 | a read that no store overlaps keeps that equation and hands the caller exactly the next bytes; an expired wait hands out nothing |
| `ByteRings.TcpPollingBuffer.WriteData` | Source/_IOC_SrvProtoTCP.c:151-196 | the ring value the FIFO store would leave, with its result |
| `ByteRings.TcpPollingBuffer.ReadData` | Source/_IOC_SrvProtoTCP.c:201-281 | the ring value the FIFO read would leave; an expired wait and then a receive error win over buffered data |
| `RingRaces.StepSoundIff` | Source/_IOC_SrvProtoFifo.c:1590-1629 | one step of a sender or the reader leaves the buffer sound if and only if it is not a copy to a moved end or without room, or the write-back of a stale count |
| `RingRaces.SoundThroughoutIff` | Source/_IOC_SrvProtoFifo.c:1346-1352 | over every interleaving of any number of senders with the reader, end = (start + count) mod size and accepted = read + buffered hold throughout, up to the operations under way, if and only if no step was one of those |
| `RingRaces.SoundWhenQuiet` | Source/_IOC_SrvProtoFifo.c:1590-1629 | with nothing under way, that is the ring's condition and the conservation of bytes themselves |
| `RingRaces.CountWindowIff` | Source/_IOC_SrvProtoFifo.c:1623-1623 | with only whole reads between a store's load of the count and its write-back, the buffer survives if and only if none of them takes bytes |
| `RingRaces.CopyWindowIff` | Source/_IOC_SrvProtoFifo.c:1597-1621 | with only other stores between a store's load of the end and its copy, the buffer survives if and only if none of them copies |
| `RingRaces.ExclusiveRunsConserve` | Source/_IOC_SrvProtoFifo.c:1416-1416 | if stores took the mutex that reads hold, ring and conservation would hold whenever nothing is under way |
| `RingRaces.UninterruptedStore` | Source/_IOC_SrvProtoFifo.c:1590-1629 | the five steps taken together are the store of `StoreAppends` |
| `RingRaces.UninterruptedRead` | Source/_IOC_SrvProtoFifo.c:1747-1769 | and those of the reader the read of `ReadTakesFront` |
| `RingRaces.ReadDuringStoreBreaksRing` | Source/_IOC_SrvProtoFifo.c:1351-1352 | a run of one sender and one reader after which the ring counts a byte that is not there |
| `RingRaces.TwoSendersOverwrite` | Source/_IOC_SrvProtoFifo.c:1351-1352 | a run of two senders in which the second overwrites the first one's byte |
| `CmdDescs.StoredReadsBack` | Include/IOC/IOC_CmdDesc.h:159-266 | what is put into a payload is what its getters read out, for every length on both sides of 64 |
| `CmdDescs.StoreAgain` | Include/IOC/IOC_CmdDesc.h:159-212 | storing a payload's own bytes again changes nothing |
| `CmdDescs.CmdDescVar.SetInPayload` | Include/IOC/IOC_CmdDesc.h:159-184 | the step-by-step setter leaves the stored form of the IN payload and nothing else changed; a null pointer with a size is refused |
| `CmdDescs.CmdDescVar.SetOutPayload` | Include/IOC/IOC_CmdDesc.h:186-212 | the same for the OUT payload |
| `CmdDescs.CmdDescVar.Cleanup` | Include/IOC/IOC_CmdDesc.h:277-295 | heap data is gone, embedded data stays, and a second call changes nothing |
| `TcpWire.HeaderBytes` | Source/_IOC_SrvProtoTCP.c:44-47 | a header's bytes, in network byte order |
| `TcpWire.FrameBytes` | Source/_IOC_SrvProtoTCP.c:33-38 | the message types, byte by byte |
| `TcpWire.EvtLayout` | Include/IOC/IOC_EvtDesc.h:11-20 | where each field of an event descriptor lies in its 40 bytes |
| `TcpWire.CmdLayout` | Include/IOC/IOC_CmdDesc.h:55-74 | where each field of a command descriptor lies in its 248 bytes |
| `TcpWire.PayloadLayout` | Include/IOC/IOC_CmdDesc.h:41-49 | where each field of a payload lies in its 96 bytes |
| `TcpWire.HeaderRoundTrip` | Source/_IOC_SrvProtoTCP.c:375-377 | ntohl undoes htonl on both header fields |
| `TcpWire.EvtRoundTrip` | Source/_IOC_SrvProtoTCP.c:1128-1141 | an event descriptor comes back from its bytes |
| `TcpWire.CmdRoundTrip` | Source/_IOC_SrvProtoTCP.c:1181-1196 | a command descriptor comes back from its 248 bytes, except for what its pointers pointed at |
| `TcpWire.FrameReceived` | Source/_IOC_SrvProtoTCP.c:358-601 | whatever follows it, a message written whole is received whole, payload frame included, with the stream aligned behind it, if and only if its frame's length fits 32 bits |
| `TcpWire.RequestReceived` | Source/_IOC_SrvProtoTCP.c:474-502 | a request and its IN payload frame, any length, are undone by the receiver if and only if that length fits 32 bits |
| `TcpWire.LongRequestArrivesBare` | Source/_IOC_SrvProtoTCP.c:474-502 | otherwise the request arrives without its payload, and the payload's bytes are parsed as frames |
| `TcpWire.ResponseReceived` | Source/_IOC_SrvProtoTCP.c:561-599 | the same for a response and its OUT payload frame |
| `TcpWire.LongResponseCut` | Source/_IOC_SrvProtoTCP.c:561-599 | otherwise it keeps the payload's length modulo 2^32, and the rest is parsed as frames |
| `TcpWire.MessagesReceived` | Source/_IOC_SrvProtoTCP.c:358-601 | any sequence of messages comes off the stream as it was put on if and only if every frame's length fits 32 bits |
| `TcpWire.DataReceivedIffFits` | Source/_IOC_SrvProtoTCP.c:1399-1426 | a data message arrives as sent if and only if its length is between 1 and 2^32 - 1 |
| `TcpWire.DataOfTwoToThe32Skipped` | Source/_IOC_SrvProtoTCP.c:1399-1426 | one of 2^32 bytes, or a multiple, is announced as empty, skipped, and its bytes parsed as frames |
| `TcpLinks.SendAll` | Source/_IOC_SrvProtoTCP.c:288-310 | sends exactly a prefix, all of it exactly on success, however send splits it |
| `TcpLinks.RecvAll` | Source/_IOC_SrvProtoTCP.c:321-353 | receives exactly the bytes asked for, however recv splits them, or the stream's error |
| `TcpLinks.PostEvt` | Source/_IOC_SrvProtoTCP.c:1115-1142 | NO_EVENT_CONSUMER exactly without a peer subscription, and then nothing is sent; otherwise one event frame |
| `TcpLinks.TcpLinkObj.Post` | Source/_IOC_SrvProtoTCP.c:1115-1142 | the same by the link's own record of its peer |
| `TcpLinks.ErrorCodes` | Source/_IOC_SrvProtoTCP.c:288-353 | send and recv report the same error alike, unless the socket is no longer usable; a peer's reset is a closed connection |
| `TcpLinks.SendSubscription` | Source/_IOC_SrvProtoTCP.c:1058-1110 | one subscribe or unsubscribe frame |
| `TcpLinks.SendData` | Source/_IOC_SrvProtoTCP.c:1399-1426 | one data frame; empty data is refused |
| `TcpLinks.SendRequest` | Source/_IOC_SrvProtoTCP.c:1181-1208 | success means exactly the request's frames went out, with what lies at its pointer; a failure means a prefix of them |
| `TcpLinks.SendResponse` | Source/_IOC_SrvProtoTCP.c:528-546 | each of the four pieces or a prefix of it, in order, whatever became of the one before; all of them on a socket whose sends never fail |
| `TcpLinks.SendAck` | Source/_IOC_SrvProtoTCP.c:1363-1388 | the polling executor's answer fails only on a failing socket, and otherwise is the response's frames |
| `TcpLinks.TcpLinkObj.RecvThread` | Source/_IOC_SrvProtoTCP.c:358-604 | however the stream arrives in chunks, the link ends as the function on the whole stream says; with sends that work, the bytes written are those of the answers given, provided these have payloads this process can read |
| `TcpLinks.TcpLinkObj.HandleRequest` | Source/_IOC_SrvProtoTCP.c:501-560 | a request is executed and answered, or queued unless sixteen already are, in which case it is dropped |
| `TcpLinks.TcpLinkObj.HandleEvent` | Source/_IOC_SrvProtoTCP.c:379-409 | at most one callback per event, for a listed ID only |
| `TcpLinks.TcpLinkObj.HandleData` | Source/_IOC_SrvProtoTCP.c:419-460 | one data callback, or the polling buffer if in polling mode |
| `TcpLinks.TcpLinkObj.WaitCmd` | Source/_IOC_SrvProtoTCP.c:1298-1347 | hands out the oldest queued command, or TIMEOUT for an expired wait whatever the queue then holds |
| `TcpLinks.TcpLinkObj.ReadPolled` | Source/_IOC_SrvProtoTCP.c:1428-1470 | the bytes a polling read gets and leaves, with the code for an earlier error, an expired wait, no data, or an error come in during the wait |
| `TcpLinks.TcpLinkObj.ExecSend` | Source/_IOC_SrvProtoTCP.c:1160-1208 | forgets the previous outcome and sends the request as PENDING |
| `TcpLinks.TcpLinkObj.ExecFinish` | Source/_IOC_SrvProtoTCP.c:1257-1292 | timeout, error or response: the result and the status each leaves, TIMEOUT and its status for a wait that ran out; a response's payload is copied, as its bytes if they are there and as unknown ones if not |
| `TcpLinks.TcpLinkObj.AckCmd` | Source/_IOC_SrvProtoTCP.c:1352-1393 | an acknowledged descriptor goes out with a status past PROCESSING, derived from its result if it has none |
| `TcpRuns.LoopHandlesMessages` | Source/_IOC_SrvProtoTCP.c:358-604 | the loop over a stream of messages that fit their frames does what handling them one by one does |
| `TcpRuns.LoopHandlesReceived` | Source/_IOC_SrvProtoTCP.c:358-604 | over any bytes at all, the loop handles the messages it recovers from them one by one, then ends where they do |
| `TcpRuns.EventCallbacksMade` | Source/_IOC_SrvProtoTCP.c:379-409 | over any messages, event callbacks are exactly those for subscribed events, in order |
| `TcpRuns.DataCallbacksMade` | Source/_IOC_SrvProtoTCP.c:445-454 | the same for data callbacks |
| `TcpRuns.RequestsAnswered` | Source/_IOC_SrvProtoTCP.c:505-546 | every request is executed and answered, in order |
| `TcpRuns.SubscriptionFollows` | Source/_IOC_SrvProtoTCP.c:409-418 | over any messages, the link counts its peer as subscribed if and only if the peer's last announcement was a subscription |
| `TcpRuns.PollingBufferTakesAll` | Source/_IOC_SrvProtoTCP.c:455-458 | with room for all of it the polling buffer holds the concatenation of all data messages |
| `TcpRuns.CommandQueueKeepsFirst` | Source/_IOC_SrvProtoTCP.c:547-560 | the command queue holds the first sixteen requests |
| `TcpRuns.ReceivedResponsesFinal` | Source/_IOC_SrvProtoTCP.c:469-474 | whatever bytes arrive, only descriptors past PROCESSING are taken for responses |
| `TcpRuns.ExecEndsFinal` | Source/_IOC_SrvProtoTCP.c:1257-1292 | once past sending, exec leaves a status past PROCESSING, whatever has arrived, whether or not the stream broke, and whatever payload it then copies |
| `TcpRuns.ExecOutcome` | Source/_IOC_SrvProtoTCP.c:1257-1292 | exec returns success if and only if its wait did not run out and no error is left; TIMEOUT with that status whenever it ran out; the error and FAILED otherwise |
| `TcpRuns.WokenIff` | Source/_IOC_SrvProtoTCP.c:364-371 | a waiting exec is woken if and only if a response has come or the stream has given out at a header or within an event |
| `TcpRuns.NothingStale` | Source/_IOC_SrvProtoTCP.c:1165-1168 | exec is never woken by, nor ends with, a response or an error that an earlier one has left |
| `TcpRuns.AnswerComesBack` | Source/_IOC_SrvProtoTCP.c:1257-1288 | an answer gets through if and only if its OUT payload's length fits 32 bits; its status, result and non-empty OUT payload are then what the initiator ends with, an empty one leaving its own OUT payload, if and only if the receiver thread has left no error by the time exec looks; otherwise exec ends with that error and FAILED |
| `TcpRuns.AnswerTakenIff` | Source/_IOC_SrvProtoTCP.c:1268-1277 | the same for any link on which a response is ready, whatever messages have followed it |
| `TcpRuns.CloseAfterAnswerLosesIt` | Source/_IOC_SrvProtoTCP.c:364-371 | a peer that answers and closes, and an initiator that ends with LINK_BROKEN and FAILED although the whole answer is there |
| `TcpRuns.CommandOverTcp` | Source/_IOC_SrvProtoTCP.c:474-599 | end to end: request and answer get through if and only if their payloads' lengths fit 32 bits; the callback reads the initiator's bytes; the initiator reads the callback's, with status SUCCESS exactly for a successful callback, if and only if exec's wait has not run out and the receiver thread has left no error by the time exec looks; otherwise TIMEOUT, or the error and FAILED |
| `TcpRuns.AckComesBack` | Source/_IOC_SrvProtoTCP.c:1352-1393 | the same for a command acknowledged by a polling executor, whose open status becomes SUCCESS exactly for a successful result |
| `TcpRuns.LeftPayloadAnswerableIff` | Source/_IOC_SrvProtoTCP.c:536-546 | a callback that leaves the OUT payload as received gives an answer this process can send if and only if that payload was not on the initiator's heap |
| `TcpRuns.ReusedDescriptorUnanswerable` | Source/_IOC_SrvProtoTCP.c:536-546 | a failing callback on a reused descriptor whose answer cannot be sent |
| `TcpRuns.LeftPayloadComesBack` | Source/_IOC_SrvProtoTCP.c:561-599 | with the OUT payload embedded such an answer comes back, and the initiator reads what it had there, ending with the answer's status under the same condition |
| `TcpRuns.WriteMessages` | Source/_IOC_SrvProtoTCP.c:288-310 | writers called one after the other put exactly their messages' encodings on the stream |
| `TcpRuns.Conversation` | Source/_IOC_SrvProtoTCP.c:358-604 | from writers at one end to the receiver thread at the other: it handles exactly the messages written, in order, and finds the stream ending between two frames |
| `TcpRuns.ConversationThenPost` | Source/_IOC_SrvProtoTCP.c:1115-1142 | an event posted back afterwards goes out, behind the answers, if and only if the writers' last announcement was a subscription |
| `TcpRuns.CutResponseUnreadable` | Source/_IOC_SrvProtoTCP.c:568-590 | what exec copies from a received response is readable if and only if its whole payload frame came |
| `TcpReads.ReadInOrder` | Source/_IOC_SrvProtoTCP.c:201-281 | over any interleaving of received messages, breaks, reads and command starts: bytes read followed by bytes buffered are those buffered at first followed by those that came in and found room |
| `TcpReads.AllReachesReaderIff` | Source/_IOC_SrvProtoTCP.c:236-241 | all of them get to a reader who reads on if and only if nothing is left buffered or no error stands, an error standing from a break until a command is started |
| `TcpReads.ReadableAfterStreamIff` | Source/_IOC_SrvProtoTCP.c:364-371 | after a whole stream, what is buffered can be read if and only if the stream ended within a command |
| `TcpReads.SentAndClosedIsLost` | Source/_IOC_SrvProtoTCP.c:236-241 | a peer that sends and closes, and a reader who then gets nothing |
| `CmdStatuses.ExecViaFifoCallback` | Source/_IOC_SrvProtoFifo.c:2168-2295 | the callback sees PROCESSING; the descriptor ends as it left it, but for SUCCESS exactly when exec returns success, TIMEOUT exactly when it returns that and FAILED otherwise, with the returned code as result; an unsupported command is left alone |
| `CmdStatuses.ExecuteCommandViaCallback` | Source/IOC_Command.c:67-128 | the callback sees PROCESSING; the descriptor ends as it left it, settled by its return value |
| `CmdStatuses.FindDestinationLink` | Source/IOC_Command.c:130-190 | the first valid peer in table order other than the source, or NO_CMD_EXECUTOR exactly when there is none |
| `CmdStatuses.ValidPeerIff` | Source/IOC_Command.c:130-190 | two links are peers, either way round, if and only if they share a path and a role of one complements a role of the other |
| `CmdStatuses.ExecLegacy` | Source/IOC_Command.c:204-255 | what the first valid peer's callback returns and leaves, SUCCESS exactly on success, otherwise FAILED with the returned code and nothing else of the descriptor changed |
| `ObjTables.ServiceTable.AllocSrvObj` | Source/IOC_Service.c:54-178 | refuses an equal URI or a full table, else takes the lowest free slot, whose index becomes the ID; URIs stay distinct and the counter exact |
| `ObjTables.ServiceTable.ClearSrvObj` | Source/IOC_Service.c:180-185 | frees the object's own slot only |
| `ObjTables.ServiceTable.CountDown` | Source/IOC_Service.c:194-197 | the counter equals occupied slots plus frees still to be counted, so its guard never holds it back |
| `ObjTables.ServiceTable.GetSrvObjBySrvID` | Source/IOC_Service.c:201-209 | a service found has the ID asked for |
| `ObjTables.LinkTable.AllocLinkObj` | Source/IOC_Service.c:230-295 | fails exactly on a full table; the new link has an ID no live link has, and looks itself up |
| `ObjTables.LinkTable.ClearLinkObj` | Source/IOC_Service.c:297-301 | the freed link is no longer found and no other is affected |
| `ObjTables.LinkTable.GetLinkObjByLinkID` | Source/IOC_Service.c:314-327 | the range test and index give the lookup function |
| `ObjTables.LiveLinksFound` | Source/IOC_Service.c:220-228 | live IDs are distinct and look up their own objects |
| `ObjTables.FoundIsAskedForIff` | Source/IOC_Service.c:314-327 | the object found has the ID asked for if and only if that ID is one the table gives out |
| `ObjTables.LookupAliases` | Source/IOC_Service.c:321-324 | an ID 2^32 higher finds the same object |
| `ObjTables.FullIffOccupied` | Source/IOC_Service.c:97-178 | the table is full exactly when the count says so |
| `TimeSpecs.DeltaIsTickDifference` | Include/IOC/IOC_Helpers.h:45-129 | each delta is the difference of the whole-unit readings, modulo 2^64 |
| `TimeSpecs.DeltaWithinOneUnit` | Include/IOC/IOC_Helpers.h:45-129 | for ordered times the result is the difference of the readings if and only if 64 bits hold it in that unit, and then within one unit of the real difference |
| `TimeSpecs.DeltasAddUp` | Include/IOC/IOC_Helpers.h:45-129 | deltas over consecutive intervals add up exactly |
| `TimeSpecs.DeltaWrapsIff` | Include/IOC/IOC_Helpers.h:45-129 | the result wraps round if and only if the readings are out of order, and by how much |
| `TimeSpecs.BackwardsWithinSecondWraps` | Include/IOC/IOC_Helpers.h:45-129 | one millisecond backwards within any second comes out as 2^64 - 1 |
| `TimeSpecs.ElapsedWithinOneMs` | Source/_IOC_SrvProtoFifo.c:1981-1985 | less than 1 ms from the real difference, in either order, despite truncation toward zero |
| `PostOptions.ModeOf` | Include/IOC/IOC_Option.h:55-128 | exactly one of non-blocking, timed and may-block holds, so the BUG branches of the post functions are never taken |

## Left out

- Calls made from a callback that a synchronous post runs: the poster holds the link mutex, which such a call would take
  again.
- 64-bit wrap-around of the event, command and sequence counters: they are unbounded here.
- malloc failure, including the link table's mutex staying locked after one (Source/IOC_Service.c:235-239), and the
  terminator byte behind a heap payload.
- Spurious wake-ups of a waiting FIFO connect: `ConnectSucceedsIff` says what its check and assertion would then do.
- Concurrent writers on one socket, and TCP responses that arrive after their exec has timed out: one writer and one exec at
  a time are assumed, as the frame format itself does.
- A receiver thread stopped by its running flag.
- What reading through a pointer that nothing in the process backs does beyond giving unknown bytes: the code may crash.
- ExecFinish: of a response's OUT payload only lengths up to 2^64 - 2 are copied, the terminator byte taking the last one.
- RecvThread: of answers whose OUT payload nothing backs, the bytes written are not stated, because they are unknown.
- SendAck: what an answer cut off by a failing socket leaves on the stream; `SendPiece` says it piece by piece.
- RingRaces.Apply: each copy into or out of the buffer is one step with the move of its position, and a copy longer than
  the buffer, which only a store without room can make, is not taken. The hybrid path's store does lock
  (Source/_IOC_SrvProtoFifo.c:1327-1330), so nothing of it comes between a reader's steps.
- HandleEvent, RecvThread: a link's registrations do not change while its receiver thread runs. The code reads the array
  of event IDs after it has let go of the mutex (Source/_IOC_SrvProtoTCP.c:395-409), and unsubscribing frees that array.
- SubEvt: one step, although the code fills in the subscription without the mutex a poster reads it under
  (Source/_IOC_SrvProtoFifo.c:745-755 against 813-833).
- UnsubEvt: one step, although the code clears and frees the subscription without that mutex
  (Source/_IOC_SrvProtoFifo.c:772-785 against 813-833).
- PullEvt: one attempt of the retry loop with its sleeps; the code its wait ends with is an input.
- The waiting itself in waitCMD and the blocking reads: how it ended is an input.
- The async send heuristics, callback threads, drain counter, cache and hybrid copy of the FIFO data path
  (Source/_IOC_SrvProtoFifo.c:1042-1345), which depend on measured times.
- The simulated sub-states of Source/_IOC_ConetEvent.c, and the command and data sub-states set around callbacks.
- Setting up a TCP connection, with the negotiation message that carries the usage over it
  (Source/_IOC_SrvProtoTCP.c:772-936): `LinkUsageMasks.MasksNegotiate` is the negotiation both protocols call.
- Service daemons, offline cleanup, accept tracking and the connect failure path of Source/IOC_Service.c.
- A mutex that a closing link's peer holds while the link is freed, and uses of a dangling pointer: the model shows when one
  exists and takes no step through it.
- `ExecuteCommandViaCallback` on a destination without a callback: the code would call a null pointer there.
- Descriptors reused by a callback after it was cancelled on timeout: what it had written by then is an input.
- Null arguments and closed socket descriptors, which the entry points refuse before anything modelled here happens.
- Names, printing, capability queries and the delegating wrappers of the public API.
