# LIN diagnostic transport: a verified model

`linbuskit` carries diagnostic messages over a LIN bus: a transport layer cuts messages into 8-byte frames and puts
them together again, a master polls a slave for its answer frame by frame, a simulated network joins the two, and a
LIN master, a LIN slave, a UDS client and a "preset" sit on top. This project models that code in Dafny and proves
what it promises, over all inputs and over all interleavings of its goroutines.

How the parts fit together:

- `LinTypes` - events, messages, constants, and the subsequence relation.
- `Framing` - segmentation: the loop of `buildFrames` proved against a function, and what each frame contains.
- `Reassembly` - the receiver as a function on payload streams: round trip, resynchronisation.
- `Loss` - what any loss of frames does to a stream of messages, exactly.
- `History` - what a receiver delivers, characterised by its input history alone, in both directions, with time.
- `Bus` - one master transport, one slave transport and the simulated network as a machine. Each of its steps is one
  shared access: one channel send or receive, one atomic flag access, one lock-protected network operation. A run is
  any sequence of such steps. A step of execute carries the clock value it reads, so runs include any clock.
- `BusInvariants`, `BusFaithful`, `BusRuns` - results about every run: conservation, the response slot, end-to-end
  delivery.
- `Causes` - what each loss in a run comes from: full queues and timeouts, exactly.
- `BusHistory` - the histories a run feeds its receivers, and the pace of the master's cycles; `Pace` - that pace is
  exact.
- `Muted` - what a dropped confirmation does to the slave.
- `Quiescence` - when the master leaves its driver alone, and the stop barrier; `HalfDuplex` - half-duplex operation;
  each with its exact condition and with runs that fail it.
- `Cycle` - one uninterrupted `execute` or `Transmit` call as a function, proved to be a run of the machine.
- `Simulation`, `Transport` - the objects of the source as classes; every method is proved against the functions above.
- `Slave`, `Waiting`, `Master`, `UdsClient` - the applications and the two response matchers; `Service` - the
  identifier service as runs of the machine.
- `Lifecycle` - the close protocol as a machine with any number of threads; `Preset` - the preset object between
  goroutine switches.

Some properties one might expect turn out to hold only under a condition, which is proved:

- The comment at tplin/transport.go:302-304 promises that an idle master calls ReadEvent no more once
  `StopAwaitingSlaveResponse` has returned. `Quiescence.QuietIff` gives the exact condition at any moment of any run,
  the return included; `Quiescence.LateReadExists` and `LateWriteExists` show runs in which the transport is idle at
  the return and a ReadEvent, or a WriteMessage, still follows, because a new cycle began between the unlock and the
  return. While the mutex is held no cycle is under way (`Quiescence.StopBarrier`).
- A 0x3D header can be requested before a message is written when a cycle was already committed to look for a
  response: `HalfDuplex.HalfDuplexIff`, and `HalfDuplex.HeaderTooEarlyExists` for a run that gets there.
- A stream with lost frames delivers exactly its intact messages unless a message without its first frame goes on
  where an earlier one broke off: `Loss.LossExact`.
- A delivered multi-frame message has the announced length exactly when its first frame had 8 bytes, because the
  first-frame branch copies the rest of the payload whole: `History.DeliveredLength`.
- The UDS client and the LIN master pick the same response for every service identifier except 0x3F:
  `Waiting.MatchersAgreeIff`.
- A request drains the receive queue but not the receive errors, so an error left by an earlier exchange ends it as a
  transport failure: `UdsClient.OldFault`, `UdsClient.OldFaultFails`.
- The multi-frame timeout is not restarted by consecutive frames and the master asks for at most one frame a cycle, so
  the 4094 bytes a message may have are not within reach of every pace: `Pace.ResponsePaceIff` says exactly which
  messages can be completed while cycles begin at least a given gap apart. With the default queue and timeout and a gap
  of 10 ms, the default poll interval, those are the ones of at most 610 data bytes (`Pace.DefaultLimitIff`).
- A slave whose event queue drops a confirmation never sends again, because the confirmation is all that clears its
  scheduled frame: `Muted.DroppedConfirmationMutes`, and `Muted.ConfirmationCanBeDropped` for a run that gets there.

A serial number supplied as an empty, non-nil slice is kept as nil, so the slave answers "sub-function not supported";
`Master.SerialRoundTrip` states all four length cases, leaving the multi-frame timeout out.

## Model

| member | source | states |
|---|---|---|
| Framing.FrameCount | tplin/transport.go:405-443 | exactly 1 frame up to 5 bytes, 1+(n+1)/6 frames up to 4094, never more than the capacity hint nor than the default queue of 683, which the longest message fills |
| Framing.ConsecutiveFrameContents | tplin/transport.go:426-442 | consecutive frame k carries the address, 0x20 + k mod 16 and its six data bytes, padded with 0xFF, and is 8 bytes long |
| Framing.SingleFrameContents | tplin/transport.go:407-414 | a single frame is NAD, length with the SID, SID, the data and 0xFF |
| Framing.FirstFrameContents | tplin/transport.go:417-424 | a first frame is NAD, 0x1000 plus the length in two bytes, SID and four data bytes |
| Framing.FrameFields | tplin/transport.go:399-441 | every frame of every message has the classic checksum, 0x3C from a master and 0x3D from a slave, the transport's channel and 8 bytes |
| Framing.BuildFrames | tplin/transport.go:395-445 | too long a message is refused; any other becomes exactly the frames that carry it, so many of them and with those fields |
| Framing.AppendConsecutive | tplin/transport.go:426-442 | the loop over the data appends exactly the consecutive frames from byte 4 on, with the wrapping counter |
| Reassembly.RoundTrip | tplin/transport.go:395-551 | from any receiver state the frames of a message deliver exactly that message and leave the receiver reset |
| Reassembly.SilentPrefix | tplin/transport.go:484-551 | a proper prefix of the frames of a message delivers nothing, so completion is reported on the last frame only |
| Reassembly.ListRoundTrip | tplin/transport.go:471-551 | a list of messages is delivered as that list, whatever payloads no branch looks at are mixed in |
| Reassembly.IgnoredPayloads | tplin/transport.go:476-484 | payloads under two bytes and PCI types 3 to 15 change neither the state nor what is delivered |
| Reassembly.LossSafety | tplin/transport.go:505-549 | an idle receiver that misses any of the frames of a message delivers nothing for it and delivers the next intact message exactly |
| Loss.LossExact | tplin/transport.go:471-551 | from any receiver state, any messages with any frames lost deliver exactly the intact ones if and only if no message without its first frame carries the counters that an earlier broken-off one waits for, up to that one's end |
| Loss.LossyStream | tplin/transport.go:471-551 | whatever is lost, every intact message is delivered in order, and besides them exactly one message for each such meeting |
| Loss.FirstFramesSuffice | tplin/transport.go:505-543 | losing frames other than first frames costs their own messages and no other |
| Loss.OneMessage | tplin/transport.go:484-551 | what any part of one message's frames delivers in any receiver state: the message, nothing, or one message under the earlier header |
| Loss.LossAcrossMessages | tplin/transport.go:523-550 | a message broken off after i consecutive frames and another going on after its j-th make a mixed message if and only if i and j agree mod 16 and enough frames are left; its bytes are given, padding included |
| Loss.DropOne | tplin/simulation.go:159-165 | the accepted frames with some dropped stay such when a full queue drops one more, and without a first frame dropped unless that one is |
| Reassembly.ResetOnlyLoses | tplin/transport.go:312-324 | forgetting a partial message at any moment only removes messages from what any further stream delivers |
| History.LookedAtIff | tplin/transport.go:471-484 | the receiver looks at received events of the other side's identifier, 0x3C or 0x3D, with two bytes or more and a PCI type up to 2, and at no others |
| History.FirstFrameIff | tplin/transport.go:501-515 | a first frame opens a message with 8 bytes or more, type 1 and an announced length over 6 |
| History.DeliveredIff | tplin/transport.go:449-554 | over every history: the last input delivers m if and only if it is a single frame spelling m, or a window ending in it is a first frame and exactly the consecutive frames of m with only ignorable events and timely cycles between |
| History.ReachableState | tplin/transport.go:355-362 | in every reachable state the receiver is reset or holds exactly a partial message of the history |
| History.ReassemblyInvariant | tplin/transport.go:501-550 | while bytes remain: 4+6k bytes held, counter k mod 16, held plus remaining is the announced length less one, that length within 7 to 4095 |
| History.CompleteWindowDelivers | tplin/transport.go:522-550 | resynchronisation: a whole message is delivered whatever came before it |
| History.ConsecutiveEffect | tplin/transport.go:522-550 | a partial reception takes the next frame exactly when it is the expected one and forgets everything otherwise |
| History.SegmentationUnique | tplin/transport.go:501-551 | the frames of a message determine it |
| History.TimedReassembly | tplin/transport.go:204-214 | a completed multi-frame message has a window before whose end no cycle ran later than the timeout after its first frame; consecutive frames do not extend it |
| History.DeliveredLength | tplin/transport.go:516-518 | the delivered length is the announced one exactly for 8-byte first frames |
| BusInvariants.ShapeStep | tplin/simulation.go:53-111 | every step keeps each queue to the frames and confirmations its role can see |
| BusInvariants.BoundedStep | tplin/transport.go:371-384 | every step keeps the queues within capacity and room for the frames of the Transmit in progress |
| BusInvariants.MasterConservedStep | tplin/transport.go:256-262 | no step loses, duplicates or reorders a frame between the master's Transmit and its driver |
| BusInvariants.SlaveConservedStep | tplin/transport.go:244-255 | the same for the slave |
| BusInvariants.SlotOnceStep | tplin/transport.go:452-465 | every step keeps slot, responses in flight and unread confirmations together at one while the slave waits and at none otherwise |
| BusInvariants.SlotHistoryStep | tplin/simulation.go:76-111 | the slot is empty whenever the slave schedules, and scheduled frames are those on the bus plus the one in the slot |
| BusFaithful.FaithfulAccept | tplin/transport.go:365-393 | accepting a message adds exactly it to what the master's receiver is bound to deliver |
| BusFaithful.FaithfulConsume | tplin/transport.go:449-554 | receiving a frame moves its message from what is bound to be delivered to what was |
| BusFaithful.FaithfulReset | tplin/transport.go:312-324 | an expired reception turns exact delivery into a subsequence |
| BusFaithful.ForwardStep | tplin/transport.go:204-271 | every step keeps this: what the slave's queue was given and what is still to come are the master's accepted frames less dropped ones, and the slave completed what its receiver makes of what it read |
| BusFaithful.BackwardStep | tplin/transport.go:204-271 | every step keeps what the master delivered and is bound to deliver equal to what the slave accepted, through slot, flight and queues |
| BusFaithful.InboxStep | tplin/transport.go:556-562 | what the application took and has waiting is what was completed, less arrivals at a full queue |
| BusRuns.LossyEndToEnd | tplin/simulation.go:53-74 | over every interleaving and whatever the slave's event queue drops: the slave completes what the stream receiver makes of the accepted frames less the dropped ones - all of it once nothing is on the way - which is exactly the messages without a dropped frame if no first frame was dropped |
| BusRuns.EndToEnd | tplin/transport.go:204-271 | over every interleaving both sides deliver the other's accepted messages unaltered, once and in order: a subsequence as long as no first frame was dropped, a prefix without timeouts and drops, all of them when nothing is on the way |
| BusRuns.Received | tplin/transport.go:327-334 | the same for what the applications take from the receive queues |
| Causes.FlagIff | tplin/simulation.go:159-165 | in every run a message was refused by a receive queue, a reception expired, or a frame or confirmation was dropped, exactly if some step completed one with the receive queue full, began a cycle with too old a reception, or pushed to a full event queue |
| Causes.ReceiveQueueStep | tplin/transport.go:556-562 | every step adds a completed message to the receive queue unless it is full, and only the application takes one, the oldest |
| Causes.NothingOverflows | tplin/transport.go:556-562 | if no message was completed when the queue was full, taken and waiting messages are all the completed ones |
| Causes.NothingLost | tplin/transport.go:204-271 | with no such cause and nothing on the way, they are all the other side accepted |
| Causes.AcceptedIff | tplin/transport.go:371-384 | a Transmit of the machine is accepted if and only if none is in progress, the message is within 4094 bytes and its frames fit behind those queued |
| BusRuns.SlotExactlyOnce | tplin/transport.go:244-255 | the response slot holds each slave frame once, is never overwritten, and slave frames reach the bus in order |
| BusRuns.NeverBlocks | tplin/transport.go:379-384 | in every run no send blocks, queues stay within capacity, and the master's event queue holds at most one event |
| BusRuns.QueueConservation | tplin/transport.go:371-384 | handed and queued frames are those of whole accepted messages and at most one partly sent message at the end |
| BusRuns.TransmitAtomic | tplin/transport.go:364-393 | the same for one node in any state of its Transmit |
| BusHistory.RunExplained | tplin/transport.go:204-242 | in every run both receivers, and the messages they completed, are those of the histories of cycles and events the run fed them |
| BusHistory.RunSoundness | tplin/transport.go:471-551 | every message either side completes in a run is a single frame it read, or a first frame and exactly its consecutive frames read in time |
| BusHistory.ResponsePace | tplin/transport.go:259-268 | a multi-frame message the master completes in a run took at least one of its cycles for each consecutive frame, all begun within the timeout of the first frame |
| BusHistory.ResponseLimit | tplin/transport.go:312-324 | with cycles at least a gap apart, the gap times the consecutive frames less one never exceeds the timeout for a completed message of more than one frame |
| BusHistory.DefaultLimit | tplin/adapter.go:36-38 | with the default 1 s timeout, while cycles begin at least the default 10 ms apart, no message of more than 610 data bytes is completed |
| Pace.ResponsePaceIff | tplin/transport.go:204-269 | a message of more than one frame is completed in some run with cycles at least a gap apart if and only if it fits the slave's transmit queue and the gap times its consecutive frames less one is at most the timeout |
| Pace.DefaultLimitIff | tplin/adapter.go:34-38 | with the default queue and timeout and a gap of 10 ms, if and only if it has at most 610 data bytes |
| Pace.FrameEffect | tplin/transport.go:501-550 | what each frame of a message in turn makes of the receiver: nothing delivered before the last, the message with it |
| Muted.DroppedConfirmationMutes | tplin/transport.go:452-465 | in every run in which the slave's event queue dropped a confirmation, however the run goes on, the slave hands over no more frames and none of its frames reaches the bus |
| Muted.ConfirmationCanBeDropped | tplin/simulation.go:159-165 | there is such a run: a scheduled response, 20 master frames the slave does not read, and a header |
| Quiescence.QuietIff | tplin/transport.go:302-309 | at any moment of any run no driver call follows before the next Transmit or enabling call if and only if nothing is queued, held, expected or polled for, the flag is clear and execute does not stand before a driver call |
| Quiescence.StopBarrier | tplin/transport.go:305-309 | in any run, while Stop holds the mutex no cycle is under way, and with the flag clear no driver call follows if and only if nothing is queued, held, expected or polled for |
| Quiescence.StopExcludes | tplin/transport.go:204-206 | execute and Stop exclude each other in every run |
| Quiescence.LateReadExists | tplin/transport.go:302-309 | there are runs in which Stop has returned to an idle transport and a ReadEvent still follows |
| Quiescence.LateWriteExists | tplin/transport.go:302-309 | the same with a WriteMessage |
| Quiescence.QuietForever | tplin/transport.go:216-222 | a quiet master makes no driver call in any run without a Transmit or enabling call, and stays quiet |
| HalfDuplex.HalfDuplexIff | tplin/transport.go:216-268 | a header is never requested before every frame of a single message is written, however sends and reads interleave, if and only if no cycle is already committed |
| HalfDuplex.HeaderTooEarlyExists | tplin/transport.go:216-268 | there are runs that come to an idle transport with the flag cleared and a committed cycle, after which a header goes before the message, whatever the message |
| HalfDuplex.BarrierThenTransmit | tplin/transport.go:287-309 | in every run a Transmit after the barrier is half-duplex unless a slave frame was left unread |
| Cycle.ConfirmationHandled | tplin/transport.go:449-469 | a waiting slave ignores a transmitted event of another identifier, and its own confirmation frees it and schedules the oldest queued frame |
| Cycle.EventReceived | tplin/transport.go:471-554 | any other event touches the receiver only, and is reported exactly when it completes a message |
| Cycle.HeaderIff | tplin/transport.go:256-269 | a master's cycle requests a header if and only if nothing is queued, it completed no message, and a response is polled for, awaited or begun |
| Cycle.WriteIff | tplin/transport.go:256-262 | it writes the oldest queued frame if and only if there is one |
| Cycle.MasterCycleRun | tplin/transport.go:204-271 | an uninterrupted execute call of a master is a run of the machine |
| Cycle.SlaveCycleRun | tplin/transport.go:204-271 | an uninterrupted execute call of a slave is a run of the machine |
| Cycle.TransmitRun | tplin/transport.go:364-393 | an uninterrupted Transmit of either node is a run of the machine |
| Simulation.SimulatedLinNetwork.WriteMessage | tplin/simulation.go:53-74 | the master hears its frame as transmitted and every slave as received, on that channel only, a full queue dropping it |
| Simulation.SimulatedLinNetwork.RequestSlaveResponse | tplin/simulation.go:76-104 | an occupied slot is emptied to the master as received and to every slave as transmitted; an empty one does nothing |
| Simulation.SimulatedLinNetwork.ScheduleSlaveResponse | tplin/simulation.go:106-111 | exactly the slot of the event's channel and identifier is set |
| Simulation.SimulatedLinNetwork.Broadcast | tplin/simulation.go:68-73 | each slave's queue gets the event once |
| Simulation.SimulatedLinNetwork.GetMasterDriver | tplin/simulation.go:116-124 | the one master driver, made on first use |
| Simulation.SimulatedLinNetwork.CreateSlaveDriver | tplin/simulation.go:127-134 | a new slave driver at the end of the broadcast list |
| Simulation.SimulatedLinDriver.PushEvent | tplin/simulation.go:159-165 | appends to the event's channel unless its queue is full |
| Simulation.SimulatedLinDriver.ReadEvent | tplin/simulation.go:169-191 | takes the oldest event of the channel and leaves other channels alone |
| Simulation.SimulatedLinDriver.WriteMessage | tplin/simulation.go:193-203 | a slave's driver writes nothing; a master's stamps its channel |
| Simulation.SimulatedLinDriver.ScheduleSlaveResponse | tplin/simulation.go:205-215 | a master's driver schedules nothing; a slave's stamps its channel |
| Simulation.SimulatedLinDriver.RequestSlaveResponse | tplin/simulation.go:217-222 | a slave's driver requests nothing |
| Transport.Transport.Execute | tplin/transport.go:204-271 | a closed transport touches nothing; an open one ends in the state of one cycle of the machine, queues and slot included |
| Transport.Transport.ReadEvents | tplin/transport.go:230-242 | drains the channel's queue in order through the receiver |
| Transport.Transport.ReceiveFromDriver | tplin/transport.go:449-554 | a confirmation frees the slave and schedules its next frame; other events go to the receiver |
| Transport.Transport.Reassemble | tplin/transport.go:480-551 | the fields after a relevant frame are those of the reassembly function |
| Transport.Transport.ReceiveSingle | tplin/transport.go:484-499 | the single-frame branch, which always resets |
| Transport.Transport.ReceiveFirst | tplin/transport.go:501-521 | the first-frame branch: reset, then a new reception if the announced length is in range |
| Transport.Transport.ReceiveConsecutive | tplin/transport.go:522-550 | the consecutive-frame branch, including its three ways to reset |
| Transport.Transport.CheckMultiFrameTimeout | tplin/transport.go:312-324 | resets a reception older than the timeout and nothing else |
| Transport.Transport.DeliverMessage | tplin/transport.go:556-562 | a receive queue with room gets the message at its end and no error; a full one stays as it is and a full-queue error goes to both error channels that have room |
| Transport.Transport.ReportError | tplin/transport.go:188-201 | reports to each error channel that has room |
| Transport.Transport.SendAsMaster | tplin/transport.go:256-269 | one queued frame, else one header if a response is wanted and none was completed |
| Transport.Transport.Transmit | tplin/transport.go:364-393 | accepted if and only if the data has at most 4094 bytes, the transport is open and the frames fit behind those queued; each refusal with its own error and no effect; on acceptance the frames at the end of the queue and, on a master, the flag set |
| Transport.Transport.Receive | tplin/transport.go:327-334 | pops the oldest received message |
| Transport.Transport.ResetState | tplin/transport.go:355-362 | returns to the fresh receiver |
| Transport.Transport.SetAwaitingSlaveResponse | tplin/transport.go:290-309 | sets or clears the flag and nothing else |
| Slave.ReadRequestHandled | tplin/slave.go:163-206 | byte by byte: a short read request is refused with 0x13, one for another slave is not answered, others get the identifier or 0x12 |
| Slave.SaveHandled | tplin/slave.go:138-143 | SaveConfiguration keeps the address in force and confirms with 0xF6 |
| Slave.AssignHandled | tplin/slave.go:208-225 | AssignNad takes the new address and confirms from the old one; a short one or one for another slave does nothing |
| Slave.IgnoredRequest | tplin/slave.go:130-154 | requests to other addresses and other services change and answer nothing |
| Slave.NadIsLastAssigned | tplin/slave.go:208-225 | over any requests the address is the one the last accepted AssignNad gave, independent of transmit-queue room |
| Slave.ResponsesMatchRequests | tplin/slave.go:116-154 | at most one response per request, in order, from the address held when it was taken, none for other addresses |
| Slave.LinSlave.Process | tplin/slave.go:130-154 | addresses are those of the request function, and its response is at the end of the transmit queue if it fits |
| Slave.LinSlave.Simulate | tplin/slave.go:116-154 | one transport cycle, then at most one message taken and processed; nothing at all on a closed transport |
| Slave.LinSlave.Respond | tplin/slave.go:156-161 | the response's frames go to the end of the transmit queue if they fit; otherwise nothing changes |
| Waiting.MatchersAgreeIff | tplin/master.go:83-112 | the master's matcher and the client's select the same message with the same meaning from every list exactly for identifiers other than 0x3F |
| Waiting.ClientVerdictIs | uds_client/client_lin.go:180-203 | the client's reading of a message, byte by byte: positive, pending, refused with a code, or passed over |
| Waiting.MasterVerdictIs | tplin/master.go:92-108 | the master's, with its response identifier looked for first |
| Waiting.OtherAddress | uds_client/client_lin.go:180-182 | a message of another address is passed over unless the request was broadcast |
| Waiting.PendingRestarts | uds_client/client_lin.go:188-191 | after a pending response the deadline is P2* after it, or the parent's if that is earlier |
| Waiting.WaitOutcome | uds_client/client_lin.go:167-203 | every outcome of a wait from its items alone: where it ends, and with an answer, a failure, a cancellation, its own timeout or its parent's |
| Waiting.WaitAnsweredIff | uds_client/client_lin.go:167-203 | answered if and only if a decisive message comes while the timer, restarted by each pending response, still runs, behind nothing but undecisive messages in time |
| Waiting.FixedOutcome | tplin/master.go:83-112 | the same outcomes for the master's wait, whose deadline no pending response moves |
| Waiting.DecidedWait | uds_client/client_lin.go:167-203 | the first decisive message that comes in time is the answer |
| Waiting.WaitDecided | uds_client/client_lin.go:167-203 | an answer is always the first decisive message, with everything up to it in time |
| Waiting.DeadlineBound | uds_client/client_lin.go:188-191 | after k pending responses the deadline is at most start + timeout + k times P2* |
| Waiting.AnswerInTime | uds_client/client_lin.go:162-191 | an answer comes before that bound and before the parent context's deadline |
| UdsClient.AnsweredExactly | uds_client/client_lin.go:141-204 | from what arrives alone: a request is answered by a message if and only if it decides first, while the timer restarted by each pending response runs, and before any failure, old or new |
| UdsClient.AttemptEnds | uds_client/client_lin.go:141-204 | an empty request and a refused one end at once, any other as its wait does |
| UdsClient.ReplyIs | uds_client/client_lin.go:192-202 | the caller gets the answering address, identifier and data of a positive or negative answer, and nothing otherwise |
| UdsClient.AnsweredIff | uds_client/client_lin.go:141-204 | the same selection by the deadline in force |
| UdsClient.OldFault | uds_client/client_lin.go:146-170 | with an error left by an earlier exchange, only a message there when the wait starts can be the answer |
| UdsClient.OldFaultFails | tplin/transport.go:338-346 | and with none there the request ends at once as a transport failure |
| UdsClient.NeverBlocked | uds_client/client_lin.go:206-211 | with a deadline a request always ends |
| UdsClient.Client.Drain | uds_client/client_lin.go:146-151 | no message left by an earlier exchange stays in the receive queue; an error left in the error channel is not touched |
| UdsClient.Client.AwaitResponse | uds_client/client_lin.go:167-203 | the loop returns what waiting against the moving deadline means |
| UdsClient.Client.SendAndRec | uds_client/client_lin.go:141-204 | drain, one request, the outcome with the caller's bytes, and no polling left on once a request was queued |
| UdsClient.Client.SendAndRecWithRetries | uds_client/client_lin.go:119-138 | one attempt unless the identifier is enabled, at most 1 + MaxRetries otherwise, each but the last timed out, the last one's result |
| UdsClient.SentAreRequests | uds_client/client_lin.go:119-138 | every request a retried exchange queues is the same one |
| Master.LinMaster.WaitForResponse | tplin/master.go:83-112 | the loop returns what waiting with the master's matcher means |
| Master.ExchangeIff | tplin/master.go:83-112 | the result of an exchange's wait is the one its items end with: response, refusal, failure, cancellation or timeout, each under its own condition |
| Master.LinMaster.Exchange | tplin/master.go:115-152 | a request the transport does not take is refused with its error and changes nothing; any other is at the end of the transmit queue, the flag is clear afterwards, and the result is the one the items end with |
| Master.LinMaster.ReadByIdentifier | tplin/master.go:135-152 | such an exchange of the encoded read request |
| Master.LinMaster.GetSlaveProductIdentifier | tplin/master.go:155-169 | such an exchange decoded, an invalid payload under five bytes; and from a slave that is asked, whatever other messages come before its answer, exactly its identity |
| Master.LinMaster.GetSlaveSerialNumber | tplin/master.go:172-182 | such an exchange decoded, an invalid payload under four bytes; and from a slave that is asked the outcome its serial number's length calls for |
| Master.LinMaster.AssignSlaveNad | tplin/master.go:115-132 | such an exchange's address; and from a slave that is asked the address it had before |
| Master.ProductRoundTrip | tplin/master.go:155-169 | encoding, both segmentations and reassemblies, handling, matching behind other messages and decoding return exactly the slave's identity |
| Master.SerialRoundTrip | tplin/master.go:172-182 | with no timeout cutting in, the serial number comes back exactly when it has 4 to 4094 bytes; each other length has its own outcome |
| Service.ResponsesInRuns | tplin/slave.go:116-154 | in every run each response the master's application takes answers a request the slave took, in order, at most once, from the address then held; those requests are accepted ones in order unless a first frame was dropped |
| Service.ServiceRuns | tplin/slave.go:116-154 | in every run that loses no request the responses taken are some of the answers to the accepted requests, in order, and exactly the first ones if no response is lost |
| Master.AssignRoundTrip | tplin/slave.go:208-225 | the answer to AssignNad comes from the old address and afterwards the slave answers at the new one only |
| Master.ReadIsHandled | tplin/slave.go:187-206 | a read request is answered exactly when address and identifiers match or are wildcards, with the identifier or a negative response |
| Lifecycle.NoUseAfterClose | preset/preset.go:74-106 | over every interleaving: channels closed at most once and never sent to afterwards, the driver closed at most once, not during an operation, after the transport, and never called again |
| Lifecycle.OneAtATime | preset/preset.go:74-84 | operations and the closing of the driver exclude each other |
| Lifecycle.OperationStarts | preset/preset.go:74-84 | on an open preset with no operation under way a new operation gets to call the driver |
| Lifecycle.RefusedAfterClose | preset/preset.go:74-84 | an operation begun after the preset was marked closed never takes the operation mutex, however the run goes on |
| Lifecycle.CloseCompletes | preset/preset.go:88-106 | there is a run from a running transport in which Close has closed every channel and the driver, once each |
| Lifecycle.LaterClosersReturn | tplin/transport.go:165-173 | later closers return once the first is complete and not before |
| Lifecycle.InvThread | tplin/transport.go:130-183 | every step of every thread keeps the close protocol's invariant |
| Lifecycle.InvGoroutine | tplin/transport.go:142-161 | every step of the transport goroutine keeps it |
| Preset.Preset.Write | preset/preset.go:169-196 | refused after close or out of bounds without a driver call, else one frame with the checksum of its identifier |
| Preset.Preset.Close | preset/preset.go:88-106 | the client and then the device, if it can be closed, are closed on the first call only and every call returns the first result |

## Left out

- The hardware drivers under `driver/`: foreign calls and vendor status codes.
- Driver errors: the simulated driver never fails on a non-nil event, and the drivers of the model do not either.
- Pointers to events: the source copies an event at every driver boundary, so events are values and aliasing is not modelled.
- Transport.Transport.Execute: one clock value for the whole call, where the source reads the clock at the timeout check and at each first frame; the machine lets every step read its own. Its error returns for failing driver calls are not modelled.
- Transport.Transport.ReadEvents: no error return, because the simulated driver's ReadEvent does not fail.
- Transport.Transport.SetAwaitingSlaveResponse: the flag only; the barrier of the disabling call is steps of the machine of `Bus`, the wake-up of the enabling one a choice of when a cycle runs.
- Simulation.SimulatedLinDriver.ReadEvent: returns at once on an empty queue; waiting for an event with a timer is a delay of that step in the machine.
- Tickers, the wake channel and logging: they decide when a cycle runs, and runs contain every choice.
- Liveness, such as an answer arriving in the end: it needs fairness of the scheduler.
- More than one slave on a channel: a confirmation is matched by frame identifier only, so another slave's confirmation would count; the network object itself is modelled with any number of slaves.
- BusRuns.EndToEnd: towards the slave its subsequence clause asks that the slave's event queue never dropped a first frame; `BusRuns.LossyEndToEnd` with `Loss.LossExact` says what happens otherwise, and `Loss.LossAcrossMessages` shows that such losses can mix two messages.
- BusRuns.Received: the same condition.
- Waiting.DecidedWait: an expired deadline has priority over a message that is ready at the same time, where the select of the source may take either.
- Transport closure inside the machine of `Bus`: closing is the subject of `Lifecycle`, where an operation's use of the transport is one of its steps.
- The start and stop of the slave's own loop and its closed flag: the same protocol as the transport's.
- Context internals: a context is a deadline and a cancellation that arrives like any other item.
- UdsClient.Client.SendAndRec: whether the transport takes the request is a parameter, decided by `Transport.Transport.Transmit`; messages that arrive after the answer are the next exchange's stale ones. How many errors wait in the error channel does not matter to one request, so the model says only whether one does.
- The messages that arrive during a wait are parameters of the client and master methods; the goroutine that delivers them is the machine of `Bus`.
- `Preset.MasterRead`, the request methods of the preset and its constructors: in `Lifecycle` they are operations that may call the driver any number of times.
