# Verification of the vehicle diagnostic stack

The repository is a small diagnostic stack in C++: an ISO-TP transport over a CAN
driver, OBD and UDS services that issue read-only requests through a guard, a
cooperative scheduler, a bounded store of vehicle samples, and three encoders for those
samples. This project models that code in Dafny and proves what it promises, over every
input, every history of calls and every interleaving.

## How it is organised

Each stateful component has three parts. A *specification* module gives its state as a
value and each call as a function of state, clock readings and answers. A *runs* module
proves theorems about every history of such calls. A class, with the fields and methods
of the original object, is proved to do exactly what the functions say, in place, on
arrays, for the answers and readings it really got: the clock, the driver and the
transport record every call with its answer, and each contract states which entries the
call added to those records. What the functions themselves must do is stated from outside:
`IsoTpDecisions`, `UdsJudgement`, `ObdJudgement`, the end of `SchedulerRuns` and
`StoreSpec.AnswersAreExact` say for every history, by what an observer saw, what each call
answers, sends and leaves behind.

| part | modules |
|---|---|
| ISO-TP transport (ISO 15765-2) | IsoTpSpec, IsoTpTransport (class), IsoTpSegments, IsoTpTransmit, IsoTpReceive, IsoTpTiming, IsoTpDecisions |
| two transports on a link | IsoTpLink (safety), IsoTpMixing (its limit), IsoTpDelivery and IsoTpTimely (delivery), IsoTpOversize (refusal) |
| services (ISO 14229-1, OBD) | ReadOnlyGuard, UdsSpec, UdsRuns, UdsJudgement, UdsService, ObdSpec, ObdRuns, ObdJudgement, ObdService |
| the whole stack | DiagnosticStack, StackDelivery |
| scheduler | SchedulerSpec, SchedulerRuns, Scheduler |
| text and samples | Utf8 (RFC 3629), VehicleData, ReadModel |
| logger export record | ExportSpec, ExportRecord |
| BLE payload | BleSpec, BleRecord (encoder), BleReader (decoder) |
| web response (RFC 8259) | JsonText, JsonUtf8, Decimal, WebResponseSpec, WebResponseText, WebResponse, WebResponseRead |
| latest-value store | StoreSpec, Store |
| shared | Types, Time, Buffers, BoundedWriter, Endian, Parsing, Can, Diagnostic |

## Conventions

- Bytes and fixed-width integers are subset types of `int`; shifts and masks are written
  as division, remainder and multiplication by powers of two. Wrap-around of the receive
  block counter and the 4-bit sequence numbers is written out, and the scheduler's
  arithmetic is proved to stay inside 64 bits.
- Times of the transport and the services are unbounded, which assumes that a clock
  reading plus a 32-bit timeout fits 64 bits, as the code does.
- The clock, the CAN driver and, for the services, the diagnostic transport are classes
  that answer anything their interface allows and record what they answered. Time may pass
  at every reading and inside every call on a driver or a transport. Readings are made
  where the code makes them: the transport reads the clock again after an accepted frame,
  and the UDS service reads it a second time when it accepts a response-pending. Each
  recorded offer and call carries the number of readings made before it, so the contracts
  fix the order of calls and readings as well.
- Doubles are their 64-bit patterns with a test for finiteness. Printing a finite double
  in the web response is a parameter; NumberFormat.Sound states what is relied on: a
  non-empty token of number characters, at most 32 of them, that reads back.
- Enumerations that the encoders validate are raw codes, so that invalid ones exist.
- Branches that cannot be reached are left out, each with a comment that says why.
- A C++ pointer that may be null is a nullable array or an `Option`; an output reference that
  keeps its value on failure is passed in and returned.

## What the code does not promise

- The BLE decoder accepts sample records that no encoder call emits, such as an available
  sample of good quality without its value. `BleSpec.EmittedExactly` gives the exact
  condition.
- A UDS transaction can outlive the bound its configuration suggests, because an accepted
  response-pending sets the deadline from a second clock reading. `UdsRuns` has the input,
  the exact condition and the bound that always holds.
- A transfer begun while the other end still assembles an earlier one can be mixed up with
  it: a late clear-to-send for the first releases the data of the second, and the receiver
  announces a message nobody sent. `IsoTpMixing.TransfersCanMix` has the run for any two
  nine-byte payloads. `IsoTpLink.OnlyPayloadsArrive` shows that transfers cannot mix when
  each begins while the receiver assembles nothing and no data frame is under way; a Flow
  Control frame may be.
- A healthy link delivers only if time moves on in step with the deadlines:
  `IsoTpDelivery.HealthyRunDelivers` bounds moves, not milliseconds, and
  `IsoTpTimely.DeliveringRunExists` says when some run makes it.

## Model

| member | source | states |
|---|---|---|
| IsoTpSpec.DecodeStMinMs | src/protocol/isotp_transport.h:177-187 | every valid separation-time code decodes to a time that is never shorter than the encoded one; reserved codes are refused |
| IsoTpTransport.IsoTpTransport.StartSend | src/protocol/isotp_transport.h:34-75 | transmit state, status and offered frame are those of the transmit machine for the answer the driver recorded; the clock is read exactly once, after an accepted First Frame; the receive side is untouched |
| IsoTpTransport.IsoTpTransport.Poll | src/protocol/isotp_transport.h:77-96 | one recorded reading decides expiry of either deadline, otherwise at most one Consecutive Frame is offered; state and status are those of the machine for the driver's recorded answer, and an accepted frame is stamped with a reading made after that answer; when a deadline has passed is said by IsoTpDecisions.StalledAssemblyEnds and DesertedTransferEnds |
| IsoTpTransport.IsoTpTransport.Receive | src/protocol/isotp_transport.h:98-111 | a complete message is copied whole and released; a null or short buffer leaves both message and buffer unchanged |
| IsoTpTransport.IsoTpTransport.DiscardPendingMessage | src/protocol/isotp_transport.h:113-116 | drops a ready message and nothing else |
| IsoTpTransport.IsoTpTransport.OnCanFrame | src/protocol/isotp_transport.h:120-153 | filtering, one clock reading for an addressed frame, expiry and dispatch: state and any Flow Control frame are those of the machine for the answer the driver recorded; IsoTpDecisions says what they are from outside |
| IsoTpTransport.IsoTpTransport.HandleSingleFrame | src/protocol/isotp_transport.h:222-235 | a Single Frame becomes a ready message, or is refused without effect |
| IsoTpTransport.IsoTpTransport.HandleFirstFrame | src/protocol/isotp_transport.h:237-270 | opens an assembly and answers clear-to-send, or answers overflow, or is refused; when the driver refuses the Flow Control frame the assembly is abandoned; which answer is due is said by IsoTpDecisions.EveryDataFrameIsDecided |
| IsoTpTransport.IsoTpTransport.HandleConsecutiveFrame | src/protocol/isotp_transport.h:272-312 | appends in-sequence data, completes the message or asks for the next block, subject to the driver's recorded answer; a gap or a short frame abandons the assembly |
| IsoTpTransport.IsoTpTransport.HandleFlowControl | src/protocol/isotp_transport.h:314-357 | clear-to-send, wait, overflow and malformed Flow Control act on a waiting transfer only |
| IsoTpTransport.IsoTpTransport.SendNextConsecutiveFrame | src/protocol/isotp_transport.h:368-406 | when the driver records busy nothing changes, any other refusal ends the transfer, acceptance advances offset, number and block and is stamped with the reading made after it |
| IsoTpSegments.SegmentsAreComplete | src/protocol/isotp_transport.h:44-65 | the reference segmentation of a payload carries all of its bytes and announces its length |
| IsoTpSegments.SegmentsCarryPayload | src/protocol/isotp_transport.h:368-391 | the first k frames of the reference segmentation carry a prefix of the payload, for every k |
| IsoTpTransmit.TransferMatchesLedger | src/protocol/isotp_transport.h:314-430 | over every history, the open transfer agrees with what an observer of calls, answers and frames recorded: prefix sent, last acceptance, STmin, block count, waits |
| IsoTpTransmit.EveryStepIsCompliant | src/protocol/isotp_transport.h:325-405 | over every history, each Consecutive Frame is the next reference segment, offered no earlier than the last acceptance plus the latest STmin (across blocks too), and within the granted block; waits stay below the limit |
| IsoTpTransmit.OpenTransferCarriesPrefix | src/protocol/isotp_transport.h:368-406 | while a transfer is open, 6 <= offset < length <= maxPayload, the offset lies on a segment boundary, the sequence number follows modulo 16, and the accepted frames carry exactly the bytes before the offset |
| IsoTpTransmit.CompleteMeansAllSent | src/protocol/isotp_transport.h:386-394 | a poll reports Complete only when the accepted frames are exactly the segments of the payload: retries skip and repeat nothing |
| IsoTpTransmit.OpenTransferIsBounded | src/protocol/isotp_transport.h:342-350 | a transfer of n Consecutive Frames meets fewer than 2n + maxWaitFrames frames, clear-to-sends and waits, and at most maxWaitFrames waits in all |
| IsoTpTransmit.MilestonesDescend | src/protocol/isotp_transport.h:314-406 | each accepted frame, clear-to-send or wait that keeps the transfer open decreases (bytes left, waits left, waiting) lexicographically; every other step leaves the transfer as it is |
| IsoTpReceive.EveryMessageIsAssembled | src/protocol/isotp_transport.h:222-312 | over every history, an assembly is the concatenated data of a First Frame and in-sequence Consecutive Frames, and a ready message is what such frames spell |
| IsoTpReceive.ReadyMessageIsStable | src/protocol/isotp_transport.h:98-116 | in any sound state, a ready message survives any frames, polls, sends and undersized receives byte for byte |
| IsoTpReceive.MessageSurvivesRun | src/protocol/isotp_transport.h:98-116 | so a message that is ready after any history is ready, unchanged, after every continuation without a call that takes or discards it |
| IsoTpTiming.DeadlinesAreObserved | src/protocol/isotp_transport.h:77-96 | over every history the deadlines, the earliest time of the next frame and the receive block counter are what an observer of calls, answers and readings computes |
| IsoTpDecisions.StalledAssemblyEnds | src/protocol/isotp_transport.h:83-86 | in every history a poll or addressed frame answers Timeout and empties the receive side if and only if the consecutive-frame timeout has passed since the last arrival that opened or extended the assembly |
| IsoTpDecisions.DesertedTransferEnds | src/protocol/isotp_transport.h:87-90 | in every history, unless an assembly has stalled, such a call answers Timeout and ends the transfer if and only if it waits for Flow Control and the timeout has passed since the reading after its last frame, or since the last WAIT |
| IsoTpDecisions.EveryPollIsDecided | src/protocol/isotp_transport.h:77-96 | in every history a poll in time offers the next reference segment if and only if the peer allows one and its time has come, at once after the first clear-to-send; a busy driver changes nothing, another refusal ends the transfer |
| IsoTpDecisions.EveryFlowControlIsDecided | src/protocol/isotp_transport.h:314-357 | in every history a Flow Control frame in time does nothing to a transfer that does not wait; a waiting one goes on by 0x30 with a legal STmin and by fewer WAITs than allowed, and ends with its own answer on anything else |
| IsoTpDecisions.EveryDataFrameIsDecided | src/protocol/isotp_transport.h:120-312 | in every history a data frame in time opens, extends, completes or ruins a message or is turned away, by its bytes and the frames before it; clear-to-send is offered after a First Frame that fits and after every full block, overflow for one that is too long |
| IsoTpDecisions.EveryStartIsDecided | src/protocol/isotp_transport.h:34-75 | in every history a send is refused, busy, or offers the first segment of the payload, and only an accepted First Frame leaves a transfer open |
| IsoTpDecisions.EveryTakeIsDecided | src/protocol/isotp_transport.h:98-116 | in every history a message is handed over once, to a buffer that holds it |
| IsoTpDecisions.ForeignFramesLeaveNoTrace | src/protocol/isotp_transport.h:120-130 | a history without the frames of other identifiers, formats or impossible lengths leads to the same state |
| IsoTpDecisions.InoperableNeverActs | src/protocol/isotp_transport.h:162-174 | with a configuration outside the ranges spelled out, every call is refused and nothing ever happens |
| IsoTpDecisions.RefusalsAreReported | src/protocol/isotp_transport.h:197-217 | each driver error is reported as itself |
| IsoTpLink.PlayKeeps | src/protocol/isotp_transport.h:34-406 | for two transports over queues that may lose frames, any interleaving, driver answers and clock readings keep both directions consistent: queued data frames are consecutive segments of the last payload, the assembly is never more than they carried, and a complete message is a payload of the peer; transfers may follow each other, each begun when nothing of the one before is in the queue or being assembled |
| IsoTpLink.OnlyPayloadsArrive | src/protocol/isotp_transport.h:34-312 | in every such play, however many transfers each end begins and whatever is lost, a message that becomes ready is one of the payloads the other end was asked to send, byte for byte, in both directions at once |
| IsoTpLink.OnlyThePayloadArrives | src/protocol/isotp_transport.h:34-312 | when each end begins at most one transfer, no further condition is needed, and what becomes ready is that payload, even when frames are lost |
| IsoTpMixing.TransfersCanMix | src/protocol/isotp_transport.h:34-96 | without the condition it fails: for any two nine-byte payloads, a transfer begun while the receiver still assembles an abandoned one ends in a message that starts with the first payload and ends with the second |
| IsoTpDelivery.EndsStayInLockstep | src/protocol/isotp_transport.h:237-406 | on a healthy link the sequence numbers of both ends differ by the frames in flight, modulo 16, and the two block counters and those frames add up to the block size |
| IsoTpDelivery.NeverStuck | src/protocol/isotp_transport.h:77-96 | on a healthy link some timely move always brings delivery strictly closer |
| IsoTpDelivery.HealthyRunDelivers | src/protocol/isotp_transport.h:34-406 | for every payload within both limits, block size, STmin, interleaving and busy retries, fewer than 5n moves change anything, and a run nothing can carry further has delivered the payload |
| IsoTpTimely.DeliveringRunExists | src/protocol/isotp_transport.h:34-406 | when the receiver's timeout exceeds the pause it asks for, some healthy run whose readings all come from one monotone clock delivers the payload |
| IsoTpOversize.OversizeIsRefused | src/protocol/isotp_transport.h:250-254 | for every payload the receiver cannot hold, through any timely interleaving: one data frame is sent, nothing is assembled, no poll of the sender completes, the answer delivered reports overflow, and the transfer is over once nothing is under way |
| IsoTpOversize.RefusalTakesTwoFrames | src/protocol/isotp_transport.h:237-357 | so First Frame and overflow answer, the latter delivered before the deadline, end such a transfer |
| ReadOnlyGuard.ForwardsExactlyTheAllowlist | src/protocol/read_only_guard.h:34-69 | a payload can be forwarded if and only if it is on the read-only allowlist |
| ReadOnlyGuard.RefusalsAreExact | src/protocol/read_only_guard.h:34-47 | a request that does not name one PID is invalid; one that does is denied exactly when its mode is neither 01 nor 09 |
| ReadOnlyGuard.ReadOnlyGuard.StartObdSinglePid | src/protocol/read_only_guard.h:34-47 | sends mode and PID of the two allowed modes and passes on the transport's answer; anything else reaches no transport |
| ReadOnlyGuard.ReadOnlyGuard.StartObdStoredDtcRead | src/protocol/read_only_guard.h:49-53 | sends exactly the stored-DTC request and passes on the answer |
| ReadOnlyGuard.ReadOnlyGuard.StartUdsReadDataByIdentifier | src/protocol/read_only_guard.h:55-63 | sends the payload of the guard's decision and passes on the answer; UdsJudgement.EveryRequestIsDecided says that it is the service byte and the DID, high byte first |
| ReadOnlyGuard.ReadOnlyGuard.StartUdsReportDtcByStatusMask | src/protocol/read_only_guard.h:65-69 | sends the report-by-status-mask request and passes on the answer |
| UdsService.UdsService.RequestReadDataByIdentifier | src/protocol/uds_service.h:49-56 | state, the one call on the transport with its recorded answer, and the one clock reading if the request was taken; busy and bad configurations make neither; UdsJudgement.EveryRequestIsDecided gives the bytes sent |
| UdsService.UdsService.RequestReportDtcByStatusMask | src/protocol/uds_service.h:58-64 | the same for a DTC report |
| UdsService.UdsService.PollService | src/protocol/uds_service.h:66-102 | one poll acts as the service machine does on the recorded answers of the poll and the receive call and the recorded readings; the calls it makes, in order, are exactly those |
| UdsService.UdsService.HandleDataResponse | src/protocol/uds_service.h:140-179 | matching of service byte and DID, and publication of the data |
| UdsService.UdsService.HandleDtcResponse | src/protocol/uds_service.h:181-210 | matching of the report, and publication of mask and records |
| UdsService.UdsService.HandleNegativeResponse | src/protocol/uds_service.h:212-234 | a matching negative response ends the request or, for response-pending below the limit, reads the clock again and sets the deadline from that reading; UdsJudgement.EveryNegativeResponseIsJudged says which |
| UdsRuns.TransactionIsBounded | src/protocol/uds_service.h:66-102 | for any answers and any further requests, every poll at start + response timeout + maxPending * pending timeout, plus the overshoot of the second readings, or later, leaves the service inactive |
| UdsRuns.PunctualTransactionIsBounded | src/protocol/uds_service.h:66-102 | the bound without overshoot holds when no second reading passes the deadline in force |
| UdsRuns.BoundHoldsExactly | src/protocol/uds_service.h:231-272 | every poll from the bound on leaves the service inactive if and only if the transaction ended before or its last extension was read early enough |
| UdsRuns.RequestBeginsWait | src/protocol/uds_service.h:236-264 | a request the transport completes at once begins a wait at the reading the request made |
| UdsRuns.EveryWaitJustBegan | src/protocol/uds_service.h:66-102 | in every history, whatever call begins a response wait, a request or the poll that completes the transmission, leaves the full response timeout from its reading and no extension used |
| UdsRuns.EveryWaitIsBounded | src/protocol/uds_service.h:66-102 | so every response wait of every history is over by the bound, counted from that reading, plus the overshoot |
| UdsRuns.LateExtensionOutlivesBound | src/protocol/uds_service.h:231-272 | a run of two calls after which the service is still active at the bound: a request at 0, then a response-pending received at 999 and read again at 1001 |
| UdsRuns.PendingIsBounded | src/protocol/uds_service.h:212-234 | no transaction answers response-pending more often than configured |
| UdsRuns.BusyLeavesNoTrace | src/protocol/uds_service.h:236-248 | requests made while another is active leave no trace: every later poll ends as it would have without them |
| UdsRuns.BusyOnlyTouchesStatus | src/protocol/uds_service.h:49-64 | one such request changes the status and nothing else (one call, a step of BusyLeavesNoTrace) |
| UdsRuns.ActiveNeverHasResult | src/protocol/uds_service.h:283-303 | over every history nothing is published while a request is active |
| UdsRuns.ReadyIsTheResponse | src/protocol/uds_service.h:140-210 | a published result is exactly the content of the response to the active DID or report; DTC records flatten back to it |
| UdsRuns.DataResponseIsPublished | src/protocol/uds_service.h:140-179 | every non-empty data response to the active DID is published as it is |
| UdsRuns.DtcResponseIsPublished | src/protocol/uds_service.h:181-210 | every well-formed DTC report is published record by record |
| UdsRuns.EndingDiscards | src/protocol/uds_service.h:283-289 | one poll discards the transport buffer exactly when it ends the transaction (one call, a step of the theorem on the whole stack) |
| UdsJudgement.EveryRequestIsDecided | src/protocol/uds_service.h:49-64 | in every history a request is refused without a call, or sends one payload whose positive response, as the service accepts it, echoes that payload: the service byte plus 0x40, then the DID or the sub-function; the mask sent is the one asked for |
| UdsJudgement.EveryPollIsDecided | src/protocol/uds_service.h:66-102 | in every history a poll of an active service ends, goes on or publishes by the payload sent, the response-pendings accepted since and the readings: timeout exactly from the time due, and each response judged by its echo and the shape of what follows |
| UdsJudgement.EveryCallIsDecided | src/protocol/uds_service.h:66-102 | in every history such a poll makes these calls on the transport and no others, in this order: poll, a receive if a response is awaited and there is time, a discard exactly when the transaction ends; and reads the clock once, or twice to go on after a response-pending |
| UdsJudgement.EveryNegativeResponseIsJudged | src/protocol/uds_service.h:212-234 | in every history an examined negative response to the service byte sent ends the transaction with its code and no result, unless it is response-pending and fewer than the limit were accepted; one that names another service changes nothing else |
| ObdService.ObdService.RequestCurrentData | src/protocol/obd_service.h:45-47 | state, the one call on the transport with its recorded answer, and the clock reading of a current-data request |
| ObdService.ObdService.RequestSupportedPids | src/protocol/obd_service.h:49-57 | a block base is requested; any other PID is refused without sending |
| ObdService.ObdService.RequestVin | src/protocol/obd_service.h:59-62 | requests the VIN |
| ObdService.ObdService.RequestStoredDtcs | src/protocol/obd_service.h:64-69 | requests the stored DTCs |
| ObdService.ObdService.PollService | src/protocol/obd_service.h:71-107 | one poll acts as the service machine does on the recorded answers of the poll and the receive call and the recorded reading; the calls it makes, in order, are exactly those |
| ObdService.ObdService.HandleVin | src/protocol/obd_service.h:191-262 | accepts a VIN response of the right shape only, and copies its seventeen characters |
| ObdService.ObdService.HandleStoredDtcs | src/protocol/obd_service.h:191-262 | keeps the non-zero pairs in order, refuses a seventeenth |
| ObdRuns.TransactionIsBounded | src/protocol/obd_service.h:71-107 | an awaited response is over by any poll at the deadline or later, whatever was answered and asked in between |
| ObdRuns.BusyLeavesNoTrace | src/protocol/obd_service.h:156-169 | requests made while another is active leave no trace |
| ObdRuns.BusyOnlyTouchesStatus | src/protocol/obd_service.h:156-169 | one such request changes the status and nothing else (one call, a step of BusyLeavesNoTrace) |
| ObdRuns.ActiveNeverHasResult | src/protocol/obd_service.h:279-299 | over every history nothing is published while a request is active |
| ObdRuns.ReadyIsTheResponse | src/protocol/obd_service.h:191-262 | a published result is exactly the content of the response to the active PID, VIN or DTC request, and the results of the other kinds of request stay empty |
| ObdRuns.PidResponseIsPublished | src/protocol/obd_service.h:191-262 | every non-empty response to the active PID is published as it is |
| ObdRuns.BitmapResponseIsPublished | src/protocol/obd_service.h:191-262 | every bitmap response is published as the 32-bit number it spells |
| ObdRuns.VinResponseIsPublished | src/protocol/obd_service.h:191-262 | every valid VIN response is published as it is |
| ObdRuns.DtcResponseIsPublished | src/protocol/obd_service.h:191-262 | the non-zero pairs of every DTC response are published in order when there are at most sixteen, and refused otherwise |
| ObdRuns.EndingDiscards | src/protocol/obd_service.h:279-286 | one poll discards the transport buffer exactly when it ends the transaction (one call, a step of the theorem on the whole stack) |
| ObdJudgement.EveryRequestIsDecided | src/protocol/obd_service.h:45-69 | in every history a request is refused without a call, or sends one payload whose positive response echoes it; supported PIDs are asked for by the seven block bases only |
| ObdJudgement.EveryPollIsDecided | src/protocol/obd_service.h:71-107 | in every history a poll of an active service ends, goes on or publishes by the request sent and the readings: timeout exactly from the time due, a message without the echo of the request is passed over, any other is published or invalid by its shape |
| ObdJudgement.EveryCallIsDecided | src/protocol/obd_service.h:71-107 | the same calls in the same order, and at most one reading |
| ObdJudgement.PaddingIsDroppedInOrder | src/protocol/obd_service.h:226-262 | dropping the padding of a DTC response distributes over concatenation and drops of single pairs only the zero one |
| DiagnosticStack.OnlyReadOnlyFramesAreSent | src/protocol/read_only_guard.h:34-69 | over every history of the whole stack, each frame offered to the driver is a Single Frame with one of five read requests or a three-byte Flow Control frame, and no transfer or transmit wait is ever open |
| DiagnosticStack.EndedTransactionLeavesNoMessage | src/protocol/uds_service.h:283-289 | over every history of the whole stack, an event after which a service is no longer active leaves no message in the transport |
| DiagnosticStack.UdsResultComesFromTheBus | src/protocol/uds_service.h:140-210 | a UDS result published in any history is the content of a positive response spelled by frames that arrived in sequence |
| DiagnosticStack.ObdResultComesFromTheBus | src/protocol/obd_service.h:191-262 | the same for an OBD result |
| StackDelivery.UdsResponseIsPublished | src/protocol/uds_service.h:66-102 | the converse, in every history: when the segments of a response of at most 64 bytes to the active DID or report arrive in order, each in time, and nothing else was being received, the next poll before the deadline publishes exactly its content |
| StackDelivery.ObdResponseIsPublished | src/protocol/obd_service.h:71-107 | the converse for a response to the active PID, VIN or DTC request |
| Scheduler.Scheduler.RegisterJob | src/core/scheduler.h:44-69 | validation order, capacity, overflow of the first deadline, and the new job |
| Scheduler.Scheduler.Request | src/core/scheduler.h:71-85 | merges a request into a pending or running on-demand job |
| Scheduler.Scheduler.TakeNextDue | src/core/scheduler.h:87-104 | takes the first job due at the one reading made, or answers Busy or NoDueJob without change; what is due is said by SchedulerRuns.TakenIsFirstWanting |
| Scheduler.Scheduler.Complete | src/core/scheduler.h:106-128 | reschedules or clears the active job; overflow changes nothing |
| Scheduler.Scheduler.Reschedule | src/core/scheduler.h:115-122 | the constant-time computation equals the next deadline, with every intermediate value inside 64 bits |
| SchedulerSpec.ReschedulingIsExact | src/core/scheduler.h:114-122 | the new deadline is the least one on the cadence strictly after now, and is refused exactly when none fits 64 bits |
| SchedulerRuns.CountsInEveryRun | src/core/scheduler.h:44-128 | over every history: periodic deadlines keep their cadence and are taken at most once a period, startup jobs at most once, on-demand jobs owe exactly the pending request, and each job was taken as often as completed, plus one while it runs |
| SchedulerRuns.TakenIsFirstWanting | src/core/scheduler.h:87-104 | in every chronological run the answer is Busy while some job was taken more often than completed; otherwise one is taken exactly when by the observer's entries some job wants to run: its next slot has come, it never completed its start, or it owes a request; and it is the first such job in registration order |
| SchedulerRuns.EveryAnswerIsExpected | src/core/scheduler.h:44-128 | in every chronological run each registration, request and completion answers what the entries demand, the next slot that leaves 64 bits included, and a refusal changes nothing |
| Utf8.WellFormedIsExact | src/core/vehicle_data.h:50-89 | a byte string is accepted if and only if it encodes some sequence of Unicode scalar values |
| Utf8.EncodingIsUnique | src/core/vehicle_data.h:50-89 | that sequence is unique |
| Utf8.ConcatenationIsWellFormed | src/core/vehicle_data.h:50-89 | accepted strings are closed under concatenation |
| Utf8.IsWellFormedUtf8 | src/core/vehicle_data.h:50-89 | the index loop decides well-formedness and reads only inside the given length |
| VehicleData.BoundedText.Assign | src/core/vehicle_data.h:19-33 | takes the whole C string if it is well-formed and fits, otherwise becomes empty |
| VehicleData.BoundedText.Clear | src/core/vehicle_data.h:35-38 | becomes empty |
| VehicleData.TextHoldsScalars | src/core/vehicle_data.h:10-33 | a terminated buffer holds a text if and only if its encoding fits and it does not contain U+0000: no other character is encoded with a zero byte |
| VehicleData.FactoriesBuildExactly | src/core/vehicle_data.h:173-265 | a sample satisfies the factory invariant if and only if some factory call produces it |
| ExportSpec.DecodeInvertsRecord | src/application/vehicle_data_export_record.h:77-187 | every factory-built sample the encoder accepts is decoded from its record unchanged |
| ExportSpec.RecordInvertsDecode | src/application/vehicle_data_export_record.h:77-187 | every record the decoder accepts is the one record of the sample it yields, which is factory-built and encodable |
| ExportSpec.RecordIsLaidOut | src/application/vehicle_data_export_record.h:38-75 | the place and coding of every field of a record |
| ExportSpec.ExportedExactly | src/application/vehicle_data_export_record.h:189-238 | a factory-built sample is accepted if and only if its codes are known and its number is finite |
| ExportSpec.RefusalsAreExact | src/application/vehicle_data_export_record.h:77-110 | an unsupported version is reported exactly for inputs with the magic, the right length and another version; every other refusal is a malformed record |
| ExportRecord.Encode | src/application/vehicle_data_export_record.h:38-75 | error precedence, required size, and all bytes of the record; a failure leaves the buffer as it was |
| ExportRecord.RequiredCapacity | src/application/vehicle_data_export_record.h:27-36 | the exact length of the record |
| ExportRecord.Decode | src/application/vehicle_data_export_record.h:77-187 | agrees with the decoding function on every input; a failure leaves the caller's sample as it was |
| ExportRecord.ReadU64 | src/application/vehicle_data_export_record.h:315-321 | the shifting loop reads the little-endian value |
| ExportRecord.WriteU64 | src/application/vehicle_data_export_record.h:309-313 | the shifting loop writes the little-endian bytes and nothing else |
| ExportRecord.ContainsNull | src/application/vehicle_data_export_record.h:276-283 | finds a zero byte if and only if there is one |
| BoundedWriter.Writer.Append | src/application/ble_vehicle_data_payload.h:55-67 | appends all of the bytes or, when they do not fit, none; the bytes behind stay as they were |
| BleSpec.DecodeIsExact | tests/host/ble_payload_decoder.h:108-197 | the decoder yields a record if and only if the input is exactly the bytes of that record and the record is admissible |
| BleSpec.RoundTrip | src/application/ble_vehicle_data_payload.h:215-294 | what the encoder emits for a factory-built input is decoded to the same index, texts, codes, flags and time, and the value whenever there is one |
| BleSpec.EmittedExactly | src/application/ble_vehicle_data_payload.h:249-294 | the decoder accepts more than the encoder emits; a decodable record is emitted for some input exactly when value and type are present as its state demands |
| BleSpec.SomeDecodableRecordIsNeverEmitted | tests/host/ble_payload_decoder.h:156-197 | such a record: an available numeric sample of good quality without its value is decoded, and no input is encoded to it |
| BleSpec.SnapshotIsLaidOut | src/application/ble_vehicle_data_payload.h:215-232 | the place and coding of every field of a snapshot record |
| BleSpec.CapabilityIsLaidOut | src/application/ble_vehicle_data_payload.h:234-247 | the place and coding of every field of a capability record |
| BleSpec.SampleIsLaidOut | src/application/ble_vehicle_data_payload.h:249-294 | the place and coding of every field of a sample record |
| BleSpec.EncodedExactly | src/application/ble_vehicle_data_payload.h:249-266 | a factory-built sample is encoded if and only if its codes are known and a shown number is finite |
| BleRecord.Encode | src/application/ble_vehicle_data_payload.h:296-311 | the sizing pass equals the written length, the writing pass cannot fail after it, and a failure writes nothing |
| BleRecord.WriteSnapshot | src/application/ble_vehicle_data_payload.h:215-232 | writes the snapshot record, or fails exactly when it does not fit |
| BleRecord.WriteCapability | src/application/ble_vehicle_data_payload.h:234-247 | writes the capability record, or fails exactly when it does not fit |
| BleRecord.WriteSample | src/application/ble_vehicle_data_payload.h:249-294 | writes the sample record, or fails exactly when it does not fit |
| BleRecord.AppendBigEndian | src/application/ble_vehicle_data_payload.h:73-90 | the shifting loop appends the big-endian bytes |
| BleReader.DecodePayload | tests/host/ble_payload_decoder.h:108-197 | the cursor-based decoder computes the parser of DecodeIsExact on every input |
| BleReader.BlePayloadReader.NextInt | tests/host/ble_payload_decoder.h:49-75 | reads the big-endian value, or fails when too few bytes are left |
| BleReader.BlePayloadReader.NextText | tests/host/ble_payload_decoder.h:78-90 | reads a length-prefixed text exactly when a bounded text would hold it |
| JsonText.CharsAreRead | src/application/web_vehicle_data_response.h:56-98 | un-escaping a quoted text gives back every byte string |
| JsonText.NothingRawInside | src/application/web_vehicle_data_response.h:56-98 | between the quotes the text falls into plain bytes and escapes: no control byte and no quote that is not escaped |
| JsonText.NoPrefixCloses | src/application/web_vehicle_data_response.h:56-98 | a reader of such a text cannot leave the string before its closing quote |
| JsonText.ParseInvertsPrint | src/application/web_vehicle_data_response.h:222-304 | a reader of the JSON grammar recovers every printed value |
| JsonUtf8.PrintIsUtf8 | src/application/web_vehicle_data_response.h:56-98 | a printed text whose strings are well-formed UTF-8 is well-formed UTF-8 |
| Decimal.DigitsAreRead | src/application/web_vehicle_data_response.h:100-105 | decimal digits denote the number they were made from |
| Decimal.TwentyDigits | src/application/web_vehicle_data_response.h:100-105 | the twenty-byte conversion buffer suffices for every 64-bit value |
| WebResponseRead.ResponseIsRead | src/application/web_vehicle_data_response.h:222-304 | parsing the response text and reading it by member name, with the client's own table of names, gives back the snapshot, capabilities and visible samples |
| WebResponseRead.SoundFormatExists | src/application/web_vehicle_data_response.h:107-117 | what is relied on about printed numbers can be met |
| WebResponseRead.ValidCallIsRead | src/application/web_vehicle_data_response.h:189-304 | from the text of every accepted input the client reads the selection, the identity, the capabilities and every field of every sample in order, with the value exactly when it is available and not invalid |
| WebResponseRead.AcceptedExactly | src/application/web_vehicle_data_response.h:189-220 | with factory-built samples an input is accepted if and only if its codes are known, an identity is given exactly for a selected profile, no capabilities are counted without a registry, and shown numbers are finite |
| WebResponseRead.ResponseIsUtf8 | src/application/web_vehicle_data_response.h:222-304 | the response over factory-built samples is well-formed UTF-8 |
| WebResponse.Serialize | src/application/web_vehicle_data_response.h:310-341 | required size, status in every case, the whole terminated text on success, an untouched buffer otherwise |
| WebResponse.ValidateInput | src/application/web_vehicle_data_response.h:189-220 | accepts exactly the inputs with known codes, consistent metadata, present arrays and finite shown numbers |
| WebResponse.WriteResponse | src/application/web_vehicle_data_response.h:222-304 | appends the printed document, or fails exactly when it does not fit |
| WebResponse.AppendQuoted | src/application/web_vehicle_data_response.h:56-98 | the escaping loop appends the quoted text, or fails exactly when it does not fit |
| WebResponse.WriteSample | src/application/web_vehicle_data_response.h:261-302 | appends the sample object; a value appears only when the sample has one |
| StoreSpec.SlotsAreExact | src/core/vehicle_data_store.h:28-47 | after any submissions the slots hold the first Capacity distinct signals in order of first appearance, each with the last submission among those of greatest timestamp |
| StoreSpec.CurrentIsUnique | src/core/vehicle_data_store.h:38-40 | that submission is determined uniquely |
| StoreSpec.AppearancesAreExact | src/core/vehicle_data_store.h:42-46 | the order of first appearance lists every submitted signal once, by first submission |
| StoreSpec.AnswersAreExact | src/core/vehicle_data_store.h:28-47 | what a submission is answered follows from the history: updated or ignored as older by the latest time of its signal, inserted while a slot is free, else full |
| Store.VehicleDataStore.Upsert | src/core/vehicle_data_store.h:28-47 | the slots and the answer are those of the fold over the whole history |
| Store.VehicleDataStore.Lookup | src/core/vehicle_data_store.h:49-58 | finds a signal exactly when it was among the first Capacity ones, and then its current sample; otherwise the caller's sample stays |
| Store.VehicleDataStore.Snapshot | src/core/vehicle_data_store.h:60-71 | copies all slots in order, or nothing when they do not fit |

## Left out

- IsoTpDelivery.HealthyRunDelivers: does not bound the time a transfer takes, because the code sets no deadline while a driver keeps answering that it is busy.
- IsoTpTransport.IsoTpTransport.OnCanFrame: does not use the time stamp of a frame, because the transport reads its own clock.
- ObdService.ObdService.PollService: does not cover a transport that reports more bytes than the buffer holds, because the OBD service relies on the transport for that bound; the UDS service checks it and is proved for any transport.
- BleReader.DecodePayload: does not model what the output record holds after a failed decode, because the original leaves it partly filled and no caller may use it.
- BoundedWriter.Writer.Append: models size_t as 32 bits wide, the width of the embedded target; a larger limit only makes more inputs fit. Both encoders have such a writer, and one class models the two.
- WebResponse.AppendNumber: does not model the digits of a double, because the conversion is the standard library's; see NumberFormat.
- JsonText.ParseInvertsPrint: does not check the grammar inside a number token and does not read surrogate pairs or white space, because the writer emits neither.
- Fairness of the scheduler: an early job may starve later ones by design.
- That no stale message exists when a request starts: a frame that arrives while a service is idle may be buffered.
- A time limit on a service waiting for its request to be transmitted: the code sets none; over the transport modelled here that state is never entered.
- The accessors of the services, the sample's isCurrent and other one-line queries: they only return a field.
- The CAN driver for the ESP32, the sketch, board and pin configuration: calls into foreign code.
- The active profile, the signal registry and the read model that joins them: they only pass values on; snapshots and descriptors are inputs here.
- The web pages, fixtures and mock objects of the host tests.
