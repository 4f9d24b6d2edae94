/**
 From the bus to the result, completely: when the segments of a matching response arrive in
 order and in time at a service that waits for it, the next timely poll publishes it.
 */
module StackDelivery {
  import opened Types
  import opened Can
  import opened IsoTpSpec
  import opened IsoTpSegments
  import opened IsoTpLink
  import opened IsoTpDelivery
  import opened IsoTpTimely
  import O = ObdSpec
  import OR = ObdRuns
  import U = UdsSpec
  import UR = UdsRuns
  import opened DiagnosticStack

  // Frame number k of the response reaches the transport, and its driver takes the answer.
  predicate Arrives(cfg: StackConfig, e: DiagnosticStack.Event, p: seq<Byte>, k: nat)
    requires Sendable(p) && k < SegmentCount(p)
  {
    e.Bus? && IsSegment(e.frame, p, k) && Addressed(cfg.iso, e.frame) && e.hal.status == Ok
  }

  /** The frames of the response arrive in order, each before the deadline its predecessor set. */
  predicate ArriveFrom(cfg: StackConfig, events: seq<DiagnosticStack.Event>, p: seq<Byte>, k: nat)
    requires Sendable(p) && k <= SegmentCount(p)
    decreases |events|
  {
    if events == [] then k == SegmentCount(p)
    else
      && k < SegmentCount(p) && Arrives(cfg, events[0], p, k)
      && (|events| > 1 ==> events[1].now < events[0].now + cfg.iso.consecutiveFrameTimeoutMs)
      && ArriveFrom(cfg, events[1..], p, k + 1)
  }

  // Further events at the stack.
  function Feed(cfg: StackConfig, s: Stack, events: seq<DiagnosticStack.Event>): (s': Stack)
    requires Sound(cfg.iso, s.tp)
    ensures Sound(cfg.iso, s'.tp)
    decreases |events|
  {
    if events == [] then s else Feed(cfg, StackStep(cfg, s, events[0]).next, events[1..])
  }

  lemma {:induction false} RunFeeds(cfg: StackConfig, history: seq<DiagnosticStack.Event>,
                                    events: seq<DiagnosticStack.Event>)
    ensures DiagnosticStack.Run(cfg, history + events) == Feed(cfg, DiagnosticStack.Run(cfg, history), events)
    decreases |events|
  {
    if events == [] {
      assert history + events == history;
    } else {
      var longer := history + [events[0]];
      assert longer + events[1..] == history + events;
      assert longer[..|longer| - 1] == history;
      RunFeeds(cfg, longer, events[1..]);
    }
  }

  // ---- Arrival ----

  lemma FrameArrives(cfg: StackConfig, s: Stack, p: seq<Byte>, k: nat, e: DiagnosticStack.Event)
    requires Sound(cfg.iso, s.tp) && s.tp.tx.Silent? && 1 <= |p| <= cfg.iso.maxPayload <= MAX_PAYLOAD
    requires k < SegmentCount(p) && HasReceived(s.tp.rx, p, k) && Arrives(cfg, e, p, k)
    requires !RxExpired(s.tp.rx, e.now)
    ensures var s' := StackStep(cfg, s, e).next;
      && s'.obd == s.obd && s'.uds == s.uds && s'.tp.tx.Silent? && HasReceived(s'.tp.rx, p, k + 1)
      && (s'.tp.rx.Receiving? ==> s'.tp.rx.deadline == e.now + cfg.iso.consecutiveFrameTimeoutMs)
  {
    RoutedData(cfg.iso, s.tp, e.frame, e.now, e.hal);
    SegmentAccepted(cfg.iso, s.tp.rx, p, k, e.frame, e.now, e.hal);
    DataMovesDeadline(cfg.iso, s.tp.rx, e.frame, e.now, e.hal);
    CarriedGrows(p, k);
  }

  lemma {:induction false} MessageArrives(cfg: StackConfig, s: Stack, p: seq<Byte>, k: nat,
                                          events: seq<DiagnosticStack.Event>)
    requires Sound(cfg.iso, s.tp) && s.tp.tx.Silent? && 1 <= |p| <= cfg.iso.maxPayload <= MAX_PAYLOAD
    requires k <= SegmentCount(p) && HasReceived(s.tp.rx, p, k) && ArriveFrom(cfg, events, p, k)
    requires events != [] ==> !RxExpired(s.tp.rx, events[0].now)
    ensures var s' := Feed(cfg, s, events);
      s'.obd == s.obd && s'.uds == s.uds && s'.tp == Transport(Ready(p), Silent)
    decreases |events|
  {
    if events != [] {
      FrameArrives(cfg, s, p, k, events[0]);
      MessageArrives(cfg, StackStep(cfg, s, events[0]).next, p, k + 1, events[1..]);
    }
  }

  // A response that arrives in some run while nothing else is being received.
  lemma ResponseArrives(cfg: StackConfig, history: seq<DiagnosticStack.Event>, p: seq<Byte>,
                        arrivals: seq<DiagnosticStack.Event>)
    requires 1 <= |p| <= cfg.iso.maxPayload <= MAX_PAYLOAD && ArriveFrom(cfg, arrivals, p, 0)
    requires DiagnosticStack.Run(cfg, history).tp.rx.Empty?
    ensures var before, after := DiagnosticStack.Run(cfg, history), DiagnosticStack.Run(cfg, history + arrivals);
      after.obd == before.obd && after.uds == before.uds && after.tp == Transport(Ready(p), Silent)
  {
    StackStaysQuiet(cfg, history);
    MessageArrives(cfg, DiagnosticStack.Run(cfg, history), p, 0, arrivals);
    RunFeeds(cfg, history, arrivals);
  }

  // ---- Publication ----

  // The poll of a waiting service with a complete message in the transport examines that message.
  lemma UdsExamines(cfg: StackConfig, s: Stack, p: seq<Byte>, at: nat, now: nat, later: nat, hal: Hal)
    requires cfg.iso.Valid() && Sound(cfg.iso, s.tp) && s.tp == Transport(Ready(p), Silent) && |p| <= 64
    requires s.uds.phase == U.AwaitingResponse && now < s.uds.deadline
    ensures var e := UdsPolled(cfg, s, at, now, later, hal);
      && UR.Examined(s.uds, e) && UR.Message(e.got) == p
      && StackStep(cfg, s, UdsPoll(at, now, later, hal)).next.uds == UR.Next(cfg.uds, s.uds, e)
  {
  }

  lemma ObdExamines(cfg: StackConfig, s: Stack, p: seq<Byte>, at: nat, now: nat, hal: Hal)
    requires cfg.iso.Valid() && Sound(cfg.iso, s.tp) && s.tp == Transport(Ready(p), Silent) && |p| <= 64
    requires s.obd.phase == O.AwaitingResponse && now < s.obd.deadline
    ensures var e := ObdPolled(cfg, s, at, now, hal);
      && OR.Examined(s.obd, e) && OR.Message(e.got) == p
      && StackStep(cfg, s, ObdPoll(at, now, hal)).next.obd == OR.Next(cfg.obdTimeoutMs, s.obd, e)
  {
  }

  /** A UDS response that arrives in time is published by the next poll before the deadline. */
  lemma UdsResponseIsPublished(cfg: StackConfig, history: seq<DiagnosticStack.Event>, p: seq<Byte>,
                               arrivals: seq<DiagnosticStack.Event>, at: nat, now: nat, later: nat, hal: Hal)
    requires cfg.iso.Valid() && 1 <= |p| <= Min(cfg.iso.maxPayload, 64) && ArriveFrom(cfg, arrivals, p, 0)
    requires var s := DiagnosticStack.Run(cfg, history);
      s.tp.rx.Empty? && s.uds.phase == U.AwaitingResponse && now < s.uds.deadline
    ensures var uds := DiagnosticStack.Run(cfg, history).uds;
      var uds' := StackStep(cfg, DiagnosticStack.Run(cfg, history + arrivals), UdsPoll(at, now, later, hal)).next.uds;
      && (forall data :: uds.kind == U.ReadDataByIdentifier && data != [] && p == UR.DataResponse(uds.did, data) ==>
            uds'.status == U.ResponseReady && uds'.rawData == data)
      && (forall mask, dtcs :: uds.kind == U.ReportDtcByStatusMask && p == UR.DtcResponse(mask, dtcs) ==>
            uds'.status == U.ResponseReady && uds'.dtcMask == mask && uds'.dtcs == dtcs)
  {
    ResponseArrives(cfg, history, p, arrivals);
    var s := DiagnosticStack.Run(cfg, history + arrivals);
    UdsExamines(cfg, s, p, at, now, later, hal);
    var e := UdsPolled(cfg, s, at, now, later, hal);
    forall data | s.uds.kind == U.ReadDataByIdentifier && data != [] && p == UR.DataResponse(s.uds.did, data)
      ensures UR.Next(cfg.uds, s.uds, e).status == U.ResponseReady && UR.Next(cfg.uds, s.uds, e).rawData == data
    {
      UR.DataResponseIsPublished(cfg.uds, s.uds, e, data);
    }
    forall mask, dtcs | s.uds.kind == U.ReportDtcByStatusMask && p == UR.DtcResponse(mask, dtcs)
      ensures var uds' := UR.Next(cfg.uds, s.uds, e);
        uds'.status == U.ResponseReady && uds'.dtcMask == mask && uds'.dtcs == dtcs
    {
      UR.DtcResponseIsPublished(cfg.uds, s.uds, e, mask, dtcs);
    }
  }

  // If the response answers the active request, the service published what it says.
  ghost predicate Answered(obd: O.Obd, obd': O.Obd, p: seq<Byte>) {
    match obd.kind
    case CurrentData =>
      forall data :: data != [] && p == OR.PidResponse(obd.pid, data) ==>
        obd'.status == O.ResponseReady && obd'.rawData == data
    case SupportedPids =>
      forall bitmap :: p == OR.BitmapResponse(obd.pid, bitmap) ==>
        obd'.status == O.ResponseReady && obd'.bitmap == bitmap
    case Vin =>
      forall vin :: obd.pid == O.VIN_PID && p == OR.VinResponse(vin) ==>
        obd'.status == O.ResponseReady && obd'.vin == vin
    case StoredDtcs =>
      forall pairs :: p == OR.DtcResponse(pairs) && |O.NonZero(pairs)| <= O.MAX_STORED_DTCS ==>
        obd'.status == O.ResponseReady && obd'.dtcs == O.NonZero(pairs)
    case NoRequest => true
  }

  /** The same for an OBD response. */
  lemma ObdResponseIsPublished(cfg: StackConfig, history: seq<DiagnosticStack.Event>, p: seq<Byte>,
                               arrivals: seq<DiagnosticStack.Event>, at: nat, now: nat, hal: Hal)
    requires cfg.iso.Valid() && 1 <= |p| <= Min(cfg.iso.maxPayload, 64) && ArriveFrom(cfg, arrivals, p, 0)
    requires var s := DiagnosticStack.Run(cfg, history);
      s.tp.rx.Empty? && s.obd.phase == O.AwaitingResponse && now < s.obd.deadline
    ensures var s := DiagnosticStack.Run(cfg, history + arrivals);
      Answered(DiagnosticStack.Run(cfg, history).obd, StackStep(cfg, s, ObdPoll(at, now, hal)).next.obd, p)
  {
    ResponseArrives(cfg, history, p, arrivals);
    var s := DiagnosticStack.Run(cfg, history + arrivals);
    ObdExamines(cfg, s, p, at, now, hal);
    ExaminedIsAnswered(cfg.obdTimeoutMs, s.obd, ObdPolled(cfg, s, at, now, hal), p);
  }

  lemma ExaminedIsAnswered(timeoutMs: U32, obd: O.Obd, e: OR.Event, p: seq<Byte>)
    requires OR.Examined(obd, e) && OR.Message(e.got) == p
    ensures Answered(obd, OR.Next(timeoutMs, obd, e), p)
  {
    var obd' := OR.Next(timeoutMs, obd, e);
    match obd.kind
    case CurrentData =>
      forall data | data != [] && p == OR.PidResponse(obd.pid, data)
        ensures obd'.status == O.ResponseReady && obd'.rawData == data
      {
        OR.PidResponseIsPublished(timeoutMs, obd, e, data);
      }
    case SupportedPids =>
      forall bitmap | p == OR.BitmapResponse(obd.pid, bitmap)
        ensures obd'.status == O.ResponseReady && obd'.bitmap == bitmap
      {
        OR.BitmapResponseIsPublished(timeoutMs, obd, e, bitmap);
      }
    case Vin =>
      forall vin | obd.pid == O.VIN_PID && p == OR.VinResponse(vin)
        ensures obd'.status == O.ResponseReady && obd'.vin == vin
      {
        OR.VinResponseIsPublished(timeoutMs, obd, e, vin);
      }
    case StoredDtcs =>
      forall pairs | p == OR.DtcResponse(pairs) && |O.NonZero(pairs)| <= O.MAX_STORED_DTCS
        ensures obd'.status == O.ResponseReady && obd'.dtcs == O.NonZero(pairs)
      {
        OR.DtcResponseIsPublished(timeoutMs, obd, e, pairs);
      }
    case NoRequest =>
  }
}
