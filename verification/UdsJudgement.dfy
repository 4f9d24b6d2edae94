/**
 What the UDS service makes of every call, told from the outside: over every history, requests
 ask for just the response that will be accepted, and polls decide by the payload that was
 sent, the response-pendings accepted since and the readings made.
 */
module UdsJudgement {
  import opened Types
  import opened Diagnostic
  import opened UdsSpec
  import opened UdsRuns
  import Guard = ReadOnlyGuard

  datatype Watch = Watch(
    asked: seq<Byte>,  // the payload of the last request that reached the transport
    accepted: nat,     // response-pendings accepted since
    until: nat)        // when the wait for its response is over

  function Observe(cfg: UdsConfig, w: Watch, s: Uds, e: Event): Watch {
    match e
    case Asked(ask, reply, now) =>
      var calls := RequestCalls(cfg, s, ask, reply, 0);
      if |calls| == 1 && calls[0].Sent? then Watch(calls[0].payload, 0, now + cfg.responseTimeoutMs) else w
    case Polled(polled, now, later, got) =>
      if Poll(cfg, s, polled, now, later, got).returned == ResponsePending then
        w.(accepted := w.accepted + 1, until := later + cfg.responsePendingTimeoutMs)
      else if s.phase == AwaitingTransmit then w.(until := now + cfg.responseTimeoutMs)
      else w
  }

  function Watched(cfg: UdsConfig, events: seq<Event>): Watch {
    if events == [] then Watch([], 0, 0)
    else
      var n := |events| - 1;
      Observe(cfg, Watched(cfg, events[..n]), Run(cfg, events[..n]), events[n])
  }

  // The payload that asks for the data of the active DID, or for a DTC report.
  predicate AsksFor(s: Uds, asked: seq<Byte>) {
    && |asked| == 3
    && if s.kind == ReadDataByIdentifier then asked == [0x22, s.did / 256, s.did % 256]
       else asked[..2] == [0x19, 0x02]
  }

  predicate Agrees(cfg: UdsConfig, s: Uds, w: Watch) {
    s.Active() ==>
      && AsksFor(s, w.asked) && w.accepted == s.pending <= cfg.maxPendingResponses && NoResult(s)
      && (s.phase == AwaitingResponse ==> w.until == s.deadline)
  }

  lemma AskAgrees(cfg: UdsConfig, s: Uds, w: Watch, e: Event)
    requires Agrees(cfg, s, w) && e.Asked?
    ensures Agrees(cfg, Next(cfg, s, e), Observe(cfg, w, s, e))
  {
    ActiveHasNoResult(cfg, s, e);
  }

  lemma AnswerAgrees(cfg: UdsConfig, s: Uds, w: Watch, e: Event)
    requires s.phase == AwaitingResponse && Agrees(cfg, s, w) && e.Polled?
    ensures Agrees(cfg, Next(cfg, s, e), Observe(cfg, w, s, e))
  {
    ActiveHasNoResult(cfg, s, e);
    EventSetsDeadline(cfg, s, e);
    RequestStays(cfg, s, e);
  }

  lemma RequestStays(cfg: UdsConfig, s: Uds, e: Event)
    requires e.Polled?
    ensures Next(cfg, s, e).kind == s.kind && Next(cfg, s, e).did == s.did
  {
  }

  lemma StepAgrees(cfg: UdsConfig, s: Uds, w: Watch, e: Event)
    requires Agrees(cfg, s, w)
    ensures Agrees(cfg, Next(cfg, s, e), Observe(cfg, w, s, e))
  {
    if e.Asked? {
      AskAgrees(cfg, s, w, e);
    } else if s.phase == AwaitingResponse {
      AnswerAgrees(cfg, s, w, e);
    }
  }

  lemma {:induction false} RunAgrees(cfg: UdsConfig, events: seq<Event>)
    ensures Agrees(cfg, Run(cfg, events), Watched(cfg, events))
  {
    if events != [] {
      var n := |events| - 1;
      RunAgrees(cfg, events[..n]);
      StepAgrees(cfg, Run(cfg, events[..n]), Watched(cfg, events[..n]), events[n]);
    }
  }

  // ---- Requests ----

  // The service byte of the positive response to a service.
  function Positive(service: Byte): Byte {
    (service + 0x40) % 0x100
  }

  /** What is sent asks for the response that is accepted: its positive answer echoes the payload. */
  predicate AsksForItsResponse(ask: Ask, payload: seq<Byte>) {
    && |payload| == 3
    && match ask
       case ReadDid(did) =>
         && payload[0] == 0x22 && Word(payload[1], payload[2]) == did
         && DataResponse(did, []) == [Positive(payload[0]), payload[1], payload[2]]
       case ReadDtcs(mask) =>
         && payload == [0x19, 0x02, mask]
         && DtcResponse(mask, [])[..2] == [Positive(payload[0]), payload[1]]
  }

  // What becomes of a request the transport was asked to send.
  predicate Launched(s': Uds, answer: TransportStatus) {
    && NoResult(s') && s'.nrc == 0 && s'.transport == answer
    && match answer
       case Complete => s'.phase == AwaitingResponse && s'.status == UdsStatus.InProgress
       case InProgress => s'.phase == AwaitingTransmit && s'.status == UdsStatus.InProgress
       case _ => !s'.Active() && s'.status == TransportFailure
  }

  lemma PayloadAsks(ask: Ask)
    ensures var d := Guard.Decide(GuardRequest(ask)); d.Forward? && AsksForItsResponse(ask, d.payload)
  {
  }

  lemma RequestLaunches(cfg: UdsConfig, s: Uds, ask: Ask, reply: Guard.ReadOnlyResult, now: nat)
    requires !Refused(cfg, s) && reply.status == Guard.Forwarded
    ensures Launched(Request(cfg, s, ask, reply, now), reply.transportStatus)
  {
  }

  /** Every request is refused without a trace on the transport, or sends one payload. */
  lemma EveryRequestIsDecided(cfg: UdsConfig, events: seq<Event>, ask: Ask, reply: Guard.ReadOnlyResult, now: nat,
                              k: nat)
    requires reply.status == Guard.Forwarded
    ensures var s := Run(cfg, events);
      var s', calls := Request(cfg, s, ask, reply, now), RequestCalls(cfg, s, ask, reply, k);
      && RequestReadings(cfg, s, reply, now) == (if calls != [] && reply.transportStatus == Complete then [now] else [])
      && if s.Active() then calls == [] && s' == s.(status := UdsStatus.Busy)
         else if cfg.responseTimeoutMs == 0 || cfg.responsePendingTimeoutMs == 0 then
           calls == [] && s' == s.(status := InvalidRequest)
         else
           && (exists payload ::
                 AsksForItsResponse(ask, payload) && calls == [Sent(payload, reply.transportStatus, k)])
           && Launched(s', reply.transportStatus)
  {
    var s := Run(cfg, events);
    if !Refused(cfg, s) {
      PayloadAsks(ask);
      RequestLaunches(cfg, s, ask, reply, now);
    }
  }

  // ---- Polls ----

  // The transaction is over, with this status, nothing published and the transport's buffer emptied.
  predicate Ends(r: Result, status: UdsStatus) {
    && r.returned == r.next.status == status && !r.next.Active() && NoResult(r.next) && r.discarded
  }

  // The transaction goes on as it was.
  predicate GoesOn(s: Uds, r: Result, status: UdsStatus, transport: TransportStatus) {
    r == Result(s.(status := status, transport := transport), status, false)
  }

  /** A negative response counts if it names the service byte that was sent. */
  predicate NegativeJudged(cfg: UdsConfig, s: Uds, w: Watch, sid: Byte, code: Byte, r: Result)
    requires w.asked != []
  {
    if sid != w.asked[0] then GoesOn(s, r, UnexpectedResponse, Complete)
    else
      && r.next.nrc == code
      && if code != 0x78 then Ends(r, NegativeResponse)
         else if w.accepted == cfg.maxPendingResponses then Ends(r, PendingLimitExceeded)
         else r.returned == ResponsePending && r.next.phase == s.phase && !r.discarded
  }

  // The bytes a positive response repeats: the whole request for data, the sub-function of a report.
  function Echo(asked: seq<Byte>): seq<Byte>
    requires |asked| == 3
  {
    [Positive(asked[0])] + (if asked[0] == 0x22 then asked[1..] else asked[1..2])
  }

  /** What follows the echo is published if it is complete, and ends the transaction if not. */
  predicate ContentJudged(w: Watch, content: seq<Byte>, r: Result)
    requires w.asked != []
  {
    if w.asked[0] == 0x22 then
      if content == [] then Ends(r, InvalidResponse)
      else
        && r.returned == r.next.status == ResponseReady && !r.next.Active() && r.discarded
        && r.next.rawData == content && r.next.dtcs == []
    else
      if |content| % 4 != 1 then Ends(r, InvalidResponse)
      else
        && r.returned == r.next.status == ResponseReady && !r.next.Active() && r.discarded
        && r.next.dtcMask == content[0] && Flatten(r.next.dtcs) == content[1..] && r.next.rawData == []
  }

  predicate PositiveJudged(s: Uds, w: Watch, message: seq<Byte>, r: Result)
    requires |w.asked| == 3 && message != []
  {
    var echo := Echo(w.asked);
    if message[0] != echo[0] then GoesOn(s, r, UnexpectedResponse, Complete)
    else if |message| < |echo| then Ends(r, InvalidResponse)
    else if !(echo <= message) then GoesOn(s, r, UnexpectedResponse, Complete)
    else ContentJudged(w, message[|echo|..], r)
  }

  predicate MessageJudged(cfg: UdsConfig, s: Uds, w: Watch, message: seq<Byte>, r: Result)
    requires |w.asked| == 3
  {
    if message == [] then
      if w.asked[0] == 0x22 then GoesOn(s, r, UnexpectedResponse, Complete) else Ends(r, InvalidResponse)
    else if message[0] != 0x7F then PositiveJudged(s, w, message, r)
    else if |message| != 3 then Ends(r, InvalidResponse)
    else NegativeJudged(cfg, s, w, message[1], message[2], r)
  }

  lemma NegativeIsJudged(cfg: UdsConfig, s: Uds, w: Watch, sid: Byte, code: Byte, later: nat)
    requires s.phase == AwaitingResponse && Agrees(cfg, s, w)
    ensures NegativeJudged(cfg, s, w, sid, code,
                           HandleNegative(cfg, s.(transport := Complete), [0x7F, sid, code], later))
  {
  }

  lemma DataIsJudged(s: Uds, w: Watch, message: seq<Byte>)
    requires s.Active() && NoResult(s) && AsksFor(s, w.asked) && s.kind == ReadDataByIdentifier
    requires 0 < |message| <= MAX_RAW_DATA
    ensures PositiveJudged(s, w, message, HandleData(s.(transport := Complete), message))
  {
    var echo := Echo(w.asked);
    assert echo == [0x62, s.did / 256, s.did % 256];
    if |message| >= 3 {
      assert echo <= message <==> message[0] == 0x62 && message[1] == s.did / 256 && message[2] == s.did % 256;
    }
  }

  lemma ReportIsJudged(s: Uds, w: Watch, message: seq<Byte>)
    requires s.Active() && NoResult(s) && AsksFor(s, w.asked) && s.kind == ReportDtcByStatusMask
    requires 0 < |message| <= MAX_RAW_DATA
    ensures PositiveJudged(s, w, message, HandleDtcs(s.(transport := Complete), message))
  {
    var echo := Echo(w.asked);
    assert w.asked[0] == w.asked[..2][0] && w.asked[1] == w.asked[..2][1];
    assert echo == [0x59, 0x02];
    if |message| >= 3 && echo <= message && (|message| - 3) % 4 == 0 {
      assert message[2..][1..] == message[3..];
      RecordsFlatten(message[3..]);
    }
  }

  lemma MessageIsJudged(cfg: UdsConfig, s: Uds, w: Watch, message: seq<Byte>, later: nat)
    requires s.phase == AwaitingResponse && Agrees(cfg, s, w) && |message| <= MAX_RAW_DATA
    ensures MessageJudged(cfg, s, w, message, Handle(cfg, s.(transport := Complete), message, later))
  {
    if message != [] && message[0] != 0x7F {
      if s.kind == ReadDataByIdentifier {
        DataIsJudged(s, w, message);
      } else {
        ReportIsJudged(s, w, message);
      }
    } else if |message| == 3 {
      assert message == [0x7F, message[1], message[2]];
      NegativeIsJudged(cfg, s, w, message[1], message[2], later);
    } else {
      assert w.asked[..2][0] == w.asked[0];
    }
  }

  /** One poll of an active service, by what its transport answers. */
  predicate PollDecided(cfg: UdsConfig, s: Uds, w: Watch, e: Event, r: Result)
    requires e.Polled? && |w.asked| == 3
  {
    if s.phase == AwaitingTransmit then
      match e.polled
      case InProgress => GoesOn(s, r, UdsStatus.InProgress, e.polled)
      case Complete =>
        r.returned == UdsStatus.InProgress && r.next.phase == AwaitingResponse && NoResult(r.next) && !r.discarded
      case _ => Ends(r, TransportFailure)
    else if e.polled !in {TransportStatus.Idle, TransportStatus.InProgress, Complete} then Ends(r, TransportFailure)
    else if e.now >= w.until then Ends(r, UdsStatus.Timeout)
    else
      match e.got.status
      case NoData => GoesOn(s, r, UdsStatus.InProgress, NoData)
      case Complete =>
        if e.got.length > MAX_RAW_DATA then Ends(r, InvalidResponse)
        else MessageJudged(cfg, s, w, Message(e.got), r)
      case _ => Ends(r, TransportFailure)
  }

  lemma PollIsDecided(cfg: UdsConfig, s: Uds, w: Watch, e: Event)
    requires s.Active() && Agrees(cfg, s, w) && e.Polled?
    ensures PollDecided(cfg, s, w, e, Poll(cfg, s, e.polled, e.now, e.later, e.got))
  {
    if Examined(s, e) {
      MessageIsJudged(cfg, s, w, Message(e.got), e.later);
    }
  }

  /** In every history every poll of an active service is decided by what the observer knows. */
  lemma EveryPollIsDecided(cfg: UdsConfig, events: seq<Event>, e: Event)
    requires Run(cfg, events).Active() && e.Polled?
    ensures |Watched(cfg, events).asked| == 3
    ensures PollDecided(cfg, Run(cfg, events), Watched(cfg, events), e,
                        Poll(cfg, Run(cfg, events), e.polled, e.now, e.later, e.got))
  {
    RunAgrees(cfg, events);
    PollIsDecided(cfg, Run(cfg, events), Watched(cfg, events), e);
  }

  predicate Heard(e: Event)
    requires e.Polled?
  {
    e.polled in {TransportStatus.Idle, TransportStatus.InProgress, Complete}
  }

  // The clock readings of a poll: one when a wait begins or is checked, another to extend it.
  function ReadingsOf(s: Uds, e: Event, extended: bool): seq<nat>
    requires e.Polled?
  {
    if s.phase == AwaitingTransmit then if e.polled == Complete then [e.now] else []
    else if !Heard(e) then []
    else [e.now] + (if extended then [e.later] else [])
  }

  // The calls of a poll: poll, perhaps ask for a message, perhaps discard after so many readings.
  function CallsOf(e: Event, asks: bool, k: nat, ends: bool, readings: nat): seq<Call>
    requires e.Polled?
  {
    [Call.Polled(e.polled, k)]
    + (if asks then [Received(e.got.status, e.got.length, e.got.buffer, k + 1)] else [])
    + (if ends then [Discarded(k + readings)] else [])
  }

  lemma ReadingsAreDecided(cfg: UdsConfig, s: Uds, e: Event)
    requires s.Active() && e.Polled?
    ensures var r := Poll(cfg, s, e.polled, e.now, e.later, e.got);
      var readings := ReadingsOf(s, e, r.returned == ResponsePending);
      && PollReadings(s, e.polled, e.now, e.later, r) == readings
      && (r.discarded <==> !r.next.Active())
      && (r.discarded ==> |readings| == if s.phase == AwaitingResponse && Heard(e) then 1 else 0)
  {
  }

  lemma CallsAreDecided(s: Uds, e: Event, r: Result, k: nat)
    requires s.Active() && e.Polled?
    ensures var heard := s.phase == AwaitingResponse && Heard(e);
      PollCalls(s, e.polled, e.now, e.got, r, k)
      == CallsOf(e, heard && e.now < s.deadline, k, r.discarded, if heard then 1 else 0)
  {
  }

  /** What a poll asks of transport and clock, in order. */
  predicate OrderDecided(s: Uds, w: Watch, e: Event, r: Result, k: nat)
    requires e.Polled?
  {
    var readings := ReadingsOf(s, e, r.returned == ResponsePending);
    && PollReadings(s, e.polled, e.now, e.later, r) == readings
    && PollCalls(s, e.polled, e.now, e.got, r, k)
       == CallsOf(e, s.phase == AwaitingResponse && Heard(e) && e.now < w.until, k, !r.next.Active(), |readings|)
  }

  lemma OrderIsDecided(cfg: UdsConfig, s: Uds, w: Watch, e: Event, k: nat)
    requires s.Active() && Agrees(cfg, s, w) && e.Polled?
    ensures OrderDecided(s, w, e, Poll(cfg, s, e.polled, e.now, e.later, e.got), k)
  {
    ReadingsAreDecided(cfg, s, e);
    CallsAreDecided(s, e, Poll(cfg, s, e.polled, e.now, e.later, e.got), k);
  }

  /**
   In every history a poll of an active service asks the transport to poll, then, if a response
   is awaited and there is time, for a message, and last, exactly when the transaction ends, to
   discard; it reads the clock once, and again only to go on after a response-pending.
   */
  lemma EveryCallIsDecided(cfg: UdsConfig, events: seq<Event>, e: Event, k: nat)
    requires Run(cfg, events).Active() && e.Polled?
    ensures OrderDecided(Run(cfg, events), Watched(cfg, events), e,
                         Poll(cfg, Run(cfg, events), e.polled, e.now, e.later, e.got), k)
  {
    RunAgrees(cfg, events);
    OrderIsDecided(cfg, Run(cfg, events), Watched(cfg, events), e, k);
  }

  /**
   In every history a negative response that is examined ends the transaction and leaves its
   code, goes on if it is a response-pending within the limit, and is passed over if it names
   another service than the one that was sent.
   */
  lemma EveryNegativeResponseIsJudged(cfg: UdsConfig, events: seq<Event>, e: Event, sid: Byte, code: Byte)
    requires Run(cfg, events).Active() && Examined(Run(cfg, events), e) && Message(e.got) == [0x7F, sid, code]
    ensures var s, w := Run(cfg, events), Watched(cfg, events);
      var r := Poll(cfg, s, e.polled, e.now, e.later, e.got);
      && w.asked != []
      && (sid == w.asked[0] && code != 0x78 ==> Ends(r, NegativeResponse) && r.next.nrc == code)
      && (sid == w.asked[0] && code == 0x78 ==>
            if w.accepted < cfg.maxPendingResponses then r.returned == ResponsePending && r.next.Active()
            else Ends(r, PendingLimitExceeded) && r.next.nrc == code)
      && (sid != w.asked[0] ==> GoesOn(s, r, UnexpectedResponse, Complete))
  {
    var s, w := Run(cfg, events), Watched(cfg, events);
    RunAgrees(cfg, events);
    NegativeIsJudged(cfg, s, w, sid, code, e.later);
  }
}
