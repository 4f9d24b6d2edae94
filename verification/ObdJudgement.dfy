/**
 What the OBD service makes of every call, told from the outside: over every history, requests
 ask for just the response that will be accepted, and polls decide by the request that was
 sent and the readings made.
 */
module ObdJudgement {
  import opened Types
  import opened Diagnostic
  import opened Endian
  import opened ObdSpec
  import opened ObdRuns
  import Guard = ReadOnlyGuard

  datatype Watch = Watch(
    ask: Ask,          // the last request that reached the transport
    asked: seq<Byte>,  // its payload
    until: nat)        // when the wait for its response is over

  function Observe(timeoutMs: U32, w: Watch, s: Obd, e: Event): Watch {
    match e
    case Asked(ask, reply, now) =>
      var calls := RequestCalls(timeoutMs, s, ask, reply, 0);
      if |calls| == 1 && calls[0].Sent? then Watch(ask, calls[0].payload, now + timeoutMs) else w
    case Polled(_, now, _) => if s.phase == AwaitingTransmit then w.(until := now + timeoutMs) else w
  }

  function Watched(timeoutMs: U32, events: seq<Event>): Watch {
    if events == [] then Watch(AskStoredDtcs, [], 0)
    else
      var n := |events| - 1;
      Observe(timeoutMs, Watched(timeoutMs, events[..n]), Run(timeoutMs, events[..n]), events[n])
  }

  predicate AsksFor(s: Obd, w: Watch) {
    match w.ask
    case AskCurrentData(pid) => s.kind == CurrentData && s.pid == pid && w.asked == [0x01, pid]
    case AskSupportedPids(pid) => s.kind == SupportedPids && s.pid == pid && w.asked == [0x01, pid]
    case AskVin => s.kind == Vin && s.pid == 0x02 && w.asked == [0x09, 0x02]
    case AskStoredDtcs => s.kind == StoredDtcs && w.asked == [0x03]
  }

  predicate Agrees(timeoutMs: U32, s: Obd, w: Watch) {
    s.Active() ==> AsksFor(s, w) && NoResult(s) && (s.phase == AwaitingResponse ==> w.until == s.deadline)
  }

  lemma AskAgrees(timeoutMs: U32, s: Obd, w: Watch, e: Event)
    requires Agrees(timeoutMs, s, w) && e.Asked?
    ensures Agrees(timeoutMs, Next(timeoutMs, s, e), Observe(timeoutMs, w, s, e))
  {
  }

  lemma RequestStays(timeoutMs: U32, s: Obd, e: Event)
    requires e.Polled? && Next(timeoutMs, s, e).Active()
    ensures var s' := Next(timeoutMs, s, e); s'.kind == s.kind && s'.pid == s.pid && (NoResult(s) ==> NoResult(s'))
    ensures s.phase == AwaitingTransmit ==>
      Next(timeoutMs, s, e).phase == AwaitingTransmit || Next(timeoutMs, s, e).deadline == e.now + timeoutMs
  {
  }

  lemma StepAgrees(timeoutMs: U32, s: Obd, w: Watch, e: Event)
    requires Agrees(timeoutMs, s, w)
    ensures Agrees(timeoutMs, Next(timeoutMs, s, e), Observe(timeoutMs, w, s, e))
  {
    if e.Asked? {
      AskAgrees(timeoutMs, s, w, e);
    } else if Next(timeoutMs, s, e).Active() {
      RequestStays(timeoutMs, s, e);
      if s.phase == AwaitingResponse {
        DeadlineStays(timeoutMs, s, e);
      }
    }
  }

  lemma {:induction false} RunAgrees(timeoutMs: U32, events: seq<Event>)
    ensures Agrees(timeoutMs, Run(timeoutMs, events), Watched(timeoutMs, events))
  {
    if events != [] {
      var n := |events| - 1;
      RunAgrees(timeoutMs, events[..n]);
      StepAgrees(timeoutMs, Run(timeoutMs, events[..n]), Watched(timeoutMs, events[..n]), events[n]);
    }
  }

  // ---- Requests ----

  // The service byte of the positive response to a service.
  function Positive(service: Byte): Byte {
    (service + 0x40) % 0x100
  }

  // The bytes a positive response to a request repeats.
  function Echo(asked: seq<Byte>): seq<Byte>
    requires asked != []
  {
    [Positive(asked[0])] + asked[1..]
  }

  /** What is sent asks for the response that is accepted, which begins with its echo. */
  predicate AsksForItsResponse(ask: Ask, payload: seq<Byte>) {
    && payload != []
    && match ask
       case AskCurrentData(pid) => PidResponse(pid, []) == Echo(payload)
       case AskSupportedPids(pid) => BitmapResponse(pid, 0)[..2] == Echo(payload)
       case AskVin => VinResponse(NO_VIN)[..2] == Echo(payload)
       case AskStoredDtcs => DtcResponse([]) == Echo(payload)
  }

  // What becomes of a request the transport was asked to send.
  predicate Launched(s': Obd, answer: TransportStatus) {
    && NoResult(s') && s'.transport == answer
    && match answer
       case Complete => s'.phase == AwaitingResponse && s'.status == ObdStatus.InProgress
       case InProgress => s'.phase == AwaitingTransmit && s'.status == ObdStatus.InProgress
       case _ => !s'.Active() && s'.status == TransportFailure
  }

  lemma PayloadAsks(ask: Ask)
    ensures var d := Guard.Decide(GuardRequest(ask)); d.Forward? && AsksForItsResponse(ask, d.payload)
  {
  }

  lemma BlockBases(pid: Byte)
    ensures IsSupportedPidBlockBase(pid) <==> pid in {0x00, 0x20, 0x40, 0x60, 0x80, 0xA0, 0xC0}
  {
  }

  lemma RequestLaunches(timeoutMs: U32, s: Obd, ask: Ask, reply: Guard.ReadOnlyResult, now: nat)
    requires !Refused(timeoutMs, s, ask) && reply.status == Guard.Forwarded
    ensures Launched(Request(timeoutMs, s, ask, reply, now), reply.transportStatus)
  {
  }

  /** Every request is refused without a trace on the transport, or sends one payload. */
  lemma EveryRequestIsDecided(timeoutMs: U32, events: seq<Event>, ask: Ask, reply: Guard.ReadOnlyResult, now: nat,
                              k: nat)
    requires reply.status == Guard.Forwarded
    ensures var s := Run(timeoutMs, events);
      var s', calls := Request(timeoutMs, s, ask, reply, now), RequestCalls(timeoutMs, s, ask, reply, k);
      && RequestReadings(timeoutMs, s, ask, reply, now)
         == (if calls != [] && reply.transportStatus == Complete then [now] else [])
      && if s.Active() then calls == [] && s' == s.(status := ObdStatus.Busy)
         else if timeoutMs == 0
                 || (ask.AskSupportedPids? && ask.basePid !in {0x00, 0x20, 0x40, 0x60, 0x80, 0xA0, 0xC0}) then
           calls == [] && s' == s.(kind := NoRequest, status := InvalidRequest)
         else
           && (exists payload ::
                 AsksForItsResponse(ask, payload) && calls == [Sent(payload, reply.transportStatus, k)])
           && Launched(s', reply.transportStatus)
  {
    var s := Run(timeoutMs, events);
    if ask.AskSupportedPids? {
      BlockBases(ask.basePid);
    }
    if !Refused(timeoutMs, s, ask) {
      PayloadAsks(ask);
      RequestLaunches(timeoutMs, s, ask, reply, now);
    }
  }

  // ---- Polls ----

  // The transaction is over, with this status, nothing published and the transport's buffer emptied.
  predicate Ends(r: Result, status: ObdStatus) {
    && r.returned == r.next.status == status && !r.next.Active() && NoResult(r.next) && r.discarded
  }

  // The transaction goes on as it was.
  predicate GoesOn(s: Obd, r: Result, status: ObdStatus, transport: TransportStatus) {
    r == Result(s.(status := status, transport := transport), status, false)
  }

  // The transaction is over and its result is published, whatever it is.
  predicate Answered(r: Result) {
    r.returned == r.next.status == ResponseReady && !r.next.Active() && r.discarded
  }

  /** What follows the echo is published if it has the right shape, and ends the transaction if not. */
  predicate ContentJudged(ask: Ask, content: seq<Byte>, r: Result) {
    match ask
    case AskCurrentData(_) =>
      if content == [] then Ends(r, InvalidResponse)
      else Answered(r) && r.next.rawData == content && NoResult(r.next.(rawData := []))
    case AskSupportedPids(_) =>
      if |content| != 4 then Ends(r, InvalidResponse)
      else Answered(r) && ToBigEndian(r.next.bitmap, 4) == content && NoResult(r.next.(bitmap := 0))
    case AskVin =>
      if |content| != 18 || content[0] != 0x01 then Ends(r, InvalidResponse)
      else Answered(r) && r.next.vin == content[1..] && NoResult(r.next.(vin := NO_VIN))
    case AskStoredDtcs =>
      if |content| % 2 != 0 || |NonZero(Pairs(content))| > 16 then Ends(r, InvalidResponse)
      else Answered(r) && r.next.dtcs == NonZero(Pairs(content)) && NoResult(r.next.(dtcs := []))
  }

  predicate MessageJudged(s: Obd, w: Watch, message: seq<Byte>, r: Result)
    requires w.asked != []
  {
    var echo := Echo(w.asked);
    if echo <= message then ContentJudged(w.ask, message[|echo|..], r)
    else GoesOn(s, r, UnexpectedResponse, Complete)
  }

  lemma EchoIsFound(s: Obd, w: Watch, message: seq<Byte>)
    requires AsksFor(s, w)
    ensures w.asked != []
    ensures Echo(w.asked) <= message
       <==> message != [] && message[0] == ExpectedService(s.kind)
            && (s.kind == StoredDtcs || (|message| >= 2 && message[1] == s.pid))
  {
    var echo := Echo(w.asked);
    assert echo == if s.kind == StoredDtcs then [0x43] else [ExpectedService(s.kind), s.pid];
  }

  lemma MessageIsJudged(s: Obd, w: Watch, message: seq<Byte>)
    requires s.phase == AwaitingResponse && AsksFor(s, w) && NoResult(s) && |message| <= MAX_RAW_DATA
    ensures w.asked != [] && MessageJudged(s, w, message, Handle(s.(transport := Complete), message))
  {
    EchoIsFound(s, w, message);
    if Echo(w.asked) <= message {
      ContentIsJudged(s, w, message);
    }
  }

  lemma ContentIsJudged(s: Obd, w: Watch, message: seq<Byte>)
    requires s.phase == AwaitingResponse && AsksFor(s, w) && NoResult(s) && |message| <= MAX_RAW_DATA
    requires w.asked != [] && Echo(w.asked) <= message
    ensures ContentJudged(w.ask, message[|Echo(w.asked)|..], Handle(s.(transport := Complete), message))
  {
    EchoIsFound(s, w, message);
    if s.kind == SupportedPids && |message| == 6 {
      BigEndianBytes(message[2..]);
    }
    if s.kind == Vin && |message| == 20 {
      assert message[2..][1..] == message[3..];
    }
  }

  /** One poll of an active service, by what its transport answers. */
  predicate PollDecided(timeoutMs: U32, s: Obd, w: Watch, e: Event, r: Result)
    requires e.Polled? && w.asked != []
  {
    if s.phase == AwaitingTransmit then
      match e.polled
      case InProgress => GoesOn(s, r, ObdStatus.InProgress, e.polled)
      case Complete =>
        r.returned == ObdStatus.InProgress && r.next.phase == AwaitingResponse && NoResult(r.next) && !r.discarded
      case _ => Ends(r, TransportFailure)
    else if e.polled !in {TransportStatus.Idle, TransportStatus.InProgress, Complete} then Ends(r, TransportFailure)
    else if e.now >= w.until then Ends(r, ObdStatus.Timeout)
    else
      match e.got.status
      case NoData => GoesOn(s, r, ObdStatus.InProgress, NoData)
      case Complete => MessageJudged(s, w, Message(e.got), r)
      case _ => Ends(r, TransportFailure)
  }

  lemma PollIsDecided(timeoutMs: U32, s: Obd, w: Watch, e: Event)
    requires s.Active() && Agrees(timeoutMs, s, w) && e.Polled?
    ensures w.asked != [] && PollDecided(timeoutMs, s, w, e, Poll(timeoutMs, s, e.polled, e.now, e.got))
  {
    if Examined(s, e) {
      MessageIsJudged(s, w, Message(e.got));
    }
  }

  /** In every history every poll of an active service is decided by what the observer knows. */
  lemma EveryPollIsDecided(timeoutMs: U32, events: seq<Event>, e: Event)
    requires Run(timeoutMs, events).Active() && e.Polled?
    ensures Watched(timeoutMs, events).asked != []
    ensures PollDecided(timeoutMs, Run(timeoutMs, events), Watched(timeoutMs, events), e,
                        Poll(timeoutMs, Run(timeoutMs, events), e.polled, e.now, e.got))
  {
    RunAgrees(timeoutMs, events);
    PollIsDecided(timeoutMs, Run(timeoutMs, events), Watched(timeoutMs, events), e);
  }

  predicate Heard(e: Event)
    requires e.Polled?
  {
    e.polled in {TransportStatus.Idle, TransportStatus.InProgress, Complete}
  }

  // The clock readings of a poll: one when a wait begins or is checked.
  function ReadingsOf(s: Obd, e: Event): seq<nat>
    requires e.Polled?
  {
    if if s.phase == AwaitingTransmit then e.polled == Complete else Heard(e) then [e.now] else []
  }

  // The calls of a poll: poll, perhaps ask for a message, perhaps discard after so many readings.
  function CallsOf(e: Event, asks: bool, k: nat, ends: bool, readings: nat): seq<Call>
    requires e.Polled?
  {
    [Call.Polled(e.polled, k)]
    + (if asks then [Received(e.got.status, e.got.length, e.got.buffer, k + 1)] else [])
    + (if ends then [Discarded(k + readings)] else [])
  }

  lemma ReadingsAreDecided(timeoutMs: U32, s: Obd, e: Event)
    requires s.Active() && e.Polled?
    ensures var r := Poll(timeoutMs, s, e.polled, e.now, e.got);
      var readings := ReadingsOf(s, e);
      && PollReadings(s, e.polled, e.now) == readings
      && (r.discarded <==> !r.next.Active())
      && (r.discarded ==> |readings| == if s.phase == AwaitingResponse && Heard(e) then 1 else 0)
  {
  }

  lemma CallsAreDecided(s: Obd, e: Event, r: Result, k: nat)
    requires s.Active() && e.Polled?
    ensures var heard := s.phase == AwaitingResponse && Heard(e);
      PollCalls(s, e.polled, e.now, e.got, r, k)
      == CallsOf(e, heard && e.now < s.deadline, k, r.discarded, if heard then 1 else 0)
  {
  }

  /** What a poll asks of transport and clock, in order. */
  predicate OrderDecided(s: Obd, w: Watch, e: Event, r: Result, k: nat)
    requires e.Polled?
  {
    var readings := ReadingsOf(s, e);
    && PollReadings(s, e.polled, e.now) == readings
    && PollCalls(s, e.polled, e.now, e.got, r, k)
       == CallsOf(e, s.phase == AwaitingResponse && Heard(e) && e.now < w.until, k, !r.next.Active(), |readings|)
  }

  lemma OrderIsDecided(timeoutMs: U32, s: Obd, w: Watch, e: Event, k: nat)
    requires s.Active() && Agrees(timeoutMs, s, w) && e.Polled?
    ensures OrderDecided(s, w, e, Poll(timeoutMs, s, e.polled, e.now, e.got), k)
  {
    ReadingsAreDecided(timeoutMs, s, e);
    CallsAreDecided(s, e, Poll(timeoutMs, s, e.polled, e.now, e.got), k);
  }

  /**
   In every history a poll of an active service asks the transport to poll, then, if a response
   is awaited and there is time, for a message, and last, exactly when the transaction ends, to
   discard; it reads the clock at most once.
   */
  lemma EveryCallIsDecided(timeoutMs: U32, events: seq<Event>, e: Event, k: nat)
    requires Run(timeoutMs, events).Active() && e.Polled?
    ensures OrderDecided(Run(timeoutMs, events), Watched(timeoutMs, events), e,
                         Poll(timeoutMs, Run(timeoutMs, events), e.polled, e.now, e.got), k)
  {
    RunAgrees(timeoutMs, events);
    OrderIsDecided(timeoutMs, Run(timeoutMs, events), Watched(timeoutMs, events), e, k);
  }

  // ---- Padding ----

  lemma OnePair(d: Dtc)
    ensures NonZero([d]) == if d.first == 0 && d.second == 0 then [] else [d]
  {
    assert [d][..0] == [];
  }

  /** Dropping the padding is determined by what it does to one pair, pair by pair and in order. */
  lemma {:induction false} PaddingIsDroppedInOrder(a: seq<Dtc>, b: seq<Dtc>, d: Dtc)
    ensures NonZero(a + b) == NonZero(a) + NonZero(b)
    ensures NonZero([d]) == if d.first == 0 && d.second == 0 then [] else [d]
  {
    OnePair(d);
    if b == [] {
      assert a + b == a;
    } else {
      var n := |b| - 1;
      var last := if b[n] == Dtc(0, 0) then [] else [b[n]];
      assert (a + b)[..|a| + n] == a + b[..n];
      PaddingIsDroppedInOrder(a, b[..n], d);
      assert NonZero(a + b) == (NonZero(a) + NonZero(b[..n])) + last == NonZero(a) + (NonZero(b[..n]) + last);
    }
  }
}
