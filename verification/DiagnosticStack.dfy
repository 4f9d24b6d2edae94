/**
 The whole stack: OBD and UDS services issue requests through the guard into one
 ISO-TP transport, frames arrive from the bus, and the services poll, in any order.
 */
module DiagnosticStack {
  import opened Types
  import opened Can
  import Diagnostic
  import opened IsoTpSpec
  import opened IsoTpSegments
  import opened IsoTpReceive
  import Guard = ReadOnlyGuard
  import O = ObdSpec
  import OR = ObdRuns
  import U = UdsSpec
  import UR = UdsRuns

  datatype StackConfig = StackConfig(iso: Config, obdTimeoutMs: U32, uds: U.UdsConfig)

  // `frames` is what an observer of the bus saw become part of the current message.
  datatype Stack = Stack(obd: O.Obd, uds: U.Uds, tp: Transport, frames: seq<CanFrame>)

  // In a poll the transport reads the clock at `at`, the service at `now` and perhaps at `later`.
  datatype Event =
    | ObdAsk(obdAsk: O.Ask, now: nat, hal: Hal)
    | UdsAsk(udsAsk: U.Ask, now: nat, hal: Hal)
    | ObdPoll(at: nat, now: nat, hal: Hal)
    | UdsPoll(at: nat, now: nat, later: nat, hal: Hal)
    | Bus(frame: CanFrame, now: nat, hal: Hal)

  datatype StackOutcome = StackOutcome(next: Stack, sent: Option<CanFrame>)

  function Forward(cfg: StackConfig, tp: Transport, request: Guard.Request, hal: Hal)
    : (r: (Outcome, Guard.ReadOnlyResult))
    requires Sound(cfg.iso, tp) && Guard.Decide(request).Forward?
    ensures Sound(cfg.iso, r.0.next)
  {
    var o := Step(cfg.iso, tp, Start(Some(Guard.Decide(request).payload), hal));
    (o, Guard.ReadOnlyResult(Guard.Forwarded, o.status))
  }

  // A receive into the services' 64-byte buffer.
  function Receive64(rx: Rx): (r: (RxOutcome, nat, U.ResponseBuffer))
    ensures r.0.status == Diagnostic.Complete ==>
      rx.Ready? && r.1 == |rx.message| <= 64 && r.2[..r.1] == rx.message
  {
    var o := RxTake(rx, Some(64));
    if o.status == Diagnostic.Complete
    then (o, |rx.message|, rx.message + seq(64 - |rx.message|, _ => 0))
    else (o, 0, U.ZEROS)
  }

  // The receive side after a service's poll.
  function Released(rx: Rx, receives: bool, discards: bool): Rx {
    var taken := if receives then RxTake(rx, Some(64)).rx else rx;
    if discards then RxDiscard(taken) else taken
  }

  function PollObd(cfg: StackConfig, s: Stack, at: nat, now: nat, hal: Hal): (O.Result, Outcome, bool)
    requires Sound(cfg.iso, s.tp)
  {
    var polled := StepPoll(cfg.iso, s.tp, at, hal);
    var (taken, length, buffer) := Receive64(polled.next.rx);
    (O.Poll(cfg.obdTimeoutMs, s.obd, polled.status, now, O.Answer(taken.status, length, buffer)),
     polled, O.Receives(s.obd, polled.status, now))
  }

  function PollUds(cfg: StackConfig, s: Stack, at: nat, now: nat, later: nat, hal: Hal): (U.Result, Outcome, bool)
    requires Sound(cfg.iso, s.tp)
  {
    var polled := StepPoll(cfg.iso, s.tp, at, hal);
    var (taken, length, buffer) := Receive64(polled.next.rx);
    (U.Poll(cfg.uds, s.uds, polled.status, now, later, U.Reception(taken.status, length, buffer)),
     polled, U.Receives(s.uds, polled.status, now))
  }

  function StackStep(cfg: StackConfig, s: Stack, e: Event): (o: StackOutcome)
    requires Sound(cfg.iso, s.tp)
    ensures Sound(cfg.iso, o.next.tp)
  {
    match e
    case ObdAsk(ask, now, hal) =>
      if O.Refused(cfg.obdTimeoutMs, s.obd, ask) then StackOutcome(s.(obd := O.Refuse(s.obd)), None)
      else
        var (o, reply) := Forward(cfg, s.tp, O.GuardRequest(ask), hal);
        StackOutcome(s.(obd := O.Request(cfg.obdTimeoutMs, s.obd, ask, reply, now), tp := o.next), o.sent)
    case UdsAsk(ask, now, hal) =>
      if U.Refused(cfg.uds, s.uds) then StackOutcome(s.(uds := U.Refuse(s.uds)), None)
      else
        var (o, reply) := Forward(cfg, s.tp, U.GuardRequest(ask), hal);
        StackOutcome(s.(uds := U.Request(cfg.uds, s.uds, ask, reply, now), tp := o.next), o.sent)
    case ObdPoll(at, now, hal) =>
      if !s.obd.Active() then StackOutcome(s, None)
      else
        var (r, polled, receives) := PollObd(cfg, s, at, now, hal);
        StackOutcome(s.(obd := r.next,
                        tp := polled.next.(rx := Released(polled.next.rx, receives, r.discarded))), polled.sent)
    case UdsPoll(at, now, later, hal) =>
      if !s.uds.Active() then StackOutcome(s, None)
      else
        var (r, polled, receives) := PollUds(cfg, s, at, now, later, hal);
        StackOutcome(s.(uds := r.next,
                        tp := polled.next.(rx := Released(polled.next.rx, receives, r.discarded))), polled.sent)
    case Bus(frame, now, hal) =>
      var arrival := Arrive(frame, now, hal);
      var o := Step(cfg.iso, s.tp, arrival);
      StackOutcome(s.(tp := o.next, frames := Gather(s.frames, arrival, o)), o.sent)
  }

  const NEW_STACK := Stack(O.FRESH, U.FRESH, FRESH, [])

  function Run(cfg: StackConfig, events: seq<Event>): (s: Stack)
    ensures Sound(cfg.iso, s.tp)
  {
    if events == [] then NEW_STACK
    else StackStep(cfg, Run(cfg, events[..|events| - 1]), events[|events| - 1]).next
  }

  // ---- What reaches the bus ----

  /** The requests the services can make: narrower than the guard's allowlist. */
  predicate RequestPayload(p: seq<Byte>) {
    || (|p| == 2 && p[0] == 0x01)
    || p == [0x09, 0x02]
    || p == [0x03]
    || (|p| == 3 && p[0] == 0x22)
    || (|p| == 3 && p[0] == 0x19 && p[1] == 0x02)
  }

  predicate ReadOnlyFrame(f: CanFrame) {
    || (f.Pci() == 0 && f.Low() <= 7 && f.length == f.Low() + 1 && RequestPayload(f.payload[1..1 + f.Low()]))
    || (f.Pci() == 3 && f.length == 3)
  }

  predicate Quiet(s: Stack) {
    && s.tp.tx.Silent?
    && s.obd.phase != O.AwaitingTransmit && s.uds.phase != U.AwaitingTransmit
  }

  lemma ForwardIsQuiet(cfg: StackConfig, tp: Transport, request: Guard.Request, hal: Hal)
    requires Sound(cfg.iso, tp) && tp.tx.Silent? && Guard.Decide(request).Forward?
    requires RequestPayload(Guard.Decide(request).payload)
    ensures var (o, reply) := Forward(cfg, tp, request, hal);
      && o.next == tp && o.status != Diagnostic.InProgress
      && (o.sent.Some? ==> ReadOnlyFrame(o.sent.value))
  {
    var p := Guard.Decide(request).payload;
    if cfg.iso.Valid() && |p| <= cfg.iso.maxPayload {
      SingleFrameCarries(cfg.iso, p);
    }
  }

  lemma SingleFrameCarries(cfg: Config, p: seq<Byte>)
    requires 1 <= |p| <= 7
    ensures var f := SingleFrame(cfg, p);
      f.Pci() == 0 && f.Low() == |p| && f.length == |p| + 1 && f.payload[1..1 + |p|] == p
  {
    SegmentData(cfg, p, 0);
  }

  lemma BusIsQuiet(cfg: StackConfig, tp: Transport, frame: CanFrame, now: nat, hal: Hal)
    requires Sound(cfg.iso, tp) && tp.tx.Silent?
    ensures var o := StepArrive(cfg.iso, tp, frame, now, hal);
      o.next.tx.Silent? && (o.sent.Some? ==> ReadOnlyFrame(o.sent.value))
  {
    ArrivalCases(cfg.iso, tp, frame, now, hal);
  }

  // A service waits for transmission only after its transport said "in progress".
  lemma AsksAreQuiet(cfg: StackConfig, s: Stack, obdAsk: O.Ask, udsAsk: U.Ask, reply: Guard.ReadOnlyResult, now: nat)
    requires Quiet(s) && reply.transportStatus != Diagnostic.InProgress
    ensures O.Request(cfg.obdTimeoutMs, s.obd, obdAsk, reply, now).phase != O.AwaitingTransmit
    ensures U.Request(cfg.uds, s.uds, udsAsk, reply, now).phase != U.AwaitingTransmit
  {
  }

  lemma PollsAreQuiet(cfg: StackConfig, s: Stack, at: nat, now: nat, later: nat, hal: Hal)
    requires Sound(cfg.iso, s.tp) && Quiet(s)
    ensures PollObd(cfg, s, at, now, hal).0.next.phase != O.AwaitingTransmit
    ensures PollUds(cfg, s, at, now, later, hal).0.next.phase != U.AwaitingTransmit
    ensures var o := StepPoll(cfg.iso, s.tp, at, hal); o.sent.None? && o.next.tx.Silent?
  {
  }

  lemma StepIsQuiet(cfg: StackConfig, s: Stack, e: Event)
    requires Sound(cfg.iso, s.tp) && Quiet(s)
    ensures var o := StackStep(cfg, s, e); Quiet(o.next) && (o.sent.Some? ==> ReadOnlyFrame(o.sent.value))
  {
    match e
    case ObdAsk(ask, now, hal) =>
      ForwardIsQuiet(cfg, s.tp, O.GuardRequest(ask), hal);
      AsksAreQuiet(cfg, s, ask, U.ReadDid(0), Forward(cfg, s.tp, O.GuardRequest(ask), hal).1, now);
    case UdsAsk(ask, now, hal) =>
      ForwardIsQuiet(cfg, s.tp, U.GuardRequest(ask), hal);
      AsksAreQuiet(cfg, s, O.AskVin, ask, Forward(cfg, s.tp, U.GuardRequest(ask), hal).1, now);
    case ObdPoll(at, now, hal) => PollsAreQuiet(cfg, s, at, now, now, hal);
    case UdsPoll(at, now, later, hal) => PollsAreQuiet(cfg, s, at, now, later, hal);
    case Bus(frame, now, hal) => BusIsQuiet(cfg, s.tp, frame, now, hal);
  }

  lemma {:induction false} StackStaysQuiet(cfg: StackConfig, events: seq<Event>)
    ensures Quiet(Run(cfg, events))
  {
    if events != [] {
      var n := |events| - 1;
      StackStaysQuiet(cfg, events[..n]);
      StepIsQuiet(cfg, Run(cfg, events[..n]), events[n]);
    }
  }

  /**
   In every history every frame offered to the driver is a read-only request in a Single
   Frame or a Flow Control frame; nothing is ever segmented or left waiting to be sent.
   */
  lemma OnlyReadOnlyFramesAreSent(cfg: StackConfig, events: seq<Event>, i: nat)
    requires i < |events|
    ensures var o := StackStep(cfg, Run(cfg, events[..i]), events[i]);
      Quiet(o.next) && (o.sent.Some? ==> ReadOnlyFrame(o.sent.value))
  {
    StackStaysQuiet(cfg, events[..i]);
    StepIsQuiet(cfg, Run(cfg, events[..i]), events[i]);
  }

  // ---- What a finished transaction leaves behind ----

  lemma EndingLeavesNoMessage(cfg: StackConfig, s: Stack, e: Event)
    requires Sound(cfg.iso, s.tp)
    ensures var s' := StackStep(cfg, s, e).next;
      (s.obd.Active() && !s'.obd.Active()) || (s.uds.Active() && !s'.uds.Active()) ==> !s'.tp.rx.Ready?
  {
  }

  /** In every history, whatever ends a service's transaction leaves no message in the transport. */
  lemma EndedTransactionLeavesNoMessage(cfg: StackConfig, events: seq<Event>)
    requires events != []
    ensures var before, after := Run(cfg, events[..|events| - 1]), Run(cfg, events);
      (before.obd.Active() && !after.obd.Active()) || (before.uds.Active() && !after.uds.Active())
      ==> !after.tp.rx.Ready?
  {
    EndingLeavesNoMessage(cfg, Run(cfg, events[..|events| - 1]), events[|events| - 1]);
  }

  // ---- Where a published result comes from ----

  // Nothing is published while a request is active, and a VIN request asks for the VIN.
  predicate Unpublished(s: Stack) {
    && (s.uds.Active() ==> UR.NoResult(s.uds))
    && (s.obd.Active() ==> OR.NoResult(s.obd) && s.obd.kind != O.NoRequest)
    && (s.obd.kind == O.Vin ==> s.obd.pid == O.VIN_PID)
  }

  lemma StepKeepsUnpublished(cfg: StackConfig, s: Stack, e: Event)
    requires Sound(cfg.iso, s.tp) && Unpublished(s)
    ensures Unpublished(StackStep(cfg, s, e).next)
  {
    match e
    case ObdAsk(ask, now, hal) =>
      var reply := Forward(cfg, s.tp, O.GuardRequest(ask), hal).1;
      OR.VinAsksForVin(cfg.obdTimeoutMs, s.obd, OR.Asked(ask, reply, now));
      OR.ActiveHasNoResult(cfg.obdTimeoutMs, s.obd, OR.Asked(ask, reply, now));
    case UdsAsk(ask, now, hal) =>
      var reply := Forward(cfg, s.tp, U.GuardRequest(ask), hal).1;
      UR.ActiveHasNoResult(cfg.uds, s.uds, UR.Asked(ask, reply, now));
    case ObdPoll(at, now, hal) =>
      OR.VinAsksForVin(cfg.obdTimeoutMs, s.obd, ObdPolled(cfg, s, at, now, hal));
      OR.ActiveHasNoResult(cfg.obdTimeoutMs, s.obd, ObdPolled(cfg, s, at, now, hal));
    case UdsPoll(at, now, later, hal) =>
      UR.ActiveHasNoResult(cfg.uds, s.uds, UdsPolled(cfg, s, at, now, later, hal));
    case Bus(_, _, _) =>
  }

  // The service's own view of a poll: what the transport answered it.
  function ObdPolled(cfg: StackConfig, s: Stack, at: nat, now: nat, hal: Hal): OR.Event
    requires Sound(cfg.iso, s.tp)
  {
    var polled := StepPoll(cfg.iso, s.tp, at, hal);
    var (taken, length, buffer) := Receive64(polled.next.rx);
    OR.Polled(polled.status, now, O.Answer(taken.status, length, buffer))
  }

  function UdsPolled(cfg: StackConfig, s: Stack, at: nat, now: nat, later: nat, hal: Hal): UR.Event
    requires Sound(cfg.iso, s.tp)
  {
    var polled := StepPoll(cfg.iso, s.tp, at, hal);
    var (taken, length, buffer) := Receive64(polled.next.rx);
    UR.Polled(polled.status, now, later, U.Reception(taken.status, length, buffer))
  }

  lemma StepKeepsAssembly(cfg: StackConfig, s: Stack, e: Event)
    requires Sound(cfg.iso, s.tp) && Assembled(cfg.iso, s.tp.rx, s.frames)
    ensures var s' := StackStep(cfg, s, e).next; Assembled(cfg.iso, s'.tp.rx, s'.frames)
  {
    match e
    case Bus(frame, now, hal) => StepAssembled(cfg.iso, s.tp, s.frames, Arrive(frame, now, hal));
    case _ => OnlyTheBusAssembles(cfg, s, e);
  }

  lemma OnlyTheBusAssembles(cfg: StackConfig, s: Stack, e: Event)
    requires Sound(cfg.iso, s.tp) && !e.Bus?
    ensures var s' := StackStep(cfg, s, e).next; s'.tp.rx in {s.tp.rx, Empty} && s'.frames == s.frames
  {
  }

  lemma {:induction false} StackKeepsAssembly(cfg: StackConfig, events: seq<Event>)
    ensures Assembled(cfg.iso, Run(cfg, events).tp.rx, Run(cfg, events).frames)
    ensures Unpublished(Run(cfg, events))
  {
    if events != [] {
      var n := |events| - 1;
      StackKeepsAssembly(cfg, events[..n]);
      StepKeepsUnpublished(cfg, Run(cfg, events[..n]), events[n]);
      StepKeepsAssembly(cfg, Run(cfg, events[..n]), events[n]);
    }
  }

  /**
   From the bus to the result: a UDS result published in any history is the content of a
   positive response to the active request, spelled out by frames that arrived in sequence.
   */
  lemma UdsResultComesFromTheBus(cfg: StackConfig, events: seq<Event>, at: nat, now: nat, later: nat, hal: Hal)
    requires var s := Run(cfg, events);
      s.uds.Active() && PollUds(cfg, s, at, now, later, hal).0.returned == U.ResponseReady
    ensures var s := Run(cfg, events);
      var uds := PollUds(cfg, s, at, now, later, hal).0.next;
      && s.tp.rx.Ready? && Spells(s.frames, s.tp.rx.message)
      && s.tp.rx.message == if s.uds.kind == U.ReadDataByIdentifier
                            then UR.DataResponse(s.uds.did, uds.rawData)
                            else UR.DtcResponse(uds.dtcMask, uds.dtcs)
  {
    StackKeepsAssembly(cfg, events);
    var s := Run(cfg, events);
    var e := UdsPolled(cfg, s, at, now, later, hal);
    UR.ReadyIsTheResponse(cfg.uds, s.uds, e);
    assert UR.Message(e.got) == StepPoll(cfg.iso, s.tp, at, hal).next.rx.message;
    PollKeepsReady(cfg.iso, s.tp, at, hal);
  }

  lemma PollKeepsReady(cfg: Config, tp: Transport, now: nat, hal: Hal)
    requires Sound(cfg, tp)
    ensures StepPoll(cfg, tp, now, hal).next.rx.Ready? ==> tp.rx == StepPoll(cfg, tp, now, hal).next.rx
  {
  }

  /** The same for an OBD result. */
  lemma ObdResultComesFromTheBus(cfg: StackConfig, events: seq<Event>, at: nat, now: nat, hal: Hal)
    requires var s := Run(cfg, events);
      s.obd.Active() && PollObd(cfg, s, at, now, hal).0.returned == O.ResponseReady
    ensures var s := Run(cfg, events);
      var obd := PollObd(cfg, s, at, now, hal).0.next;
      && s.tp.rx.Ready? && Spells(s.frames, s.tp.rx.message)
      && OR.Publishes(s.obd, obd, s.tp.rx.message)
  {
    StackKeepsAssembly(cfg, events);
    var s := Run(cfg, events);
    var e := ObdPolled(cfg, s, at, now, hal);
    OR.ReadyIsTheResponse(cfg.obdTimeoutMs, s.obd, e);
    assert OR.Message(e.got) == StepPoll(cfg.iso, s.tp, at, hal).next.rx.message;
    PollKeepsReady(cfg.iso, s.tp, at, hal);
  }
}
