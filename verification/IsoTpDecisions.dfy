/**
 What every call on the transport does, told from the outside: over every history the answer,
 the frame offered and the fate of message and transfer follow from the calls, answers, frames
 and readings an observer saw, without any field of the transport but whether it is receiving,
 holds a message or has a transfer open.
 */
module IsoTpDecisions {
  import opened Types
  import opened Can
  import opened Diagnostic
  import opened IsoTpSpec
  import opened IsoTpSegments
  import opened IsoTpTransmit
  import opened IsoTpReceive
  import opened IsoTpTiming

  // The observer's memory: the ledger of the transfer, the readings, the frames of the message.
  datatype Seen = Seen(l: Ledger, r: Readings, frames: seq<CanFrame>)

  function See(cfg: Config, history: seq<Event>): Seen {
    Seen(Watch(cfg, history), Remembered(cfg, history), Gathered(cfg, history))
  }

  predicate Known(cfg: Config, s: Transport, v: Seen) {
    && Sound(cfg, s) && Agrees(cfg, s.tx, v.l) && Assembled(cfg, s.rx, v.frames)
    && TxOnTime(cfg, s.tx, v.l, v.r) && RxOnTime(cfg, s.rx, v.r) && RxInBlock(cfg, s.rx, v.frames)
  }

  lemma EverythingIsKnown(cfg: Config, history: seq<Event>)
    ensures Known(cfg, Run(cfg, history), See(cfg, history))
  {
    TransferMatchesLedger(cfg, history);
    EveryMessageIsAssembled(cfg, history);
    DeadlinesAreObserved(cfg, history);
  }

  // ---- Configurations ----

  predicate FitsFormat(id: U32, format: Format) {
    (format == Standard && id < 0x800) || (format == Extended && id < 0x2000_0000)
  }

  predicate ReservedStMin(code: Byte) {
    0x80 <= code <= 0xF0 || 0xFA <= code
  }

  /** The configurations a transport works with. */
  predicate Operable(cfg: Config) {
    && FitsFormat(cfg.txId, cfg.format) && FitsFormat(cfg.rxId, cfg.format)
    && 1 <= cfg.maxPayload <= 4095 && cfg.flowControlTimeoutMs > 0 && cfg.consecutiveFrameTimeoutMs > 0
    && !ReservedStMin(cfg.rxStMin)
  }

  lemma OperableIsValid(cfg: Config)
    ensures Operable(cfg) <==> cfg.Valid()
  {
  }

  /** With any other configuration every send, poll and frame is refused, and nothing ever happens. */
  lemma {:induction false} InoperableNeverActs(cfg: Config, history: seq<Event>, e: Event)
    requires !Operable(cfg)
    ensures Run(cfg, history) == FRESH
    ensures e.Start? || e.Poll? || e.Arrive? ==> Step(cfg, FRESH, e) == Outcome(FRESH, InvalidArgument, None)
  {
    OperableIsValid(cfg);
    if history != [] {
      InoperableNeverActs(cfg, history[..|history| - 1], e);
    }
  }

  /** Each refusal of the driver has an answer of its own; the remaining errors share one. */
  lemma RefusalsAreReported(status: CanStatus)
    ensures MapCanStatus(status) == Complete <==> status == Ok
    ensures MapCanStatus(status) == TransportStatus.TxBusy <==> status == CanStatus.TxBusy
    ensures MapCanStatus(status) == TransportStatus.TxFailed <==> status == CanStatus.TxFailed
    ensures MapCanStatus(status) == TransportStatus.BusOff <==> status == CanStatus.BusOff
    ensures MapCanStatus(status) == TransportStatus.NotInitialized <==> status == CanStatus.NotInitialized
    ensures MapCanStatus(status) == InvalidArgument <==> status == InvalidConfig
    ensures MapCanStatus(status) == CanError <==> status in {CanStatus.NoData, DriverError, RxOverflow}
  {
  }

  // ---- Waits that are over ----

  // A poll, or the arrival of a frame for this transport: the calls that look at the clock.
  predicate LooksAtClock(cfg: Config, e: Event) {
    e.Poll? || (e.Arrive? && ForUs(cfg, e.frame))
  }

  predicate ForUs(cfg: Config, frame: CanFrame) {
    frame.id == cfg.rxId && frame.format == cfg.format && 1 <= frame.length <= 8
  }

  /** The last frame of the assembly came too long ago. */
  predicate Stalled(cfg: Config, s: Transport, v: Seen, now: nat) {
    s.rx.Receiving? && now >= v.r.data + cfg.consecutiveFrameTimeoutMs
  }

  /** The peer has kept the transfer waiting for too long. */
  predicate Deserted(cfg: Config, s: Transport, v: Seen, now: nat) {
    s.tx.Open? && !Granted(v.l) && now >= v.r.flow + cfg.flowControlTimeoutMs
  }

  lemma ClockIsRead(cfg: Config, s: Transport, v: Seen, e: Event)
    requires Known(cfg, s, v) && Operable(cfg) && LooksAtClock(cfg, e)
    ensures Stalled(cfg, s, v, e.now) ==> Step(cfg, s, e) == Outcome(s.(rx := Empty), Timeout, None)
    ensures !Stalled(cfg, s, v, e.now) && Deserted(cfg, s, v, e.now) ==>
      Step(cfg, s, e) == Outcome(s.(tx := Silent), Timeout, None)
    ensures !Stalled(cfg, s, v, e.now) && !Deserted(cfg, s, v, e.now) && e.Arrive? ==>
      Step(cfg, s, e) == Route(cfg, s, e.frame, e.now, e.hal)
    ensures !Stalled(cfg, s, v, e.now) && !Deserted(cfg, s, v, e.now) && e.Poll? ==>
      Step(cfg, s, e) == OfTx(s, TxOnPoll(cfg, s.tx, e.now, e.hal))
  {
    OperableIsValid(cfg);
  }

  lemma RoutedNeverTimesOut(cfg: Config, s: Transport, frame: CanFrame, now: nat, hal: Hal)
    requires cfg.Valid() && Sound(cfg, s) && 1 <= frame.length <= 8
    ensures Route(cfg, s, frame, now, hal).status != Timeout
  {
  }

  // A call answers Timeout exactly when it gives something up.
  lemma WaitsEnd(cfg: Config, s: Transport, v: Seen, e: Event)
    requires Known(cfg, s, v) && Operable(cfg) && LooksAtClock(cfg, e)
    ensures var o, stalled, deserted := Step(cfg, s, e), Stalled(cfg, s, v, e.now), Deserted(cfg, s, v, e.now);
      && (o.status == Timeout <==> stalled || deserted)
      && (stalled ==> o == Outcome(s.(rx := Empty), Timeout, None))
      && (!stalled && deserted ==> o == Outcome(s.(tx := Silent), Timeout, None))
  {
    OperableIsValid(cfg);
    ClockIsRead(cfg, s, v, e);
    if e.Arrive? {
      RoutedNeverTimesOut(cfg, s, e.frame, e.now, e.hal);
    }
  }

  /**
   In every history an assembly is given up by a poll or frame exactly when the timeout has
   passed since the last frame that opened or extended it.
   */
  lemma StalledAssemblyEnds(cfg: Config, history: seq<Event>, e: Event)
    requires Run(cfg, history).rx.Receiving? && LooksAtClock(cfg, e)
    ensures var s, o := Run(cfg, history), Step(cfg, Run(cfg, history), e);
      var over := e.now >= Remembered(cfg, history).data + cfg.consecutiveFrameTimeoutMs;
      && (o.status == Timeout && o.next.rx.Empty? <==> over)
      && (over ==> o.next.tx == s.tx && o.sent.None?)
  {
    var s, v := Run(cfg, history), See(cfg, history);
    EverythingIsKnown(cfg, history);
    OperableIsValid(cfg);
    WaitsEnd(cfg, s, v, e);
  }

  /**
   The same for a transfer that waits for Flow Control: it ends exactly when the timeout has
   passed since the frame, or the WAIT, it waits after; a transfer that may send does not.
   */
  lemma DesertedTransferEnds(cfg: Config, history: seq<Event>, e: Event)
    requires Run(cfg, history).tx.Open? && LooksAtClock(cfg, e)
    ensures var s, v, o := Run(cfg, history), See(cfg, history), Step(cfg, Run(cfg, history), e);
      var over := !Stalled(cfg, s, v, e.now) && !Granted(v.l) && e.now >= v.r.flow + cfg.flowControlTimeoutMs;
      && (o.status == Timeout && o.next.tx.Silent? <==> over)
      && (over ==> o.next.rx == s.rx && o.sent.None?)
  {
    var s, v := Run(cfg, history), See(cfg, history);
    EverythingIsKnown(cfg, history);
    OperableIsValid(cfg);
    WaitsEnd(cfg, s, v, e);
  }

  // ---- Polls ----

  /** In time, a poll offers the next segment exactly when it is due, and otherwise does nothing. */
  predicate PollDecided(cfg: Config, s: Transport, v: Seen, now: nat, hal: Hal, o: Outcome)
    requires s.tx.Open? ==> ProperPrefix(cfg, v.l)
  {
    if s.tx.Open? && Granted(v.l) && now >= Earliest(v.l, v.r) then
      var last := |v.l.frames| + 1 == SegmentCount(v.l.payload);
      && o.sent == Some(Segment(cfg, v.l.payload, |v.l.frames|)) && o.next.rx == s.rx
      && o.status == (if hal.status == Ok && !last then InProgress else MapCanStatus(hal.status))
      && (hal.status == CanStatus.TxBusy ==> o.next == s)
      && (o.next.tx.Silent? <==> hal.status != CanStatus.TxBusy && (hal.status == Ok ==> last))
    else o == Outcome(s, if s.tx.Open? then InProgress else Idle, None)
  }

  lemma SendDecided(cfg: Config, s: Transport, v: Seen, now: nat, hal: Hal)
    requires Known(cfg, s, v) && s.tx.Open? && s.tx.phase.Sending? && now >= Earliest(v.l, v.r)
    ensures PollDecided(cfg, s, v, now, hal, OfTx(s, TxSendNext(cfg, s.tx, hal)))
  {
    NextIsSegment(cfg, s.tx, v.l.payload, |v.l.frames|);
    SenderAdvances(cfg, s.tx, v.l.payload, |v.l.frames|, hal.at);
  }

  lemma EveryPollIsDecided(cfg: Config, history: seq<Event>, now: nat, hal: Hal)
    requires var s, v := Run(cfg, history), See(cfg, history);
      Operable(cfg) && !Stalled(cfg, s, v, now) && !Deserted(cfg, s, v, now)
    ensures var s, v := Run(cfg, history), See(cfg, history);
      (s.tx.Open? ==> ProperPrefix(cfg, v.l)) && PollDecided(cfg, s, v, now, hal, Step(cfg, s, Poll(now, hal)))
  {
    var s, v := Run(cfg, history), See(cfg, history);
    EverythingIsKnown(cfg, history);
    ClockIsRead(cfg, s, v, Poll(now, hal));
    if TxDue(s.tx, now) {
      SendDecided(cfg, s, v, now, hal);
    }
  }

  // ---- Flow Control ----

  /** In time, a Flow Control frame matters to a waiting transfer alone. */
  predicate FlowControlDecided(cfg: Config, s: Transport, v: Seen, frame: CanFrame, o: Outcome) {
    && o.sent.None? && o.next.rx == s.rx
    && if !s.tx.Open? || Granted(v.l) then o.next == s && o.status == UnexpectedFrame
       else if frame.length < 3 then o.next.tx.Silent? && o.status == InvalidFrame
       else
         match frame.payload[0]
         case 0x30 =>
           if ReservedStMin(frame.payload[2]) then o.next.tx.Silent? && o.status == InvalidFrame
           else o.next.tx.Open? && o.status == InProgress
         case 0x31 =>
           if v.l.waits == cfg.maxWaitFrames then o.next.tx.Silent? && o.status == WaitLimitExceeded
           else o.next.tx.Open? && o.status == InProgress
         case 0x32 => o.next.tx.Silent? && o.status == FlowControlOverflow
         case _ => o.next.tx.Silent? && o.status == InvalidFrame
  }

  lemma FlowDecided(cfg: Config, s: Transport, v: Seen, frame: CanFrame, now: nat)
    requires Known(cfg, s, v) && frame.payload[0] / 16 == 3
    ensures FlowControlDecided(cfg, s, v, frame, OfTx(s, TxOnFlowControl(cfg, s.tx, frame, now)))
  {
    assert frame.payload[0] == 0x30 + frame.Low();
  }

  lemma EveryFlowControlIsDecided(cfg: Config, history: seq<Event>, frame: CanFrame, now: nat, hal: Hal)
    requires var s, v := Run(cfg, history), See(cfg, history);
      Operable(cfg) && !Stalled(cfg, s, v, now) && !Deserted(cfg, s, v, now)
    requires ForUs(cfg, frame) && frame.payload[0] / 16 == 3
    ensures var s, v := Run(cfg, history), See(cfg, history);
      FlowControlDecided(cfg, s, v, frame, Step(cfg, s, Arrive(frame, now, hal)))
  {
    var s, v := Run(cfg, history), See(cfg, history);
    EverythingIsKnown(cfg, history);
    ClockIsRead(cfg, s, v, Arrive(frame, now, hal));
    FlowDecided(cfg, s, v, frame, now);
  }

  // ---- Data frames ----

  predicate IsFlowControl(cfg: Config, frame: CanFrame, first: Byte) {
    && frame.id == cfg.txId && frame.format == cfg.format && frame.length == 3
    && frame.payload == [first, cfg.rxBlockSize, cfg.rxStMin, 0, 0, 0, 0, 0]
  }

  // A Flow Control frame was offered; unless the driver took it nothing is received any more.
  predicate Answers(cfg: Config, o: Outcome, hal: Hal, first: Byte, answer: TransportStatus) {
    && o.sent.Some? && IsFlowControl(cfg, o.sent.value, first)
    && o.status == (if hal.status == Ok then answer else MapCanStatus(hal.status))
    && (hal.status != Ok ==> o.next.rx.Empty?)
  }

  // The frame is refused and nothing changes.
  predicate Turned(s: Transport, o: Outcome, answer: TransportStatus) {
    o == Outcome(s, answer, None)
  }

  // The assembly is given up.
  predicate GivenUp(s: Transport, o: Outcome, answer: TransportStatus) {
    o == Outcome(s.(rx := Empty), answer, None)
  }

  // The message is complete.
  predicate Announced(s: Transport, o: Outcome, message: seq<Byte>) {
    o == Outcome(s.(rx := Ready(message)), MessageReady, None)
  }

  predicate SingleDecided(cfg: Config, s: Transport, frame: CanFrame, o: Outcome) {
    var n := frame.payload[0] as int;
    if !s.rx.Empty? then Turned(s, o, Busy)
    else if 1 <= n <= Min(7, cfg.maxPayload) && n < frame.length as int then Announced(s, o, frame.payload[1..1 + n])
    else Turned(s, o, InvalidFrame)
  }

  predicate FirstDecided(cfg: Config, s: Transport, frame: CanFrame, hal: Hal, o: Outcome) {
    var n := (frame.payload[0] as int) % 16 * 256 + frame.payload[1];
    if !s.rx.Empty? then Turned(s, o, Busy)
    else if frame.length != 8 || n < 8 then Turned(s, o, InvalidFrame)
    else if n > cfg.maxPayload then Answers(cfg, o, hal, 0x32, Overflow) && o.next == s
    else Answers(cfg, o, hal, 0x30, InProgress) && o.next.tx == s.tx && (hal.status == Ok ==> o.next.rx.Receiving?)
  }

  // The assembly now holds `data`, the surplus of the last frame included.
  predicate ExtensionDecided(cfg: Config, s: Transport, frames: seq<CanFrame>, data: seq<Byte>, hal: Hal, o: Outcome)
    requires frames != []
  {
    var announced := DeclaredLength(frames[0]);
    if |data| >= announced then Announced(s, o, data[..announced])
    else
      && o.next.tx == s.tx
      && if cfg.rxBlockSize != 0 && |frames| % cfg.rxBlockSize == 0
         then Answers(cfg, o, hal, 0x30, InProgress) && (hal.status == Ok ==> o.next.rx.Receiving?)
         else o.sent.None? && o.status == InProgress && o.next.rx.Receiving?
  }

  predicate ConsecutiveDecided(cfg: Config, s: Transport, v: Seen, frame: CanFrame, hal: Hal, o: Outcome) {
    if !s.rx.Receiving? then Turned(s, o, UnexpectedFrame)
    else if frame.length < 2 then GivenUp(s, o, InvalidFrame)
    else if frame.payload[0] != 0x20 + |v.frames| % 16 then GivenUp(s, o, SequenceError)
    else
      && v.frames != []
      && ExtensionDecided(cfg, s, v.frames, Concatenated(v.frames) + frame.payload[1..Min(frame.length, 8)], hal, o)
  }

  /**
   In time, a data frame opens, extends, completes or ruins a message, or is turned away; and
   Flow Control is due after a First Frame and after every full block.
   */
  predicate DataDecided(cfg: Config, s: Transport, v: Seen, frame: CanFrame, hal: Hal, o: Outcome) {
    match frame.payload[0] / 16
    case 0 => SingleDecided(cfg, s, frame, o)
    case 1 => FirstDecided(cfg, s, frame, hal, o)
    case 2 => ConsecutiveDecided(cfg, s, v, frame, hal, o)
    case 3 => true
    case _ => Turned(s, o, InvalidFrame)
  }

  lemma FirstIsDecided(cfg: Config, s: Transport, v: Seen, frame: CanFrame, now: nat, hal: Hal)
    requires Known(cfg, s, v) && cfg.Valid() && 1 <= frame.length <= 8 && frame.payload[0] / 16 == 1
    ensures FirstDecided(cfg, s, frame, hal, OfRx(s, RxOnFirst(cfg, s.rx, frame, now, hal)))
  {
  }

  lemma SingleIsDecided(cfg: Config, s: Transport, v: Seen, frame: CanFrame)
    requires Known(cfg, s, v) && cfg.Valid() && 1 <= frame.length <= 8 && frame.payload[0] / 16 == 0
    ensures SingleDecided(cfg, s, frame, OfRx(s, RxOnSingle(cfg, s.rx, frame)))
  {
  }

  lemma SettleDecided(cfg: Config, s: Transport, frames: seq<CanFrame>, data: seq<Byte>, kept: seq<Byte>,
                      expected: nat, next: nat, blocks: nat, now: nat, hal: Hal)
    requires 7 < expected <= cfg.maxPayload <= MAX_PAYLOAD && 6 <= |kept| && next < 16 && blocks < 256
    requires frames != [] && expected == DeclaredLength(frames[0]) && kept == data[..Min(|data|, expected)]
    requires cfg.rxBlockSize != 0 ==> (blocks >= cfg.rxBlockSize <==> |frames| % cfg.rxBlockSize == 0)
    ensures ExtensionDecided(cfg, s, frames, data, hal,
                             OfRx(s, RxSettle(cfg, expected, kept, next, blocks, now, hal)))
  {
  }

  lemma ConsecutiveIsRuined(cfg: Config, s: Transport, v: Seen, frame: CanFrame, now: nat, hal: Hal)
    requires Known(cfg, s, v) && 1 <= frame.length <= 8 && frame.payload[0] / 16 == 2
    requires !s.rx.Receiving? || frame.length < 2 || frame.Low() != s.rx.nextSequence
    ensures ConsecutiveDecided(cfg, s, v, frame, hal, OfRx(s, RxOnConsecutive(cfg, s.rx, frame, now, hal)))
  {
    assert frame.payload[0] == 0x20 + frame.Low();
  }

  // The block counter of a receiving transport says whether the next frame fills the block.
  lemma BlockIsFull(cfg: Config, rx: Rx, frames: seq<CanFrame>)
    requires RxOk(cfg, rx) && rx.Receiving? && RxInBlock(cfg, rx, frames) && cfg.rxBlockSize != 0
    ensures (rx.blockCount + 1) % 256 < cfg.rxBlockSize <==> |frames| % cfg.rxBlockSize != 0
  {
    NextInBlock(|frames| - 1, cfg.rxBlockSize);
  }

  lemma ConsecutiveIsDecided(cfg: Config, s: Transport, v: Seen, frame: CanFrame, now: nat, hal: Hal)
    requires Known(cfg, s, v) && 1 <= frame.length <= 8 && frame.payload[0] / 16 == 2
    ensures ConsecutiveDecided(cfg, s, v, frame, hal, OfRx(s, RxOnConsecutive(cfg, s.rx, frame, now, hal)))
  {
    var rx := s.rx;
    if !rx.Receiving? || frame.length < 2 || frame.Low() != rx.nextSequence {
      ConsecutiveIsRuined(cfg, s, v, frame, now, hal);
    } else {
      var count := Min(frame.length - 1, rx.expected - |rx.data|);
      var data, kept := rx.data + frame.payload[1..frame.length], rx.data + frame.payload[1..1 + count];
      assert data[..|rx.data| + count] == kept;
      ConsecutiveSettles(cfg, rx, frame, now, hal);
      if cfg.rxBlockSize != 0 {
        BlockIsFull(cfg, rx, v.frames);
      }
      SettleDecided(cfg, s, v.frames, data, kept, rx.expected, (rx.nextSequence + 1) % 16,
                    (rx.blockCount + 1) % 256, now, hal);
    }
  }

  lemma EveryDataFrameIsDecided(cfg: Config, history: seq<Event>, frame: CanFrame, now: nat, hal: Hal)
    requires var s, v := Run(cfg, history), See(cfg, history);
      Operable(cfg) && !Stalled(cfg, s, v, now) && !Deserted(cfg, s, v, now) && ForUs(cfg, frame)
    ensures var s, v := Run(cfg, history), See(cfg, history);
      DataDecided(cfg, s, v, frame, hal, Step(cfg, s, Arrive(frame, now, hal)))
  {
    var s, v := Run(cfg, history), See(cfg, history);
    EverythingIsKnown(cfg, history);
    OperableIsValid(cfg);
    ClockIsRead(cfg, s, v, Arrive(frame, now, hal));
    match frame.payload[0] / 16
    case 0 => SingleIsDecided(cfg, s, v, frame);
    case 1 => FirstIsDecided(cfg, s, v, frame, now, hal);
    case 2 => ConsecutiveIsDecided(cfg, s, v, frame, now, hal);
    case _ =>
  }

  // ---- Frames for others ----

  // The history without the frames that are not for this transport.
  function OnlyForUs(cfg: Config, history: seq<Event>): seq<Event> {
    if history == [] then []
    else
      var n := |history| - 1;
      OnlyForUs(cfg, history[..n])
      + (if history[n].Arrive? && !ForUs(cfg, history[n].frame) then [] else [history[n]])
  }

  /** Frames with another identifier or format, or of no possible length, leave no trace. */
  lemma {:induction false} ForeignFramesLeaveNoTrace(cfg: Config, history: seq<Event>)
    ensures Run(cfg, OnlyForUs(cfg, history)) == Run(cfg, history)
  {
    if history != [] {
      var n := |history| - 1;
      ForeignFramesLeaveNoTrace(cfg, history[..n]);
      if history[n].Arrive? && !ForUs(cfg, history[n].frame) {
        assert OnlyForUs(cfg, history) == OnlyForUs(cfg, history[..n]);
      } else {
        RunAppend(cfg, OnlyForUs(cfg, history[..n]), history[n]);
      }
    }
  }

  // ---- Sends and receives ----

  /** A send is refused, or offers the only or the first segment of the payload at once. */
  lemma EveryStartIsDecided(cfg: Config, history: seq<Event>, payload: Option<seq<Byte>>, hal: Hal)
    requires Operable(cfg)
    ensures var s := Run(cfg, history);
      var o := Step(cfg, s, Start(payload, hal));
      if payload.None? || payload.value == [] || |payload.value| > cfg.maxPayload then
        Turned(s, o, InvalidArgument)
      else if s.tx.Open? then Turned(s, o, Busy)
      else
        && o.sent == Some(Segment(cfg, payload.value, 0)) && o.next.rx == s.rx
        && (o.next.tx.Open? <==> |payload.value| > 7 && hal.status == Ok)
        && o.status == if o.next.tx.Open? then InProgress else MapCanStatus(hal.status)
  {
    OperableIsValid(cfg);
    EverythingIsKnown(cfg, history);
  }

  /** A message is handed over whole and once, to a buffer that holds it. */
  lemma EveryTakeIsDecided(cfg: Config, history: seq<Event>, capacity: Option<nat>)
    ensures var s := Run(cfg, history);
      var o := Step(cfg, s, Take(capacity));
      if !s.rx.Ready? then Turned(s, o, TransportStatus.NoData)
      else if capacity.Some? && |s.rx.message| <= capacity.value then GivenUp(s, o, Complete)
      else Turned(s, o, Overflow)
    ensures var s := Run(cfg, history);
      Step(cfg, s, Discard).next == if s.rx.Ready? then s.(rx := Empty) else s
  {
  }
}
