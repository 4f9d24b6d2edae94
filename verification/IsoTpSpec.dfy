/**
 The ISO-TP transport as a state machine over values: byte sequences instead of
 buffers with offsets. The class in IsoTpTransport.dfy implements it.
 */
module IsoTpSpec {
  import opened Types
  import opened Can
  import opened Diagnostic

  const MAX_PAYLOAD := 4095

  datatype Config = Config(
    txId: U32, rxId: U32, format: Format, maxPayload: nat,
    flowControlTimeoutMs: U32, consecutiveFrameTimeoutMs: U32,
    maxWaitFrames: Byte, rxBlockSize: Byte, rxStMin: Byte)
  {
    predicate Valid() {
      && ValidId(txId, format) && ValidId(rxId, format)
      && 0 < maxPayload <= MAX_PAYLOAD
      && flowControlTimeoutMs > 0 && consecutiveFrameTimeoutMs > 0
      && DecodeStMinMs(rxStMin).Some?
    }
  }

  /** The separation time a code byte asks for, in microseconds; None for reserved codes. */
  function StMinMicros(code: Byte): Option<nat> {
    if code <= 0x7F then Some(code * 1000)
    else if 0xF1 <= code <= 0xF9 then Some((code - 0xF0) * 100)
    else None
  }

  /** Whole milliseconds: never shorter than asked for, never a full millisecond longer. */
  function DecodeStMinMs(code: Byte): (ms: Option<nat>)
    ensures ms.Some? <==> StMinMicros(code).Some?
    ensures ms.Some? ==> StMinMicros(code).value <= ms.value * 1000 < StMinMicros(code).value + 1000
  {
    if code <= 0x7F then Some(code)
    else if 0xF1 <= code <= 0xF9 then Some(1)
    else None
  }

  function MapCanStatus(status: CanStatus): TransportStatus {
    match status
    case Ok => Complete
    case TxBusy => TransportStatus.TxBusy
    case TxFailed => TransportStatus.TxFailed
    case BusOff => TransportStatus.BusOff
    case NotInitialized => TransportStatus.NotInitialized
    case InvalidConfig => InvalidArgument
    case NoData | DriverError | RxOverflow => CanError
  }

  // ---- Frames (N_PCI formats of section 9.6 of ISO 15765-2:2016) ----

  function SingleFrame(cfg: Config, data: seq<Byte>): CanFrame
    requires 1 <= |data| <= 7
  {
    CanFrame(cfg.txId, cfg.format, |data| + 1, Pad([|data|] + data))
  }

  function FirstFrame(cfg: Config, payload: seq<Byte>): CanFrame
    requires 8 <= |payload| <= MAX_PAYLOAD
  {
    CanFrame(cfg.txId, cfg.format, 8, [0x10 + |payload| / 256, |payload| % 256] + payload[..6])
  }

  function ConsecutiveFrame(cfg: Config, sequence: nat, data: seq<Byte>): CanFrame
    requires sequence < 16 && 1 <= |data| <= 7
  {
    CanFrame(cfg.txId, cfg.format, |data| + 1, Pad([0x20 + sequence] + data))
  }

  function FlowControl(cfg: Config, flowStatus: nat): CanFrame
    requires flowStatus < 16
  {
    CanFrame(cfg.txId, cfg.format, 3, Pad([0x30 + flowStatus, cfg.rxBlockSize, cfg.rxStMin]))
  }

  // ---- State ----

  datatype Rx =
    | Empty
    | Ready(message: seq<Byte>)
    | Receiving(expected: nat, data: seq<Byte>, nextSequence: nat, blockCount: nat, deadline: nat)

  datatype Phase = WaitFlowControl(deadline: nat) | Sending(nextSend: nat)

  datatype Tx =
    | Silent
    | Open(payload: seq<Byte>, offset: nat, sequence: nat, waitCount: nat,
           blockSize: nat, blockRemaining: nat, separationMs: nat,
           lastCf: Option<nat>, phase: Phase)

  datatype Transport = Transport(rx: Rx, tx: Tx)

  const FRESH := Transport(Empty, Silent)

  predicate RxOk(cfg: Config, rx: Rx) {
    match rx
    case Empty => true
    case Ready(m) => 1 <= |m| <= cfg.maxPayload <= MAX_PAYLOAD
    case Receiving(expected, data, next, count, _) =>
      && 6 <= |data| < expected <= cfg.maxPayload <= MAX_PAYLOAD && expected > 7
      && next < 16 && count < 256
      && (cfg.rxBlockSize != 0 ==> count < cfg.rxBlockSize)
  }

  predicate TxOk(cfg: Config, tx: Tx) {
    tx.Open? ==>
      && 8 <= |tx.payload| <= cfg.maxPayload <= MAX_PAYLOAD
      && 6 <= tx.offset < |tx.payload|
      && tx.sequence < 16
      && tx.waitCount <= cfg.maxWaitFrames
      && (tx.phase.Sending? && tx.blockSize != 0 ==> 1 <= tx.blockRemaining <= tx.blockSize)
  }

  predicate Sound(cfg: Config, s: Transport) {
    RxOk(cfg, s.rx) && TxOk(cfg, s.tx)
  }

  // The driver's answer and the clock after it; looked at only when a frame is sent.
  datatype Hal = Hal(status: CanStatus, at: nat)

  /** The frame the driver took, if it was offered one and accepted it. */
  function Taken(sent: Option<CanFrame>, hal: Hal): seq<CanFrame> {
    if sent.Some? && hal.status == Ok then [sent.value] else []
  }

  datatype TxOutcome = TxOutcome(tx: Tx, status: TransportStatus, sent: Option<CanFrame>)
  datatype RxOutcome = RxOutcome(rx: Rx, status: TransportStatus, sent: Option<CanFrame>)

  // ---- Transmit side ----

  function TxStart(cfg: Config, tx: Tx, payload: Option<seq<Byte>>, hal: Hal): (o: TxOutcome)
    requires TxOk(cfg, tx)
    ensures TxOk(cfg, o.tx)
  {
    if !cfg.Valid() || payload.None? || |payload.value| == 0
       || |payload.value| > cfg.maxPayload || |payload.value| > MAX_PAYLOAD then
      TxOutcome(tx, InvalidArgument, None)
    else if tx.Open? then
      TxOutcome(tx, Busy, None)
    else
      var p := payload.value;
      var answer := MapCanStatus(hal.status);
      if |p| <= 7 then
        TxOutcome(Silent, answer, Some(SingleFrame(cfg, p)))
      else if answer != Complete then
        TxOutcome(Silent, answer, Some(FirstFrame(cfg, p)))
      else
        var phase := WaitFlowControl(hal.at + cfg.flowControlTimeoutMs);
        TxOutcome(Open(p, 6, 1, 0, 0, 0, 0, None, phase), InProgress, Some(FirstFrame(cfg, p)))
  }

  predicate TxExpired(tx: Tx, now: nat) {
    tx.Open? && tx.phase.WaitFlowControl? && now >= tx.phase.deadline
  }

  predicate TxDue(tx: Tx, now: nat) {
    tx.Open? && tx.phase.Sending? && now >= tx.phase.nextSend
  }

  function NextChunk(tx: Tx): (chunk: seq<Byte>)
    requires tx.Open? && tx.offset < |tx.payload|
    ensures 1 <= |chunk| <= 7
  {
    tx.payload[tx.offset..tx.offset + Min(7, |tx.payload| - tx.offset)]
  }

  function TxSendNext(cfg: Config, tx: Tx, hal: Hal): (o: TxOutcome)
    requires TxOk(cfg, tx) && tx.Open? && tx.phase.Sending?
    ensures TxOk(cfg, o.tx)
  {
    var chunk := NextChunk(tx);
    var frame := Some(ConsecutiveFrame(cfg, tx.sequence, chunk));
    var answer := MapCanStatus(hal.status);
    if answer == TransportStatus.TxBusy then TxOutcome(tx, answer, frame)
    else if answer != Complete then TxOutcome(Silent, answer, frame)
    else
      var moved := TxAdvance(cfg, tx, |chunk|, hal.at);
      TxOutcome(moved, if moved.Silent? then Complete else InProgress, frame)
  }

  // The driver took a Consecutive Frame with n bytes at the given time.
  function TxAdvance(cfg: Config, tx: Tx, n: nat, at: nat): (r: Tx)
    requires TxOk(cfg, tx) && tx.Open? && tx.phase.Sending? && tx.offset + n <= |tx.payload|
    ensures TxOk(cfg, r)
  {
    if tx.offset + n == |tx.payload| then Silent
    else
      var remaining := if tx.blockSize != 0 then tx.blockRemaining - 1 else tx.blockRemaining;
      var phase := if tx.blockSize != 0 && remaining == 0
                   then WaitFlowControl(at + cfg.flowControlTimeoutMs)
                   else Sending(at + tx.separationMs);
      tx.(offset := tx.offset + n, sequence := (tx.sequence + 1) % 16,
          lastCf := Some(at), blockRemaining := remaining, phase := phase)
  }

  function TxOnPoll(cfg: Config, tx: Tx, now: nat, hal: Hal): (o: TxOutcome)
    requires TxOk(cfg, tx)
    ensures TxOk(cfg, o.tx)
  {
    if TxDue(tx, now) then TxSendNext(cfg, tx, hal)
    else TxOutcome(tx, if tx.Open? then InProgress else Idle, None)
  }

  function TxOnFlowControl(cfg: Config, tx: Tx, frame: CanFrame, now: nat): (o: TxOutcome)
    requires TxOk(cfg, tx)
    ensures TxOk(cfg, o.tx) && o.sent.None?
  {
    if !tx.Open? || !tx.phase.WaitFlowControl? then TxOutcome(tx, UnexpectedFrame, None)
    else if frame.length < 3 then TxOutcome(Silent, InvalidFrame, None)
    else if frame.Low() == 0 then
      match DecodeStMinMs(frame.payload[2])
      case None => TxOutcome(Silent, InvalidFrame, None)
      case Some(separation) =>
        var nextSend := if tx.lastCf.Some? then Max(now, tx.lastCf.value + separation) else now;
        TxOutcome(tx.(blockSize := frame.payload[1], blockRemaining := frame.payload[1],
                      separationMs := separation, phase := Sending(nextSend)),
                  InProgress, None)
    else if frame.Low() == 1 then
      if tx.waitCount >= cfg.maxWaitFrames then TxOutcome(Silent, WaitLimitExceeded, None)
      else
        TxOutcome(tx.(waitCount := tx.waitCount + 1,
                      phase := WaitFlowControl(now + cfg.flowControlTimeoutMs)),
                  InProgress, None)
    else TxOutcome(Silent, if frame.Low() == 2 then FlowControlOverflow else InvalidFrame, None)
  }

  // ---- Receive side ----

  predicate RxExpired(rx: Rx, now: nat) {
    rx.Receiving? && now >= rx.deadline
  }

  function RxOnSingle(cfg: Config, rx: Rx, frame: CanFrame): (o: RxOutcome)
    requires cfg.Valid() && RxOk(cfg, rx) && frame.length <= 8
    ensures RxOk(cfg, o.rx) && o.sent.None?
  {
    var length := frame.Low();
    if !rx.Empty? then RxOutcome(rx, Busy, None)
    else if length == 0 || length > 7 || frame.length < length + 1 || length > cfg.maxPayload then
      RxOutcome(rx, InvalidFrame, None)
    else
      RxOutcome(Ready(frame.payload[1..1 + length]), MessageReady, None)
  }

  function DeclaredLength(frame: CanFrame): nat {
    frame.Low() * 256 + frame.payload[1]
  }

  function RxOnFirst(cfg: Config, rx: Rx, frame: CanFrame, now: nat, hal: Hal): (o: RxOutcome)
    requires cfg.Valid() && RxOk(cfg, rx)
    ensures RxOk(cfg, o.rx)
  {
    var declared := DeclaredLength(frame);
    var answer := MapCanStatus(hal.status);
    if !rx.Empty? then RxOutcome(rx, Busy, None)
    else if frame.length != 8 || declared <= 7 || declared > MAX_PAYLOAD then
      RxOutcome(rx, InvalidFrame, None)
    else if declared > cfg.maxPayload then
      RxOutcome(rx, if answer == Complete then Overflow else answer, Some(FlowControl(cfg, 2)))
    else if answer != Complete then
      RxOutcome(rx, answer, Some(FlowControl(cfg, 0)))
    else
      RxOutcome(Receiving(declared, frame.payload[2..8], 1, 0, now + cfg.consecutiveFrameTimeoutMs),
                InProgress, Some(FlowControl(cfg, 0)))
  }

  function RxOnConsecutive(cfg: Config, rx: Rx, frame: CanFrame, now: nat, hal: Hal): (o: RxOutcome)
    requires RxOk(cfg, rx) && 1 <= frame.length <= 8
    ensures RxOk(cfg, o.rx)
  {
    if !rx.Receiving? then RxOutcome(rx, UnexpectedFrame, None)
    else if frame.length < 2 then RxOutcome(Empty, InvalidFrame, None)
    else if frame.Low() != rx.nextSequence then RxOutcome(Empty, SequenceError, None)
    else
      var count := Min(frame.length - 1, rx.expected - |rx.data|);
      RxSettle(cfg, rx.expected, rx.data + frame.payload[1..1 + count],
               (rx.nextSequence + 1) % 16, (rx.blockCount + 1) % 256, now, hal)
  }

  // Data was appended: complete the message, close the block, or keep waiting.
  function RxSettle(cfg: Config, expected: nat, data: seq<Byte>, next: nat, blocks: nat,
                    now: nat, hal: Hal): (o: RxOutcome)
    requires 7 < expected <= cfg.maxPayload <= MAX_PAYLOAD && 6 <= |data| <= expected
    requires next < 16 && blocks < 256
    ensures RxOk(cfg, o.rx)
  {
    if |data| == expected then RxOutcome(Ready(data), MessageReady, None)
    else
      var deadline := now + cfg.consecutiveFrameTimeoutMs;
      if cfg.rxBlockSize == 0 || blocks < cfg.rxBlockSize then
        RxOutcome(Receiving(expected, data, next, blocks, deadline), InProgress, None)
      else
        var answer := MapCanStatus(hal.status);
        if answer != Complete then RxOutcome(Empty, answer, Some(FlowControl(cfg, 0)))
        else RxOutcome(Receiving(expected, data, next, 0, deadline), InProgress, Some(FlowControl(cfg, 0)))
  }

  function RxOnData(cfg: Config, rx: Rx, frame: CanFrame, now: nat, hal: Hal): (o: RxOutcome)
    requires cfg.Valid() && RxOk(cfg, rx) && 1 <= frame.length <= 8 && frame.Pci() <= 2
    ensures RxOk(cfg, o.rx)
  {
    match frame.Pci()
    case 0 => RxOnSingle(cfg, rx, frame)
    case 1 => RxOnFirst(cfg, rx, frame, now, hal)
    case _ => RxOnConsecutive(cfg, rx, frame, now, hal)
  }

  function RxTake(rx: Rx, capacity: Option<nat>): RxOutcome {
    if !rx.Ready? then RxOutcome(rx, TransportStatus.NoData, None)
    else if capacity.None? || capacity.value < |rx.message| then RxOutcome(rx, Overflow, None)
    else RxOutcome(Empty, Complete, None)
  }

  function RxDiscard(rx: Rx): Rx {
    if rx.Ready? then Empty else rx
  }

  // ---- The calls ----

  datatype Event =
    | Start(payload: Option<seq<Byte>>, hal: Hal)
    | Poll(now: nat, hal: Hal)
    | Arrive(frame: CanFrame, now: nat, hal: Hal)
    | Take(capacity: Option<nat>)
    | Discard

  datatype Outcome = Outcome(next: Transport, status: TransportStatus, sent: Option<CanFrame>)

  function OfTx(s: Transport, o: TxOutcome): Outcome {
    Outcome(s.(tx := o.tx), o.status, o.sent)
  }

  function OfRx(s: Transport, o: RxOutcome): Outcome {
    Outcome(s.(rx := o.rx), o.status, o.sent)
  }

  function StepPoll(cfg: Config, s: Transport, now: nat, hal: Hal): (o: Outcome)
    requires Sound(cfg, s)
    ensures Sound(cfg, o.next)
  {
    if !cfg.Valid() then Outcome(s, InvalidArgument, None)
    else if RxExpired(s.rx, now) then Outcome(s.(rx := Empty), Timeout, None)
    else if TxExpired(s.tx, now) then Outcome(s.(tx := Silent), Timeout, None)
    else OfTx(s, TxOnPoll(cfg, s.tx, now, hal))
  }

  function StepArrive(cfg: Config, s: Transport, frame: CanFrame, now: nat, hal: Hal): (o: Outcome)
    requires Sound(cfg, s)
    ensures Sound(cfg, o.next)
  {
    if !cfg.Valid() then Outcome(s, InvalidArgument, None)
    else if frame.id != cfg.rxId || frame.format != cfg.format then Outcome(s, Ignored, None)
    else if !frame.Valid() || frame.length == 0 then Outcome(s, InvalidFrame, None)
    else if RxExpired(s.rx, now) then Outcome(s.(rx := Empty), Timeout, None)
    else if TxExpired(s.tx, now) then Outcome(s.(tx := Silent), Timeout, None)
    else Route(cfg, s, frame, now, hal)
  }

  // The frame passes the checks made before the clock is read.
  predicate Addressed(cfg: Config, frame: CanFrame) {
    cfg.Valid() && frame.id == cfg.rxId && frame.format == cfg.format && frame.Valid() && frame.length >= 1
  }

  // The frame passes every check made before its type is looked at.
  predicate Routed(cfg: Config, s: Transport, frame: CanFrame, now: nat) {
    Addressed(cfg, frame) && !RxExpired(s.rx, now) && !TxExpired(s.tx, now)
  }

  lemma ArrivalCases(cfg: Config, s: Transport, frame: CanFrame, now: nat, hal: Hal)
    requires Sound(cfg, s)
    ensures Routed(cfg, s, frame, now) ==>
      StepArrive(cfg, s, frame, now, hal) == Route(cfg, s, frame, now, hal)
    ensures !Routed(cfg, s, frame, now) ==>
      var o := StepArrive(cfg, s, frame, now, hal);
      && o.sent.None? && o.status in {InvalidArgument, Ignored, InvalidFrame, Timeout}
      && (o.next == s || o.next == s.(rx := Empty) || (o.next == s.(tx := Silent) && TxExpired(s.tx, now)))
  {
  }

  function Route(cfg: Config, s: Transport, frame: CanFrame, now: nat, hal: Hal): (o: Outcome)
    requires cfg.Valid() && Sound(cfg, s) && 1 <= frame.length <= 8
    ensures Sound(cfg, o.next)
  {
    if frame.Pci() <= 2 then OfRx(s, RxOnData(cfg, s.rx, frame, now, hal))
    else if frame.Pci() == 3 then OfTx(s, TxOnFlowControl(cfg, s.tx, frame, now))
    else Outcome(s, InvalidFrame, None)
  }

  /** One call into the transport. Every state it can reach is well formed again. */
  function Step(cfg: Config, s: Transport, e: Event): (o: Outcome)
    requires Sound(cfg, s)
    ensures Sound(cfg, o.next)
  {
    match e
    case Start(payload, hal) => OfTx(s, TxStart(cfg, s.tx, payload, hal))
    case Poll(now, hal) => StepPoll(cfg, s, now, hal)
    case Arrive(frame, now, hal) => StepArrive(cfg, s, frame, now, hal)
    case Take(capacity) => OfRx(s, RxTake(s.rx, capacity))
    case Discard => Outcome(s.(rx := RxDiscard(s.rx)), Idle, None)
  }

  /** The state after a whole history of calls. */
  function Run(cfg: Config, history: seq<Event>): (s: Transport)
    ensures Sound(cfg, s)
  {
    if history == [] then FRESH
    else
      var before := Run(cfg, history[..|history| - 1]);
      Step(cfg, before, history[|history| - 1]).next
  }

  lemma RunAppend(cfg: Config, history: seq<Event>, e: Event)
    ensures Run(cfg, history + [e]) == Step(cfg, Run(cfg, history), e).next
  {
    assert (history + [e])[..|history|] == history;
  }

  /** The state reached from s by further calls. */
  function Continue(cfg: Config, s: Transport, events: seq<Event>): (r: Transport)
    requires Sound(cfg, s)
    ensures Sound(cfg, r)
    decreases |events|
  {
    if events == [] then s else Continue(cfg, Step(cfg, s, events[0]).next, events[1..])
  }

  lemma {:induction false} RunContinues(cfg: Config, history: seq<Event>, events: seq<Event>)
    ensures Run(cfg, history + events) == Continue(cfg, Run(cfg, history), events)
    decreases |events|
  {
    if events == [] {
      assert history + events == history;
    } else {
      var longer := history + [events[0]];
      assert longer + events[1..] == history + events;
      RunContinues(cfg, longer, events[1..]);
      RunAppend(cfg, history, events[0]);
    }
  }

  /** What the call at position i answered. */
  function OutcomeAt(cfg: Config, history: seq<Event>, i: nat): Outcome
    requires i < |history|
  {
    Step(cfg, Run(cfg, history[..i]), history[i])
  }
}
