/**
 Deadlines over whole histories. An observer of the calls remembers three clock readings;
 they, the ledger of the transfer and the frames of the message say exactly when a wait is
 over, when the next frame may go and when a block ends.
 */
module IsoTpTiming {
  import opened Types
  import opened Can
  import opened Diagnostic
  import opened IsoTpSpec
  import opened IsoTpTransmit
  import opened IsoTpReceive

  datatype Readings = Readings(
    data: nat,  // of the last arrival that opened or extended an assembly
    flow: nat,  // after the last First Frame or Consecutive Frame accepted, or of the last WAIT obeyed
    cts: nat)   // of the last clear-to-send obeyed

  function Remember(r: Readings, e: Event, o: Outcome): Readings {
    match e
    case Start(_, hal) => if o.status == InProgress then r.(flow := hal.at) else r
    case Poll(_, hal) => if o.sent.Some? && hal.status == Ok then r.(flow := hal.at) else r
    case Arrive(frame, now, _) =>
      if o.status != InProgress then r
      else if frame.Pci() != 3 then r.(data := now)
      else if frame.Low() == 0 then r.(cts := now)
      else r.(flow := now)
    case _ => r
  }

  function Remembered(cfg: Config, history: seq<Event>): Readings {
    if history == [] then Readings(0, 0, 0)
    else
      var n := |history| - 1;
      Remember(Remembered(cfg, history[..n]), history[n], OutcomeAt(cfg, history, n))
  }

  /** The peer has allowed another Consecutive Frame. */
  predicate Granted(l: Ledger) {
    l.cts >= 1 && (l.blockSize == 0 || l.sinceCts < l.blockSize)
  }

  /** From when on the next Consecutive Frame may go. */
  function Earliest(l: Ledger, r: Readings): nat {
    if l.lastAccepted.None? then r.cts
    else if l.sinceCts == 0 then Max(r.cts, l.lastAccepted.value + l.stMin)
    else l.lastAccepted.value + l.stMin
  }

  predicate RxOnTime(cfg: Config, rx: Rx, r: Readings) {
    rx.Receiving? ==> cfg.Valid() && rx.deadline == r.data + cfg.consecutiveFrameTimeoutMs
  }

  predicate TxOnTime(cfg: Config, tx: Tx, l: Ledger, r: Readings) {
    tx.Open? ==>
      && cfg.Valid()
      && match tx.phase
         case WaitFlowControl(deadline) => !Granted(l) && deadline == r.flow + cfg.flowControlTimeoutMs
         case Sending(nextSend) => Granted(l) && nextSend == Earliest(l, r)
  }

  // The receive side's block counter counts Consecutive Frames modulo the block size.
  predicate RxInBlock(cfg: Config, rx: Rx, frames: seq<CanFrame>) {
    rx.Receiving? && cfg.rxBlockSize != 0 ==> frames != [] && rx.blockCount == (|frames| - 1) % cfg.rxBlockSize
  }

  lemma NextInBlock(n: nat, bs: nat)
    requires bs > 0
    ensures (n + 1) % bs == if n % bs + 1 == bs then 0 else n % bs + 1
  {
    var q, r := n / bs, n % bs;
    var q', r' := (n + 1) / bs, (n + 1) % bs;
    assert n == q * bs + r && n + 1 == q' * bs + r';
    assert (q' - q) * bs == q' * bs - q * bs == r + 1 - r';
    Multiples(q' - q, bs);
    assert q' - q in {0, 1};
  }

  lemma Multiples(d: int, bs: int)
    requires bs > 0
    ensures d >= 2 ==> d * bs >= 2 * bs
    ensures d <= -1 ==> d * bs <= -bs
  {
    if d >= 2 {
      assert (d - 2) * bs >= 0;
      assert d * bs == (d - 2) * bs + 2 * bs;
    } else if d <= -1 {
      assert (-1 - d) * bs >= 0;
      assert d * bs == -((-1 - d) * bs) - bs;
    }
  }

  // ---- The transmit side ----

  lemma StartOnTime(cfg: Config, s: Transport, l: Ledger, r: Readings, e: Event)
    requires Sound(cfg, s) && TxOnTime(cfg, s.tx, l, r) && e.Start?
    ensures var o := Step(cfg, s, e); TxOnTime(cfg, o.next.tx, Observe(l, e, o), Remember(r, e, o))
  {
  }

  lemma AdvanceOnTime(cfg: Config, tx: Tx, l: Ledger, r: Readings, frame: CanFrame, n: nat, at: nat)
    requires TxOk(cfg, tx) && tx.Open? && tx.phase.Sending? && Agrees(cfg, tx, l) && TxOnTime(cfg, tx, l, r)
    requires tx.offset + n <= |tx.payload|
    ensures TxOnTime(cfg, TxAdvance(cfg, tx, n, at), AfterFrame(l, frame, at), r.(flow := at))
  {
  }

  lemma PollOnTime(cfg: Config, s: Transport, l: Ledger, r: Readings, e: Event)
    requires Sound(cfg, s) && Agrees(cfg, s.tx, l) && TxOnTime(cfg, s.tx, l, r) && e.Poll?
    ensures var o := StepPoll(cfg, s, e.now, e.hal); TxOnTime(cfg, o.next.tx, Observe(l, e, o), Remember(r, e, o))
  {
    var o := StepPoll(cfg, s, e.now, e.hal);
    if o.sent.Some? {
      assert o == OfTx(s, TxSendNext(cfg, s.tx, e.hal));
      SendOnTime(cfg, s.tx, l, r, e.hal);
      SendAgrees(cfg, s.tx, l, e.hal);
    }
  }

  lemma SendOnTime(cfg: Config, tx: Tx, l: Ledger, r: Readings, hal: Hal)
    requires TxOk(cfg, tx) && tx.Open? && tx.phase.Sending? && Agrees(cfg, tx, l) && TxOnTime(cfg, tx, l, r)
    ensures var o := TxSendNext(cfg, tx, hal);
      o.sent.Some? && if hal.status == Ok
                      then TxOnTime(cfg, o.tx, AfterFrame(l, o.sent.value, hal.at), r.(flow := hal.at))
                      else TxOnTime(cfg, o.tx, l, r)
  {
    AdvanceOnTime(cfg, tx, l, r, ConsecutiveFrame(cfg, tx.sequence, NextChunk(tx)), |NextChunk(tx)|, hal.at);
  }

  lemma FlowOnTime(cfg: Config, tx: Tx, l: Ledger, r: Readings, e: Event, o: Outcome)
    requires TxOk(cfg, tx) && Agrees(cfg, tx, l) && TxOnTime(cfg, tx, l, r) && e.Arrive? && e.frame.Pci() == 3
    requires var t := TxOnFlowControl(cfg, tx, e.frame, e.now);
      o.next.tx == t.tx && o.status == t.status && o.sent.None?
    ensures TxOnTime(cfg, o.next.tx, Observe(l, e, o), Remember(r, e, o))
  {
  }

  lemma ArriveOnTime(cfg: Config, s: Transport, l: Ledger, r: Readings, e: Event)
    requires Sound(cfg, s) && Agrees(cfg, s.tx, l) && TxOnTime(cfg, s.tx, l, r) && e.Arrive?
    ensures var o := StepArrive(cfg, s, e.frame, e.now, e.hal);
      TxOnTime(cfg, o.next.tx, Observe(l, e, o), Remember(r, e, o))
  {
    var o := StepArrive(cfg, s, e.frame, e.now, e.hal);
    ArrivalCases(cfg, s, e.frame, e.now, e.hal);
    if Routed(cfg, s, e.frame, e.now) && e.frame.Pci() == 3 {
      FlowOnTime(cfg, s.tx, l, r, e, o);
    }
  }

  // ---- The receive side ----

  lemma DataOnTime(cfg: Config, rx: Rx, r: Readings, frame: CanFrame, now: nat, hal: Hal)
    requires cfg.Valid() && RxOk(cfg, rx) && RxOnTime(cfg, rx, r) && 1 <= frame.length <= 8 && frame.Pci() <= 2
    ensures var o := RxOnData(cfg, rx, frame, now, hal);
      RxOnTime(cfg, o.rx, if o.status == InProgress then r.(data := now) else r)
  {
  }

  lemma SettleInBlock(cfg: Config, expected: nat, data: seq<Byte>, next: nat, blocks: nat, now: nat, hal: Hal,
                      frames: seq<CanFrame>)
    requires 7 < expected <= cfg.maxPayload <= MAX_PAYLOAD && 6 <= |data| <= expected
    requires next < 16 && blocks < 256 && frames != []
    requires cfg.rxBlockSize != 0 && blocks <= cfg.rxBlockSize
    requires (|frames| - 1) % cfg.rxBlockSize == if blocks == cfg.rxBlockSize then 0 else blocks
    ensures RxInBlock(cfg, RxSettle(cfg, expected, data, next, blocks, now, hal).rx, frames)
  {
  }

  lemma ConsecutiveInBlock(cfg: Config, rx: Rx, frames: seq<CanFrame>, frame: CanFrame, now: nat, hal: Hal)
    requires RxOk(cfg, rx) && rx.Receiving? && RxInBlock(cfg, rx, frames) && cfg.rxBlockSize != 0
    requires 2 <= frame.length <= 8 && frame.Low() == rx.nextSequence
    ensures RxInBlock(cfg, RxOnConsecutive(cfg, rx, frame, now, hal).rx, frames + [frame])
  {
    NextInBlock(|frames| - 1, cfg.rxBlockSize);
    ConsecutiveSettles(cfg, rx, frame, now, hal);
    var count := Min(frame.length - 1, rx.expected - |rx.data|);
    SettleInBlock(cfg, rx.expected, rx.data + frame.payload[1..1 + count], (rx.nextSequence + 1) % 16,
                  (rx.blockCount + 1) % 256, now, hal, frames + [frame]);
  }

  lemma FirstInBlock(cfg: Config, rx: Rx, frame: CanFrame, now: nat, hal: Hal)
    requires cfg.Valid() && rx.Empty? && 1 <= frame.length <= 8 && frame.Pci() <= 1
    ensures var rx' := RxOnData(cfg, rx, frame, now, hal).rx;
      rx'.Receiving? ==> rx'.blockCount == 0
  {
  }

  lemma DataInBlock(cfg: Config, rx: Rx, frames: seq<CanFrame>, frame: CanFrame, now: nat, hal: Hal)
    requires cfg.Valid() && RxOk(cfg, rx) && RxInBlock(cfg, rx, frames) && 1 <= frame.length <= 8 && frame.Pci() <= 2
    ensures var o := RxOnData(cfg, rx, frame, now, hal);
      RxInBlock(cfg, o.rx, if o.status != InProgress && o.status != MessageReady then frames
                           else if frame.Pci() == 2 then frames + [frame] else [frame])
  {
    if cfg.rxBlockSize != 0 {
      var o := RxOnData(cfg, rx, frame, now, hal);
      if o.status != InProgress && o.status != MessageReady {
        Refused(cfg, rx, frame, now, hal);
        assert RxInBlock(cfg, o.rx, frames);
      } else {
        Accepted(cfg, rx, frame, now, hal);
        if frame.Pci() == 2 {
          ConsecutiveInBlock(cfg, rx, frames, frame, now, hal);
          assert o == RxOnConsecutive(cfg, rx, frame, now, hal);
        } else {
          FirstInBlock(cfg, rx, frame, now, hal);
          NewInBlock(cfg, o.rx, frame);
        }
      }
    }
  }

  lemma NewInBlock(cfg: Config, rx: Rx, frame: CanFrame)
    requires rx.Receiving? ==> rx.blockCount == 0
    ensures RxInBlock(cfg, rx, [frame])
  {
  }

  lemma RxStepOnTime(cfg: Config, s: Transport, r: Readings, frames: seq<CanFrame>, e: Event)
    requires Sound(cfg, s) && RxOnTime(cfg, s.rx, r) && RxInBlock(cfg, s.rx, frames)
    ensures var o := Step(cfg, s, e);
      RxOnTime(cfg, o.next.rx, Remember(r, e, o)) && RxInBlock(cfg, o.next.rx, Gather(frames, e, o))
  {
    if e.Arrive? {
      ArrivalCases(cfg, s, e.frame, e.now, e.hal);
      if Routed(cfg, s, e.frame, e.now) && e.frame.Pci() <= 2 {
        DataOnTime(cfg, s.rx, r, e.frame, e.now, e.hal);
        DataInBlock(cfg, s.rx, frames, e.frame, e.now, e.hal);
      }
    }
  }

  // ---- Whole histories ----

  lemma TxStepOnTime(cfg: Config, s: Transport, l: Ledger, r: Readings, e: Event)
    requires Sound(cfg, s) && Agrees(cfg, s.tx, l) && TxOnTime(cfg, s.tx, l, r)
    ensures var o := Step(cfg, s, e); TxOnTime(cfg, o.next.tx, Observe(l, e, o), Remember(r, e, o))
  {
    match e
    case Start(_, _) => StartOnTime(cfg, s, l, r, e);
    case Poll(_, _) => PollOnTime(cfg, s, l, r, e);
    case Arrive(_, _, _) => ArriveOnTime(cfg, s, l, r, e);
    case Take(_) =>
    case Discard =>
  }

  /** In every history the deadlines and the block counter are what the observer remembers. */
  lemma {:induction false} DeadlinesAreObserved(cfg: Config, history: seq<Event>)
    ensures TxOnTime(cfg, Run(cfg, history).tx, Watch(cfg, history), Remembered(cfg, history))
    ensures RxOnTime(cfg, Run(cfg, history).rx, Remembered(cfg, history))
    ensures RxInBlock(cfg, Run(cfg, history).rx, Gathered(cfg, history))
  {
    if history != [] {
      var n := |history| - 1;
      var before := Run(cfg, history[..n]);
      DeadlinesAreObserved(cfg, history[..n]);
      TransferMatchesLedger(cfg, history[..n]);
      TxStepOnTime(cfg, before, Watch(cfg, history[..n]), Remembered(cfg, history[..n]), history[n]);
      RxStepOnTime(cfg, before, Remembered(cfg, history[..n]), Gathered(cfg, history[..n]), history[n]);
    }
  }
}
