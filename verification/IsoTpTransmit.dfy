/**
 The transmit side over whole histories. An observer that sees only the calls,
 their answers and the frames handed to the driver keeps a ledger of the current
 transfer; every Consecutive Frame the transport offers is the one the reference
 segmentation asks for next, and respects the pacing the ledger prescribes.
 */
module IsoTpTransmit {
  import opened Types
  import opened Can
  import opened Diagnostic
  import opened IsoTpSpec
  import opened IsoTpSegments

  datatype Ledger = Ledger(
    payload: seq<Byte>,            // of the last transfer that was opened
    frames: seq<CanFrame>,         // its frames the driver accepted, in order
    lastAccepted: Option<nat>,     // when the last Consecutive Frame was accepted
    stMin: nat, blockSize: nat,    // from the last clear-to-send
    sinceCts: nat,                 // Consecutive Frames accepted since then
    cts: nat, waits: nat)          // flow controls obeyed in this transfer

  const NO_TRANSFER := Ledger([], [], None, 0, 0, 0, 0, 0)

  predicate IsConsecutive(sent: Option<CanFrame>) {
    sent.Some? && sent.value.Pci() == 2
  }

  // A flow control frame the transport obeyed, with the given flow status.
  predicate Obeyed(e: Event, o: Outcome, flowStatus: nat) {
    e.Arrive? && o.status == InProgress && e.frame.Pci() == 3 && e.frame.Low() == flowStatus
  }

  function AfterFrame(l: Ledger, frame: CanFrame, at: nat): Ledger {
    l.(frames := l.frames + [frame], lastAccepted := Some(at), sinceCts := l.sinceCts + 1)
  }

  function Observe(l: Ledger, e: Event, o: Outcome): Ledger {
    if e.Start? && e.payload.Some? && o.status == InProgress && o.sent.Some? then
      NO_TRANSFER.(payload := e.payload.value, frames := [o.sent.value])
    else if e.Poll? && IsConsecutive(o.sent) && e.hal.status == Ok then
      AfterFrame(l, o.sent.value, e.hal.at)
    else if Obeyed(e, o, 0) && DecodeStMinMs(e.frame.payload[2]).Some? then
      l.(stMin := DecodeStMinMs(e.frame.payload[2]).value, blockSize := e.frame.payload[1],
         sinceCts := 0, cts := l.cts + 1)
    else if Obeyed(e, o, 1) then
      l.(waits := l.waits + 1)
    else l
  }

  function Watch(cfg: Config, history: seq<Event>): Ledger {
    if history == [] then NO_TRANSFER
    else
      var n := |history| - 1;
      Observe(Watch(cfg, history[..n]), history[n], OutcomeAt(cfg, history, n))
  }

  // Consecutive Frames accepted so far in the current transfer.
  function Cfs(l: Ledger): int {
    |l.frames| - 1
  }

  predicate ProperPrefix(cfg: Config, l: Ledger) {
    && 8 <= |l.payload| <= cfg.maxPayload <= MAX_PAYLOAD
    && 1 <= |l.frames| < SegmentCount(l.payload)
    && l.frames == Segments(cfg, l.payload)[..|l.frames|]
  }

  /** While a transfer is open the transport's state is what the ledger says. */
  predicate Agrees(cfg: Config, tx: Tx, l: Ledger) {
    tx.Open? ==>
      && ProperPrefix(cfg, l)
      && SenderAt(tx, l.payload, |l.frames|)
      && tx.lastCf == l.lastAccepted
      && (l.lastAccepted.Some? <==> Cfs(l) > 0)
      && tx.waitCount == l.waits <= cfg.maxWaitFrames
      && (tx.phase.Sending? ==>
            && tx.separationMs == l.stMin && tx.blockSize == l.blockSize
            && (l.blockSize != 0 ==> l.sinceCts + tx.blockRemaining == l.blockSize && tx.blockRemaining >= 1)
            && (l.lastAccepted.Some? ==> tx.phase.nextSend >= l.lastAccepted.value + l.stMin)
            && 1 <= l.cts <= Cfs(l) + 1)
      && (tx.phase.WaitFlowControl? ==> l.cts <= Cfs(l))
  }

  /** What one step may do, judged from the ledger alone. */
  predicate Compliant(cfg: Config, l: Ledger, e: Event, o: Outcome) {
    && (IsConsecutive(o.sent) ==>
          && e.Poll? && ProperPrefix(cfg, l)
          && o.sent.value == Segment(cfg, l.payload, |l.frames|)
          && l.cts >= 1
          && (l.lastAccepted.Some? ==> e.now >= l.lastAccepted.value + l.stMin)
          && (l.blockSize != 0 ==> l.sinceCts < l.blockSize))
    && (e.Poll? && o.status == Complete ==>
          Sendable(l.payload) && Observe(l, e, o).frames == Segments(cfg, l.payload))
    && (Obeyed(e, o, 1) ==> l.waits < cfg.maxWaitFrames)
    && (o.sent.Some? && o.sent.value.Pci() == 1 ==>
          && e.Start? && e.payload.Some? && 8 <= |e.payload.value| <= MAX_PAYLOAD
          && o.sent.value == Segment(cfg, e.payload.value, 0))
  }

  lemma StartAgrees(cfg: Config, s: Transport, l: Ledger, e: Event)
    requires Sound(cfg, s) && Agrees(cfg, s.tx, l) && e.Start?
    ensures var o := Step(cfg, s, e); Agrees(cfg, o.next.tx, Observe(l, e, o)) && Compliant(cfg, l, e, o)
  {
    var o := Step(cfg, s, e);
    if o.sent.Some? && |e.payload.value| > 7 {
      assert o.sent.value == FirstFrame(cfg, e.payload.value);
      assert [o.sent.value] == Segments(cfg, e.payload.value)[..1];
    }
  }

  // All segments, or a longer proper prefix of them.
  predicate Grown(cfg: Config, l: Ledger, frame: CanFrame)
    requires ProperPrefix(cfg, l)
  {
    if Carried(l.payload, |l.frames| + 1) == |l.payload|
    then l.frames + [frame] == Segments(cfg, l.payload)
    else ProperPrefix(cfg, l.(frames := l.frames + [frame]))
  }

  lemma PrefixGrows(cfg: Config, l: Ledger)
    requires ProperPrefix(cfg, l)
    ensures Grown(cfg, l, Segment(cfg, l.payload, |l.frames|))
  {
    var all := Segments(cfg, l.payload);
    assert all[..|l.frames|] + [all[|l.frames|]] == all[..|l.frames| + 1];
    SegmentsMakeProgress(l.payload, |l.frames| + 1);
    assert all[..|all|] == all;
  }

  lemma AdvanceAgrees(cfg: Config, tx: Tx, l: Ledger, frame: CanFrame, n: nat, at: nat)
    requires TxOk(cfg, tx) && tx.Open? && tx.phase.Sending? && Agrees(cfg, tx, l)
    requires 1 <= n && tx.offset + n == Carried(l.payload, |l.frames| + 1) && Grown(cfg, l, frame)
    ensures var next := TxAdvance(cfg, tx, n, at);
      && Agrees(cfg, next, AfterFrame(l, frame, at))
      && (next.Silent? ==> l.frames + [frame] == Segments(cfg, l.payload))
  {
    NumberWraps(tx.sequence, |l.frames|);
  }

  // What offering the next frame does, seen from the transmit side alone.
  lemma SendAgrees(cfg: Config, tx: Tx, l: Ledger, hal: Hal)
    requires TxOk(cfg, tx) && tx.Open? && tx.phase.Sending? && Agrees(cfg, tx, l)
    ensures var o := TxSendNext(cfg, tx, hal);
      && o.sent == Some(Segment(cfg, l.payload, |l.frames|)) && IsConsecutive(o.sent)
      && var after := if hal.status == Ok then AfterFrame(l, o.sent.value, hal.at) else l;
      && Agrees(cfg, o.tx, after)
      && (o.status == Complete ==> after.frames == Segments(cfg, l.payload))
  {
    NextIsSegment(cfg, tx, l.payload, |l.frames|);
    SegmentData(cfg, l.payload, |l.frames|);
    PrefixGrows(cfg, l);
    AdvanceAgrees(cfg, tx, l, Segment(cfg, l.payload, |l.frames|), |NextChunk(tx)|, hal.at);
  }

  // A step that offers no frame and obeys no flow control leaves the ledger alone.
  lemma UnobservedAgrees(cfg: Config, l: Ledger, e: Event, o: Outcome)
    requires !e.Start? && o.sent.None? && !Obeyed(e, o, 0) && !Obeyed(e, o, 1)
    requires e.Poll? ==> o.status != Complete
    ensures Observe(l, e, o) == l && Compliant(cfg, l, e, o)
  {
  }

  lemma PollAgrees(cfg: Config, s: Transport, l: Ledger, e: Event)
    requires Sound(cfg, s) && Agrees(cfg, s.tx, l) && e.Poll?
    ensures var o := StepPoll(cfg, s, e.now, e.hal); Agrees(cfg, o.next.tx, Observe(l, e, o)) && Compliant(cfg, l, e, o)
  {
    var o := StepPoll(cfg, s, e.now, e.hal);
    if o.sent.None? {
      UnobservedAgrees(cfg, l, e, o);
    } else {
      assert o == OfTx(s, TxSendNext(cfg, s.tx, e.hal));
      SendAgrees(cfg, s.tx, l, e.hal);
      assert Observe(l, e, o) == if e.hal.status == Ok then AfterFrame(l, o.sent.value, e.hal.at) else l;
    }
  }

  lemma FlowAgrees(cfg: Config, tx: Tx, l: Ledger, e: Event, o: Outcome)
    requires TxOk(cfg, tx) && Agrees(cfg, tx, l) && e.Arrive? && e.frame.Pci() == 3
    requires var t := TxOnFlowControl(cfg, tx, e.frame, e.now);
      o.next.tx == t.tx && o.status == t.status && o.sent.None?
    ensures Agrees(cfg, o.next.tx, Observe(l, e, o)) && Compliant(cfg, l, e, o)
  {
  }

  // Data frames are answered with flow control frames or not at all.
  lemma DataSendsNoData(cfg: Config, rx: Rx, frame: CanFrame, now: nat, hal: Hal)
    requires cfg.Valid() && RxOk(cfg, rx) && 1 <= frame.length <= 8 && frame.Pci() <= 2
    ensures var o := RxOnData(cfg, rx, frame, now, hal); o.sent.Some? ==> o.sent.value.Pci() == 3
  {
  }

  lemma ArriveAgrees(cfg: Config, s: Transport, l: Ledger, e: Event)
    requires Sound(cfg, s) && Agrees(cfg, s.tx, l) && e.Arrive?
    ensures var o := StepArrive(cfg, s, e.frame, e.now, e.hal);
      Agrees(cfg, o.next.tx, Observe(l, e, o)) && Compliant(cfg, l, e, o)
  {
    var o := StepArrive(cfg, s, e.frame, e.now, e.hal);
    ArrivalCases(cfg, s, e.frame, e.now, e.hal);
    if !Routed(cfg, s, e.frame, e.now) || e.frame.Pci() > 3 {
      UnobservedAgrees(cfg, l, e, o);
    } else if e.frame.Pci() == 3 {
      FlowAgrees(cfg, s.tx, l, e, o);
    } else {
      DataSendsNoData(cfg, s.rx, e.frame, e.now, e.hal);
    }
  }

  lemma StepAgrees(cfg: Config, s: Transport, l: Ledger, e: Event)
    requires Sound(cfg, s) && Agrees(cfg, s.tx, l)
    ensures var o := Step(cfg, s, e); Agrees(cfg, o.next.tx, Observe(l, e, o)) && Compliant(cfg, l, e, o)
  {
    match e
    case Start(_, _) => StartAgrees(cfg, s, l, e);
    case Poll(_, _) => PollAgrees(cfg, s, l, e);
    case Arrive(_, _, _) => ArriveAgrees(cfg, s, l, e);
    case Take(_) =>
    case Discard =>
  }

  /** In every history the open transfer is exactly what the observer saw. */
  lemma {:induction false} TransferMatchesLedger(cfg: Config, history: seq<Event>)
    ensures Agrees(cfg, Run(cfg, history).tx, Watch(cfg, history))
  {
    if history != [] {
      var n := |history| - 1;
      TransferMatchesLedger(cfg, history[..n]);
      StepAgrees(cfg, Run(cfg, history[..n]), Watch(cfg, history[..n]), history[n]);
    }
  }

  /** In every history every step is compliant: right frame, right time, right block. */
  lemma EveryStepIsCompliant(cfg: Config, history: seq<Event>, i: nat)
    requires i < |history|
    ensures Compliant(cfg, Watch(cfg, history[..i]), history[i], OutcomeAt(cfg, history, i))
  {
    TransferMatchesLedger(cfg, history[..i]);
    StepAgrees(cfg, Run(cfg, history[..i]), Watch(cfg, history[..i]), history[i]);
  }

  /** The bytes on the wire are a prefix of the payload, at a segment boundary. */
  lemma OpenTransferCarriesPrefix(cfg: Config, history: seq<Event>)
    requires Run(cfg, history).tx.Open?
    ensures var tx, l := Run(cfg, history).tx, Watch(cfg, history);
      && 6 <= tx.offset < |tx.payload| <= cfg.maxPayload
      && tx.offset == 6 + 7 * Cfs(l) && tx.sequence == (1 + Cfs(l)) % 16
      && Concatenated(l.frames) == tx.payload[..tx.offset]
  {
    TransferMatchesLedger(cfg, history);
    PrefixCarries(cfg, Watch(cfg, history));
  }

  lemma PrefixCarries(cfg: Config, l: Ledger)
    requires ProperPrefix(cfg, l)
    ensures 6 + 7 * Cfs(l) < |l.payload| && Concatenated(l.frames) == l.payload[..6 + 7 * Cfs(l)]
  {
    SegmentsCarryPayload(cfg, l.payload, |l.frames|);
  }

  /** A transfer reported complete put exactly the payload's segments on the wire. */
  lemma CompleteMeansAllSent(cfg: Config, history: seq<Event>, i: nat)
    requires i < |history| && history[i].Poll? && OutcomeAt(cfg, history, i).status == Complete
    ensures var l := Watch(cfg, history[..i + 1]);
      Sendable(l.payload) && l.frames == Segments(cfg, l.payload) && Concatenated(l.frames) == l.payload
  {
    EveryStepIsCompliant(cfg, history, i);
    assert history[..i + 1][..i] == history[..i];
    SegmentsAreComplete(cfg, Watch(cfg, history[..i]).payload);
  }

  /**
   An open transfer has seen fewer than 2n + maxWaitFrames frames and flow controls,
   where n is the number of Consecutive Frames the payload needs.
   */
  lemma OpenTransferIsBounded(cfg: Config, history: seq<Event>)
    requires Run(cfg, history).tx.Open?
    ensures var l := Watch(cfg, history);
      && Sendable(l.payload) && l.waits <= cfg.maxWaitFrames
      && Cfs(l) + l.cts + l.waits < 2 * (SegmentCount(l.payload) - 1) + cfg.maxWaitFrames
  {
    TransferMatchesLedger(cfg, history);
  }

  // Accepted Consecutive Frame, obeyed WAIT or obeyed clear-to-send.
  predicate Milestone(e: Event, o: Outcome) {
    (e.Poll? && o.sent.Some? && e.hal.status == Ok) || Obeyed(e, o, 0) || Obeyed(e, o, 1)
  }

  predicate Descends(cfg: Config, before: Tx, after: Tx)
    requires before.Open? && after.Open?
  {
    var waiting := (tx: Tx) requires tx.Open? => if tx.phase.WaitFlowControl? then 1 else 0;
    || |after.payload| - after.offset < |before.payload| - before.offset
    || (after.offset == before.offset &&
        (after.waitCount > before.waitCount ||
         (after.waitCount == before.waitCount && waiting(after) < waiting(before))))
  }

  /** Each milestone descends lexicographically; no other step touches an open transfer. */
  lemma MilestonesDescend(cfg: Config, s: Transport, e: Event)
    requires Sound(cfg, s) && s.tx.Open? && Step(cfg, s, e).next.tx.Open?
    ensures var o := Step(cfg, s, e);
      && o.next.tx.payload == s.tx.payload && o.next.tx.waitCount <= cfg.maxWaitFrames
      && if Milestone(e, o) then Descends(cfg, s.tx, o.next.tx) else o.next.tx == s.tx
  {
    if e.Poll? && TxDue(s.tx, e.now) {
      assert |NextChunk(s.tx)| >= 1;
    }
  }
}
