/**
 One transfer over a healthy link: crossed identifiers, no refusal other than a busy
 transmitter, no deadline reached. Sender and receiver stay in lockstep, every move
 that changes anything brings delivery closer, and enough of them deliver the payload.
 */
module IsoTpDelivery {
  import opened Types
  import opened Can
  import opened IsoTpSpec
  import opened IsoTpSegments
  import opened IsoTpLink

  predicate Paired(n: Net, p: seq<Byte>) {
    && n.a.cfg.Valid() && n.b.cfg.Valid()
    && n.a.cfg.rxId == n.b.cfg.txId && n.b.cfg.rxId == n.a.cfg.txId
    && n.a.cfg.format == n.b.cfg.format
    && 1 <= |p| <= n.a.cfg.maxPayload && |p| <= n.b.cfg.maxPayload
  }

  // Polls and deliveries before any deadline; only the sender may find its driver busy.
  predicate Healthy(n: Net, m: Move) {
    match m
    case AtA(Tick(now, hal)) => hal.status in {Ok, CanStatus.TxBusy} && !TxExpired(n.a.t.tx, now)
    case AtA(Deliver(now, hal)) => hal.status == Ok && !TxExpired(n.a.t.tx, now)
    case AtB(Tick(now, hal)) => hal.status == Ok && !RxExpired(n.b.t.rx, now)
    case AtB(Deliver(now, hal)) => hal.status == Ok && !RxExpired(n.b.t.rx, now)
    case _ => false
  }

  function ClearToSend(n: Net): CanFrame {
    FlowControl(n.b.cfg, 0)
  }

  predicate HasReceived(rx: Rx, p: seq<Byte>, seen: nat)
    requires Sendable(p)
  {
    if seen == 0 then rx.Empty?
    else if seen == SegmentCount(p) then rx == Ready(p)
    else
      && rx.Receiving? && rx.expected == |p|
      && rx.data == p[..Carried(p, seen)] && rx.nextSequence == seen % 16
  }

  /** Both ends agree on how much of the payload was sent and received. */
  predicate InStep(n: Net, p: seq<Byte>)
    requires Sendable(p)
  {
    var sent, seen, all := n.a.sent, n.b.seen, SegmentCount(p);
    && seen <= sent <= all && 1 <= sent
    && n.a.out == Segments(n.a.cfg, p)[seen..sent]
    && n.a.t.rx.Empty? && n.b.t.tx.Silent?
    && SenderAt(n.a.t.tx, p, sent) && (n.a.t.tx.Silent? <==> sent == all)
    && HasReceived(n.b.t.rx, p, seen)
  }

  /**
   Block accounting. `base` is the number of Consecutive Frames before the current
   block; both block counters count from there, and exactly when the sender waits and
   the receiver has seen everything is one clear-to-send under way.
   */
  predicate InBlock(n: Net, p: seq<Byte>, base: nat)
    requires Sendable(p) && InStep(n, p)
  {
    var sent, seen, bs, tx, rx := n.a.sent, n.b.seen, n.b.cfg.rxBlockSize, n.a.t.tx, n.b.t.rx;
    && n.b.out == (if tx.Open? && tx.phase.WaitFlowControl? && seen == sent then [ClearToSend(n)] else [])
    && (seen == 0 ==> sent == 1)
    && (tx.Open? && tx.phase.WaitFlowControl? ==>
          if sent == 1 then seen == 1 ==> rx.blockCount == 0
          else
            && bs != 0 && sent - 1 == base + bs && base < seen
            && rx.blockCount == if seen == sent then 0 else seen - 1 - base)
    && (tx.Open? && tx.phase.Sending? ==>
          && seen >= 1 && tx.blockSize == bs
          && (bs != 0 ==>
                && base < seen && sent - 1 < base + bs
                && tx.blockRemaining == bs - (sent - 1 - base)
                && rx.blockCount == seen - 1 - base))
    && (tx.Silent? && bs != 0 && 0 < seen < sent ==>
          base < seen && sent - 1 <= base + bs && rx.blockCount == seen - 1 - base)
  }

  ghost predicate Lockstep(n: Net, p: seq<Byte>, base: nat) {
    NetSound(n) && Paired(n, p) && Sendable(p) && InStep(n, p) && InBlock(n, p, base)
  }

  // Moves that change something cannot go on forever.
  function Distance(n: Net, p: seq<Byte>): int
    requires Sendable(p)
  {
    var all := SegmentCount(p);
    3 * (all - n.a.sent) + 2 * (all - n.b.seen) + |n.b.out|
    + if n.a.t.tx.Open? && n.a.t.tx.phase.WaitFlowControl? then 1 else 0
  }

  lemma TickAtSender(n: Net, p: seq<Byte>, base: nat, now: nat, hal: Hal)
    requires Lockstep(n, p, base) && Healthy(n, AtA(Tick(now, hal)))
    ensures var n' := MoveOnce(n, AtA(Tick(now, hal)));
      Lockstep(n', p, base) && (n' == n || Distance(n', p) < Distance(n, p))
  {
    var o := StepPoll(n.a.cfg, n.a.t, now, hal);
    if TxDue(n.a.t.tx, now) && hal.status == Ok {
      assert o == OfTx(n.a.t, TxSendNext(n.a.cfg, n.a.t.tx, hal));
      SegmentSent(n, p, base, hal);
    } else {
      assert Taken(o.sent, hal) == [] && o.next == n.a.t;
      assert n.a.out + [] == n.a.out;
    }
  }

  lemma SegmentSent(n: Net, p: seq<Byte>, base: nat, hal: Hal)
    requires Lockstep(n, p, base) && n.a.t.tx.Open? && n.a.t.tx.phase.Sending? && hal.status == Ok
    ensures var o := OfTx(n.a.t, TxSendNext(n.a.cfg, n.a.t.tx, hal));
      var n' := n.(a := After(n.a, o, hal));
      Lockstep(n', p, base) && Distance(n', p) < Distance(n, p)
  {
    var o := OfTx(n.a.t, TxSendNext(n.a.cfg, n.a.t.tx, hal));
    SegmentQueued(n, p, hal);
    SenderAdvances(n.a.cfg, n.a.t.tx, p, n.a.sent, hal.at);
    assert InStep(n.(a := After(n.a, o, hal)), p);
  }

  lemma SegmentQueued(n: Net, p: seq<Byte>, hal: Hal)
    requires NetSound(n) && Sendable(p) && InStep(n, p)
    requires n.a.t.tx.Open? && n.a.t.tx.phase.Sending? && hal.status == Ok
    ensures var o := OfTx(n.a.t, TxSendNext(n.a.cfg, n.a.t.tx, hal));
      var a' := After(n.a, o, hal);
      && a'.sent == n.a.sent + 1 && a'.out == Segments(n.a.cfg, p)[n.b.seen..n.a.sent + 1]
      && a'.t == Transport(Empty, TxAdvance(n.a.cfg, n.a.t.tx, |NextChunk(n.a.t.tx)|, hal.at))
  {
    var k, frames := n.a.sent, Segments(n.a.cfg, p);
    NextIsSegment(n.a.cfg, n.a.t.tx, p, k);
    assert frames[n.b.seen..k] + [frames[k]] == frames[n.b.seen..k + 1];
    assert IsData(frames[k]) by { SegmentData(n.a.cfg, p, k); }
    SingleData(frames[k]);
  }

  lemma DeliverAtSender(n: Net, p: seq<Byte>, base: nat, now: nat, hal: Hal) returns (base': nat)
    requires Lockstep(n, p, base) && Healthy(n, AtA(Deliver(now, hal)))
    ensures var n' := MoveOnce(n, AtA(Deliver(now, hal)));
      Lockstep(n', p, base') && (n' == n || Distance(n', p) < Distance(n, p))
  {
    base' := if n.b.out == [] then base else n.a.sent - 1;
    assert n.a.out + [] == n.a.out;
  }

  lemma TickAtReceiver(n: Net, p: seq<Byte>, base: nat, now: nat, hal: Hal)
    requires Lockstep(n, p, base) && Healthy(n, AtB(Tick(now, hal)))
    ensures MoveOnce(n, AtB(Tick(now, hal))) == n
  {
    assert n.b.out + [] == n.b.out;
  }

  // What accepting segment number k does to a healthy receiver.
  lemma SegmentAccepted(cfg: Config, rx: Rx, p: seq<Byte>, k: nat, frame: CanFrame, now: nat, hal: Hal)
    requires cfg.Valid() && RxOk(cfg, rx) && hal.status == Ok
    requires 1 <= |p| <= cfg.maxPayload && k < SegmentCount(p)
    requires HasReceived(rx, p, k) && IsSegment(frame, p, k)
    ensures var o := RxOnData(cfg, rx, frame, now, hal);
      var last := k + 1 == SegmentCount(p);
      var closes := !last && (k == 0 || (cfg.rxBlockSize != 0 && rx.blockCount + 1 >= cfg.rxBlockSize));
      && HasReceived(o.rx, p, k + 1)
      && o.sent == (if closes then Some(FlowControl(cfg, 0)) else None)
      && (closes ==> o.rx.blockCount == 0)
      && (!closes && !last && cfg.rxBlockSize != 0 ==> o.rx.blockCount == rx.blockCount + 1)
  {
    if k > 0 {
      NextAccepted(cfg, rx, p, k, frame, now, hal);
    }
  }

  lemma NextAccepted(cfg: Config, rx: Rx, p: seq<Byte>, k: nat, frame: CanFrame, now: nat, hal: Hal)
    requires cfg.Valid() && RxOk(cfg, rx) && hal.status == Ok
    requires 1 <= |p| <= cfg.maxPayload && 0 < k < SegmentCount(p)
    requires HasReceived(rx, p, k) && IsSegment(frame, p, k)
    ensures var o := RxOnConsecutive(cfg, rx, frame, now, hal);
      var last := k + 1 == SegmentCount(p);
      var closes := !last && cfg.rxBlockSize != 0 && rx.blockCount + 1 >= cfg.rxBlockSize;
      && HasReceived(o.rx, p, k + 1)
      && o.sent == (if closes then Some(FlowControl(cfg, 0)) else None)
      && (closes ==> o.rx.blockCount == 0)
      && (!closes && !last && cfg.rxBlockSize != 0 ==> o.rx.blockCount == rx.blockCount + 1)
  {
    SegmentsMakeProgress(p, k);
    SegmentsMakeProgress(p, k + 1);
    SliceJoin(p, Carried(p, k), Carried(p, k + 1));
    NumberWraps(rx.nextSequence, k);
    assert p[..|p|] == p;
  }

  lemma HeadRouted(n: Net, p: seq<Byte>, now: nat)
    requires NetSound(n) && Paired(n, p) && InStep(n, p) && n.a.out != [] && !RxExpired(n.b.t.rx, now)
    ensures n.b.seen < n.a.sent
    ensures IsSegment(n.a.out[0], p, n.b.seen) && IsData(n.a.out[0])
    ensures Routed(n.b.cfg, n.b.t, n.a.out[0], now)
    ensures n.a.out[1..] == Segments(n.a.cfg, p)[n.b.seen + 1..n.a.sent]
  {
    assert n.a.out[0] == Segment(n.a.cfg, p, n.b.seen);
    SegmentIsSegment(n.a.cfg, p, n.b.seen);
    SegmentData(n.a.cfg, p, n.b.seen);
    assert n.a.out[0].id == n.a.cfg.txId && n.a.out[0].format == n.a.cfg.format;
  }

  // The receiver's node after the head of the queue was delivered to it.
  lemma HeadAccepted(n: Net, p: seq<Byte>, now: nat, hal: Hal)
    requires NetSound(n) && Paired(n, p) && InStep(n, p) && n.a.out != []
    requires !RxExpired(n.b.t.rx, now) && hal.status == Ok
    ensures var (b', a') := Act(n.b, n.a, Deliver(now, hal));
      var rx, rx' := n.b.t.rx, b'.t.rx;
      var last := n.b.seen + 1 == SegmentCount(p);
      var closes := !last && (n.b.seen == 0 ||
                              (n.b.cfg.rxBlockSize != 0 && rx.blockCount + 1 >= n.b.cfg.rxBlockSize));
      && a' == n.a.(out := Segments(n.a.cfg, p)[n.b.seen + 1..n.a.sent])
      && b'.seen == n.b.seen + 1 && b'.t.tx.Silent? && HasReceived(rx', p, n.b.seen + 1)
      && b'.out == n.b.out + (if closes then [ClearToSend(n)] else [])
      && (closes ==> rx'.blockCount == 0)
      && (!closes && !last && n.b.cfg.rxBlockSize != 0 ==> rx'.blockCount == rx.blockCount + 1)
  {
    HeadRouted(n, p, now);
    RoutedData(n.b.cfg, n.b.t, n.a.out[0], now, hal);
    SegmentAccepted(n.b.cfg, n.b.t.rx, p, n.b.seen, n.a.out[0], now, hal);
  }

  lemma DeliverAtReceiver(n: Net, p: seq<Byte>, base: nat, now: nat, hal: Hal)
    requires Lockstep(n, p, base) && Healthy(n, AtB(Deliver(now, hal)))
    ensures var n' := MoveOnce(n, AtB(Deliver(now, hal)));
      Lockstep(n', p, base) && (n' == n || Distance(n', p) < Distance(n, p))
  {
    if n.a.out != [] {
      HeadAccepted(n, p, now, hal);
    }
  }

  lemma HealthyMove(n: Net, p: seq<Byte>, base: nat, m: Move) returns (base': nat)
    requires Lockstep(n, p, base) && Healthy(n, m)
    ensures Lockstep(MoveOnce(n, m), p, base')
    ensures MoveOnce(n, m) == n || Distance(MoveOnce(n, m), p) < Distance(n, p)
  {
    base' := base;
    match m
    case AtA(Tick(now, hal)) => TickAtSender(n, p, base, now, hal);
    case AtA(Deliver(now, hal)) => base' := DeliverAtSender(n, p, base, now, hal);
    case AtB(Tick(now, hal)) => TickAtReceiver(n, p, base, now, hal);
    case AtB(Deliver(now, hal)) => DeliverAtReceiver(n, p, base, now, hal);
  }

  // ---- Whole runs ----

  /** Every move is healthy where it is made. */
  predicate HealthyRun(n: Net, moves: seq<Move>)
    requires NetSound(n)
    decreases |moves|
  {
    moves != [] ==> Healthy(n, moves[0]) && HealthyRun(MoveOnce(n, moves[0]), moves[1..])
  }

  // How many moves of a run changed anything.
  function Productive(n: Net, moves: seq<Move>): nat
    requires NetSound(n)
    decreases |moves|
  {
    if moves == [] then 0
    else
      var n' := MoveOnce(n, moves[0]);
      (if n' == n then 0 else 1) + Productive(n', moves[1..])
  }

  lemma {:induction false} RunStaysInLockstep(n: Net, p: seq<Byte>, base: nat, moves: seq<Move>) returns (base': nat)
    requires Lockstep(n, p, base) && HealthyRun(n, moves)
    ensures Lockstep(Play(n, moves), p, base')
    ensures Productive(n, moves) + Distance(Play(n, moves), p) <= Distance(n, p)
    decreases |moves|
  {
    base' := base;
    if moves != [] {
      base' := HealthyMove(n, p, base, moves[0]);
      base' := RunStaysInLockstep(MoveOnce(n, moves[0]), p, base', moves[1..]);
    }
  }

  /** The link right after the sender's driver took the first frame of p. */
  function Opened(cfgA: Config, cfgB: Config, p: seq<Byte>, hal: Hal): Net {
    MoveOnce(Net(NewNode(cfgA), NewNode(cfgB)), AtA(Begin(p, hal)))
  }

  lemma OpenedInLockstep(cfgA: Config, cfgB: Config, p: seq<Byte>, hal: Hal)
    requires Paired(Net(NewNode(cfgA), NewNode(cfgB)), p) && hal.status == Ok
    ensures Lockstep(Opened(cfgA, cfgB, p, hal), p, 0)
    ensures Distance(Opened(cfgA, cfgB, p, hal), p) <= 5 * SegmentCount(p) - 2
  {
    var frames := Segments(cfgA, p);
    assert frames[0..1] == [frames[0]];
    assert IsData(frames[0]) by { SegmentData(cfgA, p, 0); }
    SingleData(frames[0]);
    assert [] + [frames[0]] == [frames[0]];
  }

  // Frames in flight account for the difference of the two ends' counters.
  predicate CountersMatch(n: Net) {
    var tx, rx, inFlight := n.a.t.tx, n.b.t.rx, |n.a.out|;
    && (tx.Open? && rx.Receiving? ==> tx.sequence == (rx.nextSequence + inFlight) % 16)
    && (tx.Open? && tx.phase.Sending? && n.b.cfg.rxBlockSize != 0 && rx.Receiving? ==>
          tx.blockRemaining + rx.blockCount + inFlight == n.b.cfg.rxBlockSize)
  }

  /**
   Throughout a healthy run the sequence numbers and the block counters of the two
   ends stay in lockstep.
   */
  lemma EndsStayInLockstep(cfgA: Config, cfgB: Config, p: seq<Byte>, hal: Hal, moves: seq<Move>)
    requires Paired(Net(NewNode(cfgA), NewNode(cfgB)), p) && hal.status == Ok
    requires HealthyRun(Opened(cfgA, cfgB, p, hal), moves)
    ensures CountersMatch(Play(Opened(cfgA, cfgB, p, hal), moves))
  {
    OpenedInLockstep(cfgA, cfgB, p, hal);
    var base := RunStaysInLockstep(Opened(cfgA, cfgB, p, hal), p, 0, moves);
    CountersAgree(Play(Opened(cfgA, cfgB, p, hal), moves), p, base);
  }

  lemma CountersAgree(n: Net, p: seq<Byte>, base: nat)
    requires Lockstep(n, p, base)
    ensures CountersMatch(n)
  {
    NumbersInFlight(n.b.seen, |n.a.out|);
  }

  lemma NumbersInFlight(seen: nat, inFlight: nat)
    ensures (seen % 16 + inFlight) % 16 == (seen + inFlight) % 16
  {
  }

  /**
   A healthy link never gets stuck: at any time before the deadlines at which the
   sender, if it is sending, is due, some healthy move brings delivery closer.
   */
  lemma NeverStuck(n: Net, p: seq<Byte>, base: nat, now: nat) returns (m: Move)
    requires Lockstep(n, p, base) && n.b.t.rx != Ready(p) && Timely(n, now)
    ensures Healthy(n, m) && Distance(MoveOnce(n, m), p) < Distance(n, p)
  {
    var hal := Hal(Ok, now);
    if n.a.out != [] {
      m := AtB(Deliver(now, hal));
    } else if n.b.out != [] {
      m := AtA(Deliver(now, hal));
    } else {
      m := AtA(Tick(now, hal));
    }
    var base' := HealthyMove(n, p, base, m);
  }

  // Before every deadline, and not before the sender may send again.
  predicate Timely(n: Net, now: nat) {
    && !TxExpired(n.a.t.tx, now) && !RxExpired(n.b.t.rx, now)
    && (n.a.t.tx.Open? && n.a.t.tx.phase.Sending? ==> TxDue(n.a.t.tx, now))
  }

  /**
   Delivery: fewer than 5n moves of a healthy run change anything, where n is the number
   of frames, and a run that no timely healthy move can carry further has delivered.
   */
  lemma HealthyRunDelivers(cfgA: Config, cfgB: Config, p: seq<Byte>, hal: Hal, moves: seq<Move>, now: nat)
    requires Paired(Net(NewNode(cfgA), NewNode(cfgB)), p) && hal.status == Ok
    requires HealthyRun(Opened(cfgA, cfgB, p, hal), moves)
    ensures var n := Play(Opened(cfgA, cfgB, p, hal), moves);
      && Productive(Opened(cfgA, cfgB, p, hal), moves) < 5 * SegmentCount(p)
      && (Timely(n, now) && (forall m :: Healthy(n, m) ==> MoveOnce(n, m) == n) ==>
            n.b.t.rx == Ready(p) && n.a.t.tx.Silent?)
  {
    OpenedInLockstep(cfgA, cfgB, p, hal);
    var base := RunStaysInLockstep(Opened(cfgA, cfgB, p, hal), p, 0, moves);
    var n := Play(Opened(cfgA, cfgB, p, hal), moves);
    if Timely(n, now) && n.b.t.rx != Ready(p) {
      var m := NeverStuck(n, p, base, now);
    }
  }
}
