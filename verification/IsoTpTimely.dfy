/**
 Delivery is possible: when the receiver waits longer for a frame than it makes the sender
 pause between two, some healthy run under one monotone clock delivers any payload.
 */
module IsoTpTimely {
  import opened Types
  import opened Can
  import opened IsoTpSpec
  import opened IsoTpSegments
  import opened IsoTpLink
  import opened IsoTpDelivery

  // The pause between two frames that the receiver asks for.
  function Pause(n: Net): nat
    requires n.b.cfg.Valid()
  {
    DecodeStMinMs(n.b.cfg.rxStMin).value
  }

  /** At time t every deadline lies ahead, and far enough that the next frame can make it. */
  predicate Paced(n: Net, t: nat)
    requires n.b.cfg.Valid()
  {
    var tx, rx := n.a.t.tx, n.b.t.rx;
    && (tx.Open? ==>
          && (tx.lastCf.Some? ==> tx.lastCf.value <= t)
          && match tx.phase
             case WaitFlowControl(deadline) => t < deadline
             case Sending(nextSend) => tx.separationMs == Pause(n) && nextSend <= t + Pause(n))
    && (rx.Receiving? ==>
          && t < rx.deadline
          && (n.a.out == [] ==> t + n.b.cfg.consecutiveFrameTimeoutMs <= rx.deadline))
  }

  // All readings of the run come from one monotone clock that has reached t.
  predicate OneClock(moves: seq<Move>, t: nat)
    decreases |moves|
  {
    moves != [] ==>
      match moves[0]
      case AtA(Tick(now, hal)) => t <= now <= hal.at && OneClock(moves[1..], hal.at)
      case AtA(Deliver(now, hal)) => t <= now <= hal.at && OneClock(moves[1..], hal.at)
      case AtB(Tick(now, hal)) => t <= now <= hal.at && OneClock(moves[1..], hal.at)
      case AtB(Deliver(now, hal)) => t <= now <= hal.at && OneClock(moves[1..], hal.at)
      case _ => false
  }

  lemma DataMovesDeadline(cfg: Config, rx: Rx, frame: CanFrame, now: nat, hal: Hal)
    requires cfg.Valid() && RxOk(cfg, rx) && 1 <= frame.length <= 8 && frame.Pci() <= 2
    ensures var rx' := RxOnData(cfg, rx, frame, now, hal).rx;
      rx'.Receiving? ==> rx' == rx || rx'.deadline == now + cfg.consecutiveFrameTimeoutMs
  {
  }

  // The receiver takes the next frame at once.
  lemma DeliverData(n: Net, p: seq<Byte>, base: nat, t: nat)
    requires Lockstep(n, p, base) && Paced(n, t) && n.a.out != []
    ensures var m := AtB(Deliver(t, Hal(Ok, t)));
      Healthy(n, m) && Paced(MoveOnce(n, m), t) && MoveOnce(n, m) != n
  {
    var hal := Hal(Ok, t);
    HeadRouted(n, p, t);
    HeadAccepted(n, p, t, hal);
    RoutedData(n.b.cfg, n.b.t, n.a.out[0], t, hal);
    DataMovesDeadline(n.b.cfg, n.b.t.rx, n.a.out[0], t, hal);
    if n.b.t.rx.Receiving? {
      SegmentsMakeProgress(p, n.b.seen);
      SegmentsMakeProgress(p, n.b.seen + 1);
    }
  }

  // The sender takes the clear-to-send at once.
  lemma DeliverClearToSend(n: Net, p: seq<Byte>, base: nat, t: nat)
    requires Lockstep(n, p, base) && Paced(n, t) && n.a.out == [] && n.b.out != []
    ensures var m := AtA(Deliver(t, Hal(Ok, t)));
      Healthy(n, m) && Paced(MoveOnce(n, m), t) && MoveOnce(n, m) != n
  {
    assert n.b.out == [ClearToSend(n)];
    assert n.a.out + [] == n.a.out;
  }

  // With nothing under way the sender is sending, and the receiver still waits when it may.
  lemma SendNext(n: Net, p: seq<Byte>, base: nat, t: nat) returns (t': nat)
    requires Lockstep(n, p, base) && Paced(n, t) && n.a.out == [] && n.b.out == [] && n.b.t.rx != Ready(p)
    requires Pause(n) < n.b.cfg.consecutiveFrameTimeoutMs
    ensures t <= t'
    ensures var m := AtA(Tick(t', Hal(Ok, t')));
      Healthy(n, m) && Paced(MoveOnce(n, m), t') && MoveOnce(n, m) != n
  {
    var frames := Segments(n.a.cfg, p);
    assert |frames[n.b.seen..n.a.sent]| == n.a.sent - n.b.seen;
    var tx := n.a.t.tx;
    t' := Max(t, tx.phase.nextSend);
    var hal := Hal(Ok, t');
    SegmentQueued(n, p, hal);
    assert StepPoll(n.a.cfg, n.a.t, t', hal) == OfTx(n.a.t, TxSendNext(n.a.cfg, tx, hal));
    assert |frames[n.b.seen..n.a.sent + 1]| == 1;
  }

  lemma RunToDelivery(n: Net, p: seq<Byte>, base: nat, t: nat) returns (moves: seq<Move>)
    requires Lockstep(n, p, base) && Paced(n, t) && Pause(n) < n.b.cfg.consecutiveFrameTimeoutMs
    ensures HealthyRun(n, moves) && OneClock(moves, t)
    ensures Play(n, moves).b.t.rx == Ready(p) && Play(n, moves).a.t.tx.Silent?
    decreases Distance(n, p)
  {
    if n.b.t.rx == Ready(p) {
      moves := [];
    } else {
      var t', m := t, AtB(Deliver(t, Hal(Ok, t)));
      if n.a.out != [] {
        DeliverData(n, p, base, t);
      } else if n.b.out != [] {
        m := AtA(Deliver(t, Hal(Ok, t)));
        DeliverClearToSend(n, p, base, t);
      } else {
        t' := SendNext(n, p, base, t);
        m := AtA(Tick(t', Hal(Ok, t')));
      }
      var base' := HealthyMove(n, p, base, m);
      var rest := RunToDelivery(MoveOnce(n, m), p, base', t');
      moves := [m] + rest;
      assert moves[1..] == rest;
    }
  }

  /** For every payload some healthy run delivers it, all readings taken from one clock. */
  lemma DeliveringRunExists(cfgA: Config, cfgB: Config, p: seq<Byte>, hal: Hal) returns (moves: seq<Move>)
    requires Paired(Net(NewNode(cfgA), NewNode(cfgB)), p) && hal.status == Ok
    requires DecodeStMinMs(cfgB.rxStMin).value < cfgB.consecutiveFrameTimeoutMs
    ensures HealthyRun(Opened(cfgA, cfgB, p, hal), moves) && OneClock(moves, hal.at)
    ensures var n := Play(Opened(cfgA, cfgB, p, hal), moves); n.b.t.rx == Ready(p) && n.a.t.tx.Silent?
  {
    OpenedInLockstep(cfgA, cfgB, p, hal);
    moves := RunToDelivery(Opened(cfgA, cfgB, p, hal), p, 0, hal.at);
  }
}
