/**
 A payload the sender may send and the receiver cannot hold: the receiver answers the First
 Frame with an overflow and assembles nothing, and the sender learns of it and gives up.
 */
module IsoTpOversize {
  import opened Types
  import opened Can
  import opened Diagnostic
  import opened IsoTpSpec
  import opened IsoTpLink
  import opened IsoTpDelivery

  // Two ends that talk to each other, and a payload that is too long for the second.
  predicate TooLong(a: Config, b: Config, p: seq<Byte>) {
    && a.Valid() && b.Valid() && a.rxId == b.txId && b.rxId == a.txId && a.format == b.format
    && 7 < |p| <= a.maxPayload && |p| > b.maxPayload
  }

  // One data frame was sent and nothing is received.
  predicate OnlyFirst(n: Net, p: seq<Byte>) {
    && TooLong(n.a.cfg, n.b.cfg, p) && n.a.sent == 1
    && n.a.t.rx.Empty? && n.b.t == FRESH
  }

  predicate Waits(tx: Tx, p: seq<Byte>) {
    && tx.Open? && tx.phase.WaitFlowControl?
    && tx == Open(p, 6, 1, 0, 0, 0, 0, None, tx.phase)
  }

  /** The First Frame is under way, then the overflow, and then all is over. */
  predicate Refusing(n: Net, p: seq<Byte>) {
    && OnlyFirst(n, p) && |p| <= MAX_PAYLOAD
    && ((n.a.out == [FirstFrame(n.a.cfg, p)] && n.b.out == [] && Waits(n.a.t.tx, p))
        || (n.a.out == [] && n.b.out == [FlowControl(n.b.cfg, 2)] && Waits(n.a.t.tx, p))
        || (n.a.out == [] && n.b.out == [] && n.a.t.tx.Silent?))
  }

  lemma FirstIsRefused(cfg: Config, frame: CanFrame, now: nat, hal: Hal)
    requires cfg.Valid() && frame.Pci() == 1 && frame.length == 8 && 7 < DeclaredLength(frame) <= MAX_PAYLOAD
    requires DeclaredLength(frame) > cfg.maxPayload && Addressed(cfg, frame) && hal.status == Ok
    ensures StepArrive(cfg, FRESH, frame, now, hal) == Outcome(FRESH, Overflow, Some(FlowControl(cfg, 2)))
  {
  }

  lemma OverflowIsObeyed(cfg: Config, s: Transport, p: seq<Byte>, frame: CanFrame, now: nat, hal: Hal)
    requires Sound(cfg, s) && Waits(s.tx, p) && s.rx.Empty? && !TxExpired(s.tx, now)
    requires Addressed(cfg, frame) && frame.length == 3 && frame.payload[0] == 0x32
    ensures StepArrive(cfg, s, frame, now, hal) == Outcome(s.(tx := Silent), FlowControlOverflow, None)
  {
  }

  lemma FirstArrives(n: Net, p: seq<Byte>, now: nat, hal: Hal)
    requires NetSound(n) && Refusing(n, p) && n.a.out != [] && hal.status == Ok
    ensures MoveOnce(n, AtB(Deliver(now, hal)))
         == n.(a := n.a.(out := []), b := n.b.(out := [FlowControl(n.b.cfg, 2)], seen := n.b.seen + 1))
  {
    var first, answer := FirstFrame(n.a.cfg, p), FlowControl(n.b.cfg, 2);
    assert DeclaredLength(first) == |p|;
    FirstIsRefused(n.b.cfg, first, now, hal);
    SingleData(answer);
    assert n.b.out + [answer] == [answer];
  }

  lemma OverflowArrives(n: Net, p: seq<Byte>, now: nat, hal: Hal)
    requires NetSound(n) && Refusing(n, p) && n.b.out != [] && !TxExpired(n.a.t.tx, now)
    ensures StepArrive(n.a.cfg, n.a.t, n.b.out[0], now, hal).status == FlowControlOverflow
    ensures MoveOnce(n, AtA(Deliver(now, hal)))
         == n.(a := n.a.(t := n.a.t.(tx := Silent)), b := n.b.(out := []))
  {
    OverflowIsObeyed(n.a.cfg, n.a.t, p, n.b.out[0], now, hal);
    assert n.a.out + [] == n.a.out;
  }

  // What the sender's polls answer meanwhile.
  lemma PollWaits(n: Net, p: seq<Byte>, now: nat, hal: Hal)
    requires NetSound(n) && Refusing(n, p) && !TxExpired(n.a.t.tx, now)
    ensures StepPoll(n.a.cfg, n.a.t, now, hal)
         == Outcome(n.a.t, if n.a.t.tx.Silent? then Idle else InProgress, None)
    ensures MoveOnce(n, AtA(Tick(now, hal))) == n
  {
    assert n.a.out + [] == n.a.out;
  }

  lemma RefusingMove(n: Net, p: seq<Byte>, m: Move)
    requires NetSound(n) && Refusing(n, p) && Healthy(n, m)
    ensures Refusing(MoveOnce(n, m), p)
  {
    match m
    case AtA(Tick(now, hal)) => PollWaits(n, p, now, hal);
    case AtA(Deliver(now, hal)) => if n.b.out != [] { OverflowArrives(n, p, now, hal); }
    case AtB(Tick(now, hal)) => ReceiverIdles(n, p, now, hal);
    case AtB(Deliver(now, hal)) => if n.a.out != [] { FirstArrives(n, p, now, hal); }
  }

  lemma ReceiverIdles(n: Net, p: seq<Byte>, now: nat, hal: Hal)
    requires NetSound(n) && Refusing(n, p)
    ensures MoveOnce(n, AtB(Tick(now, hal))) == n
  {
    assert n.b.out + [] == n.b.out;
  }

  lemma {:induction false} RunRefuses(n: Net, p: seq<Byte>, moves: seq<Move>)
    requires NetSound(n) && Refusing(n, p) && HealthyRun(n, moves)
    ensures Refusing(Play(n, moves), p)
    decreases |moves|
  {
    if moves != [] {
      RefusingMove(n, p, moves[0]);
      RunRefuses(MoveOnce(n, moves[0]), p, moves[1..]);
    }
  }

  lemma OpenedRefuses(cfgA: Config, cfgB: Config, p: seq<Byte>, hal: Hal)
    requires TooLong(cfgA, cfgB, p) && hal.status == Ok
    ensures Refusing(Opened(cfgA, cfgB, p, hal), p)
    ensures Opened(cfgA, cfgB, p, hal).a.t.tx.phase == WaitFlowControl(hal.at + cfgA.flowControlTimeoutMs)
  {
    var first := FirstFrame(cfgA, p);
    SingleData(first);
    assert [] + [first] == [first];
  }

  /**
   Through any interleaving of polls and deliveries in time: the sender's driver takes one data
   frame and no more, the receiver assembles nothing, no poll of the sender completes, the frame
   it is delivered answers "overflow", and once nothing is under way its transfer is over.
   */
  lemma OversizeIsRefused(cfgA: Config, cfgB: Config, p: seq<Byte>, hal: Hal, moves: seq<Move>)
    requires TooLong(cfgA, cfgB, p) && hal.status == Ok && HealthyRun(Opened(cfgA, cfgB, p, hal), moves)
    ensures var n := Play(Opened(cfgA, cfgB, p, hal), moves);
      && n.a.sent == 1 && n.b.t.rx.Empty?
      && (n.a.t.tx.Silent? <==> n.a.out == [] && n.b.out == [])
      && forall now, hal: Hal :: !TxExpired(n.a.t.tx, now) ==>
           && StepPoll(n.a.cfg, n.a.t, now, hal).status in {InProgress, Idle}
           && (n.b.out != [] ==> StepArrive(n.a.cfg, n.a.t, n.b.out[0], now, hal).status == FlowControlOverflow)
  {
    OpenedRefuses(cfgA, cfgB, p, hal);
    RunRefuses(Opened(cfgA, cfgB, p, hal), p, moves);
    var n := Play(Opened(cfgA, cfgB, p, hal), moves);
    forall now, hal: Hal | !TxExpired(n.a.t.tx, now)
      ensures StepPoll(n.a.cfg, n.a.t, now, hal).status in {InProgress, Idle}
      ensures n.b.out != [] ==> StepArrive(n.a.cfg, n.a.t, n.b.out[0], now, hal).status == FlowControlOverflow
    {
      PollWaits(n, p, now, hal);
      if n.b.out != [] {
        OverflowArrives(n, p, now, hal);
      }
    }
  }

  /** And it is over as soon as First Frame and answer are delivered, the answer before the deadline. */
  lemma RefusalTakesTwoFrames(cfgA: Config, cfgB: Config, p: seq<Byte>, hal: Hal,
                              now1: nat, hal1: Hal, now2: nat, hal2: Hal)
    requires TooLong(cfgA, cfgB, p) && hal.status == hal1.status == hal2.status == Ok
    requires now2 < hal.at + cfgA.flowControlTimeoutMs
    ensures var n1 := MoveOnce(Opened(cfgA, cfgB, p, hal), AtB(Deliver(now1, hal1)));
      var n2 := MoveOnce(n1, AtA(Deliver(now2, hal2)));
      && |n1.b.out| == 1 && n1.b.out[0].payload[..3] == [0x32, cfgB.rxBlockSize, cfgB.rxStMin]
      && StepArrive(cfgA, n1.a.t, n1.b.out[0], now2, hal2).status == FlowControlOverflow
      && n2.a.t.tx.Silent? && n2.a.sent == 1 && n2.b.t.rx.Empty? && n2.a.out == n2.b.out == []
  {
    var n := Opened(cfgA, cfgB, p, hal);
    OpenedRefuses(cfgA, cfgB, p, hal);
    FirstArrives(n, p, now1, hal1);
    OverflowArrives(MoveOnce(n, AtB(Deliver(now1, hal1))), p, now2, hal2);
  }
}
