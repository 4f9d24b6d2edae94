/**
 Two transports joined by two FIFO queues that may lose frames, each sending and receiving
 at once. Whatever the drivers answer, whatever the clocks read, whatever is lost and in
 whatever order polls and deliveries happen, a message that becomes ready is a payload the
 peer was asked to send, byte for byte, provided no transfer is begun into the remains of
 another one.
 */
module IsoTpLink {
  import opened Types
  import opened Can
  import opened IsoTpSpec
  import opened IsoTpSegments

  datatype Node = Node(
    cfg: Config, t: Transport,
    out: seq<CanFrame>,            // frames accepted by its driver, not yet delivered
    offered: Option<seq<Byte>>,    // the payload of its last transfer, once there was one
    earlier: seq<seq<Byte>>,       // the payloads of the transfers before
    sent: nat,                     // data frames of the last transfer its driver accepted
    seen: nat)                     // of the peer's last transfer, data frames gone from the queue

  datatype Action =
    | Begin(payload: seq<Byte>, hal: Hal)
    | Tick(now: nat, hal: Hal)
    | Deliver(now: nat, hal: Hal)
    | Lose
    | Fetch(capacity: Option<nat>)
    | Drop

  predicate IsData(f: CanFrame) {
    f.Pci() <= 2
  }

  function DataFrames(queue: seq<CanFrame>): seq<CanFrame> {
    if queue == [] then []
    else (if IsData(queue[0]) then [queue[0]] else []) + DataFrames(queue[1..])
  }

  // A call that ended in outcome o: whatever the driver took is queued.
  function After(self: Node, o: Outcome, hal: Hal): Node {
    var taken := Taken(o.sent, hal);
    self.(t := o.next, out := self.out + taken, sent := self.sent + |DataFrames(taken)|)
  }

  // All payloads the node has begun to send.
  function Payloads(self: Node): seq<seq<Byte>> {
    self.earlier + (if self.offered.Some? then [self.offered.value] else [])
  }

  // The bookkeeping of a new transfer.
  function Renewed(self: Node, payload: seq<Byte>): Node {
    self.(offered := Some(payload), earlier := Payloads(self), sent := 0)
  }

  // The head of the peer's queue is gone.
  function Taking(self: Node, frame: CanFrame): Node {
    if IsData(frame) then self.(seen := self.seen + 1) else self
  }

  // The action offers the driver the first frame of a new transfer.
  predicate Opens(self: Node, a: Action)
    requires Sound(self.cfg, self.t)
  {
    a.Begin? && TxStart(self.cfg, self.t.tx, Some(a.payload), a.hal).sent.Some?
  }

  /**
   One action at one node. A delivery or a loss takes the head of the peer's queue: a frame
   lost anywhere in the queue is as good as lost there.
   */
  function Act(self: Node, peer: Node, a: Action): (r: (Node, Node))
    requires Sound(self.cfg, self.t)
    ensures r.0.cfg == self.cfg && Sound(self.cfg, r.0.t)
    ensures r.1.(out := peer.out, seen := peer.seen) == peer
  {
    match a
    case Begin(payload, hal) =>
      var o := OfTx(self.t, TxStart(self.cfg, self.t.tx, Some(payload), hal));
      if o.sent.None? then (self, peer) else (After(Renewed(self, payload), o, hal), peer.(seen := 0))
    case Tick(now, hal) => (After(self, StepPoll(self.cfg, self.t, now, hal), hal), peer)
    case Deliver(now, hal) =>
      if peer.out == [] then (self, peer)
      else
        var o := StepArrive(self.cfg, self.t, peer.out[0], now, hal);
        (Taking(After(self, o, hal), peer.out[0]), peer.(out := peer.out[1..]))
    case Lose =>
      if peer.out == [] then (self, peer) else (Taking(self, peer.out[0]), peer.(out := peer.out[1..]))
    case Fetch(capacity) => (self.(t := self.t.(rx := RxTake(self.t.rx, capacity).rx)), peer)
    case Drop => (self.(t := self.t.(rx := RxDiscard(self.t.rx))), peer)
  }

  predicate Transmits(cfg: Config, payload: seq<Byte>) {
    Sendable(payload) && |payload| <= cfg.maxPayload
  }

  /**
   What the receiver can hold when `seen` data frames of the payload are gone from the queue.
   An assembly is never longer than what those frames carry, and if it is as long, it is
   exactly that. So one that misses a frame can never become complete, however the 4-bit
   sequence numbers wrap.
   */
  predicate ReceiverAt(rx: Rx, payload: seq<Byte>, seen: nat, earlier: seq<seq<Byte>>)
    requires Sendable(payload)
  {
    match rx
    case Empty => true
    case Ready(m) => m == payload || m in earlier
    case Receiving(expected, data, _, _, _) =>
      && |payload| > 7 && expected == |payload| && seen >= 1
      && |data| <= Carried(payload, seen)
      && (|data| == Carried(payload, seen) ==> data == payload[..|data|])
  }

  /** The state of one direction of the link. */
  predicate Direction(from: Node, to: Node) {
    if from.offered.None? then
      && from.t.tx.Silent? && from.sent == to.seen == 0 && DataFrames(from.out) == [] && to.t.rx.Empty?
      && from.earlier == []
    else
      var p := from.offered.value;
      && Transmits(from.cfg, p)
      && to.seen <= from.sent <= SegmentCount(p)
      && DataFrames(from.out) == Segments(from.cfg, p)[to.seen..from.sent]
      && SenderAt(from.t.tx, p, from.sent)
      && ReceiverAt(to.t.rx, p, to.seen, from.earlier)
  }

  // ---- Queues ----

  lemma {:induction false} DataAppend(queue: seq<CanFrame>, more: seq<CanFrame>)
    ensures DataFrames(queue + more) == DataFrames(queue) + DataFrames(more)
    decreases |queue|
  {
    if queue == [] {
      assert queue + more == more;
    } else {
      var head := if IsData(queue[0]) then [queue[0]] else [];
      assert (queue + more)[1..] == queue[1..] + more;
      DataAppend(queue[1..], more);
      calc {
        DataFrames(queue + more);
        head + DataFrames(queue[1..] + more);
        head + (DataFrames(queue[1..]) + DataFrames(more));
        (head + DataFrames(queue[1..])) + DataFrames(more);
        DataFrames(queue) + DataFrames(more);
      }
    }
  }

  lemma SingleData(f: CanFrame)
    ensures DataFrames([f]) == if IsData(f) then [f] else []
  {
    assert [f][1..] == [];
  }

  // ---- Receiving one segment ----

  // Segment number k of payload p, as the receiver sees it.
  predicate IsSegment(frame: CanFrame, p: seq<Byte>, k: nat)
    requires Sendable(p) && k < SegmentCount(p)
  {
    && 2 <= frame.length <= 8
    && if |p| <= 7
       then frame.Pci() == 0 && frame.Low() == |p| && frame.length == |p| + 1 && frame.payload[1..1 + |p|] == p
       else if k == 0 then
         frame.Pci() == 1 && frame.length == 8 && DeclaredLength(frame) == |p| && frame.payload[2..8] == p[..6]
       else
         var chunk := p[Carried(p, k)..Carried(p, k + 1)];
         && frame.Pci() == 2 && frame.Low() == k % 16
         && frame.length == |chunk| + 1 && frame.payload[1..frame.length] == chunk
  }

  lemma SegmentIsSegment(cfg: Config, p: seq<Byte>, k: nat)
    requires Sendable(p) && k < SegmentCount(p)
    ensures IsSegment(Segment(cfg, p, k), p, k)
  {
    SegmentData(cfg, p, k);
    CarriedGrows(p, k);
  }

  // Whatever becomes of a segment, the receiver holds no more than was sent.
  lemma Missed(rx: Rx, p: seq<Byte>, seen: nat, earlier: seq<seq<Byte>>)
    requires Sendable(p) && seen < SegmentCount(p) && ReceiverAt(rx, p, seen, earlier)
    ensures ReceiverAt(rx, p, seen + 1, earlier)
  {
    CarriedGrows(p, seen);
  }

  lemma NextDelivered(cfg: Config, rx: Rx, p: seq<Byte>, seen: nat, earlier: seq<seq<Byte>>, frame: CanFrame,
                      now: nat, hal: Hal)
    requires RxOk(cfg, rx) && rx.Receiving? && Sendable(p) && 1 <= seen < SegmentCount(p)
    requires ReceiverAt(rx, p, seen, earlier) && IsSegment(frame, p, seen)
    ensures ReceiverAt(RxOnConsecutive(cfg, rx, frame, now, hal).rx, p, seen + 1, earlier)
  {
    var before, after := Carried(p, seen), Carried(p, seen + 1);
    CarriedGrows(p, seen);
    Missed(rx, p, seen, earlier);
    if frame.Low() == rx.nextSequence {
      var count := Min(frame.length - 1, rx.expected - |rx.data|);
      var data := rx.data + frame.payload[1..1 + count];
      assert |data| <= after;
      if |data| == after {
        assert p[..before] + p[before..after] == p[..after];
      }
      assert p[..|p|] == p;
      assert RxOnConsecutive(cfg, rx, frame, now, hal)
          == RxSettle(cfg, rx.expected, data, (rx.nextSequence + 1) % 16, (rx.blockCount + 1) % 256, now, hal);
    }
  }

  lemma SegmentDelivered(cfg: Config, rx: Rx, p: seq<Byte>, seen: nat, earlier: seq<seq<Byte>>, frame: CanFrame,
                         now: nat, hal: Hal)
    requires cfg.Valid() && RxOk(cfg, rx) && Sendable(p) && seen < SegmentCount(p)
    requires ReceiverAt(rx, p, seen, earlier) && IsSegment(frame, p, seen)
    ensures ReceiverAt(RxOnData(cfg, rx, frame, now, hal).rx, p, seen + 1, earlier)
  {
    Missed(rx, p, seen, earlier);
    if frame.Pci() == 2 && rx.Receiving? {
      NextDelivered(cfg, rx, p, seen, earlier, frame, now, hal);
    }
  }

  lemma SegmentArrives(cfg: Config, s: Transport, p: seq<Byte>, seen: nat, earlier: seq<seq<Byte>>, frame: CanFrame,
                       now: nat, hal: Hal)
    requires Sound(cfg, s) && Sendable(p) && seen < SegmentCount(p)
    requires ReceiverAt(s.rx, p, seen, earlier) && IsSegment(frame, p, seen)
    ensures ReceiverAt(StepArrive(cfg, s, frame, now, hal).next.rx, p, seen + 1, earlier)
  {
    Missed(s.rx, p, seen, earlier);
    ArrivalCases(cfg, s, frame, now, hal);
    if Routed(cfg, s, frame, now) {
      RoutedData(cfg, s, frame, now, hal);
      SegmentDelivered(cfg, s.rx, p, seen, earlier, frame, now, hal);
    }
  }

  lemma RoutedData(cfg: Config, s: Transport, frame: CanFrame, now: nat, hal: Hal)
    requires Sound(cfg, s) && Routed(cfg, s, frame, now) && IsData(frame)
    ensures StepArrive(cfg, s, frame, now, hal) == OfRx(s, RxOnData(cfg, s.rx, frame, now, hal))
  {
  }

  // ---- One step at one node keeps both directions ----

  // The transmit side stayed where it was, or stopped.
  predicate Unmoved(before: Tx, after: Tx) {
    after.Silent? ||
    (before.Open? && after.Open? && after.payload == before.payload
     && after.offset == before.offset && after.sequence == before.sequence)
  }

  lemma SenderUnmoved(from: Node, from': Node, to: Node, to': Node)
    requires Direction(from, to) && Unmoved(from.t.tx, from'.t.tx)
    requires from'.cfg == from.cfg && from'.offered == from.offered && from'.earlier == from.earlier
    requires from'.sent == from.sent && DataFrames(from'.out) == DataFrames(from.out)
    requires to'.t.rx == to.t.rx && to'.seen == to.seen
    ensures Direction(from', to')
  {
  }

  // The receive side stayed, or was emptied, and nothing left the queue.
  lemma ReceiverUndelivered(from: Node, to: Node, to': Node)
    requires Direction(from, to) && (to'.t.rx == to.t.rx || to'.t.rx.Empty?) && to'.seen == to.seen
    ensures Direction(from, to')
  {
  }

  // The driver took the next segment.
  lemma SenderAppends(from: Node, to: Node, p: seq<Byte>, frame: CanFrame)
    requires Sendable(p) && to.seen <= from.sent < SegmentCount(p)
    requires frame == Segment(from.cfg, p, from.sent)
    requires DataFrames(from.out) == Segments(from.cfg, p)[to.seen..from.sent]
    ensures DataFrames(from.out + [frame]) == Segments(from.cfg, p)[to.seen..from.sent + 1]
    ensures DataFrames([frame]) == [frame]
  {
    var frames := Segments(from.cfg, p);
    assert frames[to.seen..from.sent] + [frames[from.sent]] == frames[to.seen..from.sent + 1];
    assert IsData(frame) by { SegmentData(from.cfg, p, from.sent); }
    SingleData(frame);
    DataAppend(from.out, [frame]);
  }

  /** Nothing is left of an earlier transfer in this direction. */
  predicate Quiet(self: Node, peer: Node) {
    !peer.t.rx.Receiving? && DataFrames(self.out) == []
  }

  lemma BeginKeeps(self: Node, peer: Node, payload: seq<Byte>, hal: Hal)
    requires Sound(self.cfg, self.t) && Direction(self, peer)
    requires Opens(self, Begin(payload, hal)) && Quiet(self, peer)
    ensures var (self', peer') := Act(self, peer, Begin(payload, hal)); Direction(self', peer')
  {
    var o := TxStart(self.cfg, self.t.tx, Some(payload), hal);
    var anew := Renewed(self, payload);
    assert Segments(self.cfg, payload)[0..0] == [];
    if hal.status == Ok {
      SenderAppends(anew, peer.(seen := 0), payload, o.sent.value);
    } else {
      assert self.out + [] == self.out;
    }
  }

  lemma SegmentIsSent(cfg: Config, tx: Tx, p: seq<Byte>, k: nat, hal: Hal)
    requires TxOk(cfg, tx) && tx.Open? && tx.phase.Sending? && Sendable(p) && SenderAt(tx, p, k)
    ensures var o := TxSendNext(cfg, tx, hal);
      o.sent == Some(Segment(cfg, p, k)) && SenderAt(o.tx, p, k + |Taken(o.sent, hal)|)
  {
    NextIsSegment(cfg, tx, p, k);
    SenderAdvances(cfg, tx, p, k, hal.at);
  }

  lemma TickKeeps(self: Node, peer: Node, now: nat, hal: Hal)
    requires Sound(self.cfg, self.t) && Direction(self, peer)
    ensures var o := StepPoll(self.cfg, self.t, now, hal); Direction(After(self, o, hal), peer)
  {
    var o := StepPoll(self.cfg, self.t, now, hal);
    if o.sent.None? {
      AfterRefused(self, o, hal);
      SenderUnmoved(self, After(self, o, hal), peer, peer);
    } else {
      assert o == OfTx(self.t, TxSendNext(self.cfg, self.t.tx, hal));
      SentKeeps(self, peer, o, hal);
    }
  }

  lemma AfterAccepted(self: Node, o: Outcome, hal: Hal)
    requires o.sent.Some? && IsData(o.sent.value) && hal.status == Ok
    ensures After(self, o, hal) == self.(t := o.next, out := self.out + [o.sent.value], sent := self.sent + 1)
  {
    SingleData(o.sent.value);
  }

  lemma AfterRefused(self: Node, o: Outcome, hal: Hal)
    requires o.sent.None? || hal.status != Ok
    ensures After(self, o, hal) == self.(t := o.next)
  {
    assert self.out + [] == self.out;
  }

  // A direction put together again after an acceptance.
  lemma Rejoined(from: Node, from': Node, to: Node, p: seq<Byte>)
    requires Direction(from, to) && from.offered == Some(p) && Sendable(p)
    requires from'.cfg == from.cfg && from'.offered == from.offered && from'.earlier == from.earlier
    requires from.sent <= from'.sent <= SegmentCount(p) && SenderAt(from'.t.tx, p, from'.sent)
    requires DataFrames(from'.out) == Segments(from.cfg, p)[to.seen..from'.sent]
    ensures Direction(from', to)
  {
  }

  // The driver took the next segment, and the transmit side moved on.
  lemma AcceptedKeeps(self: Node, peer: Node, p: seq<Byte>, frame: CanFrame, t: Transport)
    requires Direction(self, peer) && self.offered == Some(p) && Sendable(p) && self.sent < SegmentCount(p)
    requires frame == Segment(self.cfg, p, self.sent) && SenderAt(t.tx, p, self.sent + 1)
    ensures Direction(self.(t := t, out := self.out + [frame], sent := self.sent + 1), peer)
    ensures IsData(frame)
  {
    var self' := self.(t := t, out := self.out + [frame], sent := self.sent + 1);
    assert DataFrames(self'.out) == Segments(self.cfg, p)[peer.seen..self'.sent] && IsData(frame) by {
      SenderAppends(self, peer, p, frame);
    }
    Rejoined(self, self', peer, p);
  }

  // The driver did not take it.
  lemma RefusedKeeps(self: Node, peer: Node, t: Transport)
    requires Direction(self, peer) && self.offered.Some?
    requires SenderAt(t.tx, self.offered.value, self.sent)
    ensures Direction(self.(t := t), peer)
  {
  }

  // A node whose transfer is open.
  lemma OpenSender(self: Node, peer: Node)
    requires Direction(self, peer) && self.t.tx.Open?
    ensures self.offered.Some? && Sendable(self.offered.value)
    ensures self.sent < SegmentCount(self.offered.value) && SenderAt(self.t.tx, self.offered.value, self.sent)
  {
  }

  lemma SentKeeps(self: Node, peer: Node, o: Outcome, hal: Hal)
    requires Sound(self.cfg, self.t) && Direction(self, peer)
    requires self.t.tx.Open? && self.t.tx.phase.Sending?
    requires o == OfTx(self.t, TxSendNext(self.cfg, self.t.tx, hal))
    ensures Direction(After(self, o, hal), peer)
  {
    OpenSender(self, peer);
    var p := self.offered.value;
    SegmentIsSent(self.cfg, self.t.tx, p, self.sent, hal);
    if hal.status == Ok {
      AcceptedKeeps(self, peer, p, o.sent.value, o.next);
      AfterAccepted(self, o, hal);
    } else {
      RefusedKeeps(self, peer, o.next);
      AfterRefused(self, o, hal);
    }
  }

  lemma DeliverySendsNoData(cfg: Config, s: Transport, frame: CanFrame, now: nat, hal: Hal)
    requires Sound(cfg, s)
    ensures var o := StepArrive(cfg, s, frame, now, hal);
      DataFrames(Taken(o.sent, hal)) == [] && Unmoved(s.tx, o.next.tx)
  {
    var o := StepArrive(cfg, s, frame, now, hal);
    ArrivalCases(cfg, s, frame, now, hal);
    if o.sent.Some? {
      SingleData(o.sent.value);
    }
  }

  // The delivering node's own transmission is not advanced by what it receives.
  lemma DeliverKeepsSender(self: Node, peer: Node, now: nat, hal: Hal)
    requires Sound(self.cfg, self.t) && Direction(self, peer) && peer.out != []
    ensures var (self', peer') := Act(self, peer, Deliver(now, hal)); Direction(self', peer')
  {
    var (self', peer') := Act(self, peer, Deliver(now, hal));
    var o := StepArrive(self.cfg, self.t, peer.out[0], now, hal);
    DeliverySendsNoData(self.cfg, self.t, peer.out[0], now, hal);
    DataAppend(self.out, Taken(o.sent, hal));
    SenderUnmoved(self, self', peer, peer');
  }

  // The head of the peer's queue is the segment this node sees next.
  lemma HeadIsSegment(self: Node, peer: Node)
    requires Direction(peer, self) && peer.out != [] && IsData(peer.out[0])
    ensures peer.offered.Some? && self.seen < peer.sent
    ensures var p := peer.offered.value;
      && IsSegment(peer.out[0], p, self.seen)
      && DataFrames(peer.out[1..]) == Segments(peer.cfg, p)[self.seen + 1..peer.sent]
  {
    var p := peer.offered.value;
    assert peer.out[0] == DataFrames(peer.out)[0] == Segments(peer.cfg, p)[self.seen];
    assert DataFrames(peer.out[1..]) == DataFrames(peer.out)[1..];
    SegmentIsSegment(peer.cfg, p, self.seen);
  }

  // Whatever rx' the receiver ends with, taking the head keeps the direction if rx' allows it.
  lemma HeadTaken(self: Node, self': Node, peer: Node)
    requires Direction(peer, self) && peer.out != [] && IsData(peer.out[0])
    requires self'.seen == self.seen + 1
    requires peer.offered.Some? && Sendable(peer.offered.value)
    requires ReceiverAt(self'.t.rx, peer.offered.value, self.seen + 1, peer.earlier)
    ensures Direction(peer.(out := peer.out[1..]), self')
  {
    HeadIsSegment(self, peer);
  }

  // Delivering the head of the peer's queue keeps the incoming direction.
  lemma DeliverKeepsReceiver(self: Node, peer: Node, now: nat, hal: Hal)
    requires Sound(self.cfg, self.t) && Direction(peer, self) && peer.out != []
    ensures var (self', peer') := Act(self, peer, Deliver(now, hal)); Direction(peer', self')
  {
    var (self', peer') := Act(self, peer, Deliver(now, hal));
    if IsData(peer.out[0]) {
      HeadIsSegment(self, peer);
      SegmentArrives(self.cfg, self.t, peer.offered.value, self.seen, peer.earlier, peer.out[0], now, hal);
      HeadTaken(self, self', peer);
    } else {
      ArrivalCases(self.cfg, self.t, peer.out[0], now, hal);
    }
  }

  lemma LossKeeps(self: Node, peer: Node)
    requires Direction(self, peer) && Direction(peer, self) && Sound(self.cfg, self.t)
    ensures var (self', peer') := Act(self, peer, Lose); Direction(self', peer') && Direction(peer', self')
  {
    var (self', peer') := Act(self, peer, Lose);
    SenderUnmoved(self, self', peer, peer');
    if peer.out != [] && IsData(peer.out[0]) {
      HeadIsSegment(self, peer);
      Missed(self.t.rx, peer.offered.value, self.seen, peer.earlier);
      HeadTaken(self, self', peer);
    }
  }

  // Both directions, seen from the acting node.
  predicate BothWays(self: Node, peer: Node) {
    Direction(self, peer) && Direction(peer, self)
  }

  lemma BeginKeepsBoth(self: Node, peer: Node, payload: seq<Byte>, hal: Hal)
    requires Sound(self.cfg, self.t) && BothWays(self, peer)
    requires Opens(self, Begin(payload, hal)) ==> Quiet(self, peer)
    ensures var (self', peer') := Act(self, peer, Begin(payload, hal)); BothWays(self', peer')
  {
    if Opens(self, Begin(payload, hal)) {
      var (self', peer') := Act(self, peer, Begin(payload, hal));
      BeginKeeps(self, peer, payload, hal);
      assert Direction(peer', self);
      ReceiverUndelivered(peer', self, self');
    }
  }

  lemma TickKeepsBoth(self: Node, peer: Node, now: nat, hal: Hal)
    requires Sound(self.cfg, self.t) && BothWays(self, peer)
    ensures var (self', peer') := Act(self, peer, Tick(now, hal)); BothWays(self', peer')
  {
    TickKeeps(self, peer, now, hal);
    ReceiverUndelivered(peer, self, After(self, StepPoll(self.cfg, self.t, now, hal), hal));
  }

  lemma DeliverKeepsBoth(self: Node, peer: Node, now: nat, hal: Hal)
    requires Sound(self.cfg, self.t) && BothWays(self, peer)
    ensures var (self', peer') := Act(self, peer, Deliver(now, hal)); BothWays(self', peer')
  {
    if peer.out != [] {
      DeliverKeepsSender(self, peer, now, hal);
      DeliverKeepsReceiver(self, peer, now, hal);
    }
  }

  lemma TakeKeepsBoth(self: Node, peer: Node, rx: Rx)
    requires BothWays(self, peer) && rx in {self.t.rx, Empty}
    ensures BothWays(self.(t := self.t.(rx := rx)), peer)
  {
    SenderUnmoved(self, self.(t := self.t.(rx := rx)), peer, peer);
    ReceiverUndelivered(peer, self, self.(t := self.t.(rx := rx)));
  }

  lemma ActKeeps(self: Node, peer: Node, a: Action)
    requires Sound(self.cfg, self.t) && BothWays(self, peer)
    requires Opens(self, a) ==> Quiet(self, peer)
    ensures var (self', peer') := Act(self, peer, a); BothWays(self', peer')
  {
    match a
    case Begin(payload, hal) => BeginKeepsBoth(self, peer, payload, hal);
    case Tick(now, hal) => TickKeepsBoth(self, peer, now, hal);
    case Deliver(now, hal) => DeliverKeepsBoth(self, peer, now, hal);
    case Lose => LossKeeps(self, peer);
    case Fetch(capacity) => TakeKeepsBoth(self, peer, RxTake(self.t.rx, capacity).rx);
    case Drop => TakeKeepsBoth(self, peer, RxDiscard(self.t.rx));
  }

  // ---- Whole runs ----

  datatype Move = AtA(a: Action) | AtB(a: Action)
  datatype Net = Net(a: Node, b: Node)

  function NewNode(cfg: Config): Node {
    Node(cfg, FRESH, [], None, [], 0, 0)
  }

  predicate NetSound(n: Net) {
    Sound(n.a.cfg, n.a.t) && Sound(n.b.cfg, n.b.t)
  }

  function MoveOnce(n: Net, m: Move): (n': Net)
    requires NetSound(n)
    ensures NetSound(n') && n'.a.cfg == n.a.cfg && n'.b.cfg == n.b.cfg
  {
    match m
    case AtA(a) => var (self, peer) := Act(n.a, n.b, a); Net(self, peer)
    case AtB(a) => var (self, peer) := Act(n.b, n.a, a); Net(peer, self)
  }

  /** Any interleaving of the two nodes. */
  function Play(n: Net, moves: seq<Move>): (n': Net)
    requires NetSound(n)
    ensures NetSound(n') && n'.a.cfg == n.a.cfg && n'.b.cfg == n.b.cfg
    decreases |moves|
  {
    if moves == [] then n else Play(MoveOnce(n, moves[0]), moves[1..])
  }

  // The move does not begin a transfer into the remains of another one.
  predicate QuietMove(n: Net, m: Move)
    requires NetSound(n)
  {
    match m
    case AtA(a) => Opens(n.a, a) ==> Quiet(n.a, n.b)
    case AtB(a) => Opens(n.b, a) ==> Quiet(n.b, n.a)
  }

  predicate Orderly(n: Net, moves: seq<Move>)
    requires NetSound(n)
    decreases |moves|
  {
    moves != [] ==> QuietMove(n, moves[0]) && Orderly(MoveOnce(n, moves[0]), moves[1..])
  }

  lemma MoveKeeps(n: Net, m: Move)
    requires NetSound(n) && BothWays(n.a, n.b) && QuietMove(n, m)
    ensures var n' := MoveOnce(n, m); BothWays(n'.a, n'.b)
  {
    match m
    case AtA(a) => ActKeeps(n.a, n.b, a);
    case AtB(a) => ActKeeps(n.b, n.a, a);
  }

  lemma {:induction false} PlayKeeps(n: Net, moves: seq<Move>)
    requires NetSound(n) && BothWays(n.a, n.b) && Orderly(n, moves)
    ensures var n' := Play(n, moves); BothWays(n'.a, n'.b)
    decreases |moves|
  {
    if moves != [] {
      MoveKeeps(n, moves[0]);
      PlayKeeps(MoveOnce(n, moves[0]), moves[1..]);
    }
  }

  /** Safety: only payloads the peer began to send can ever become ready, in both directions at once. */
  lemma OnlyPayloadsArrive(cfgA: Config, cfgB: Config, moves: seq<Move>)
    requires Orderly(Net(NewNode(cfgA), NewNode(cfgB)), moves)
    ensures var n := Play(Net(NewNode(cfgA), NewNode(cfgB)), moves);
      && (n.b.t.rx.Ready? ==> n.b.t.rx.message in Payloads(n.a))
      && (n.a.t.rx.Ready? ==> n.a.t.rx.message in Payloads(n.b))
  {
    PlayKeeps(Net(NewNode(cfgA), NewNode(cfgB)), moves);
  }

  // ---- One transfer a node ----

  // If the move begins a transfer, it is the node's first.
  predicate FirstMove(n: Net, m: Move)
    requires NetSound(n)
  {
    match m
    case AtA(a) => Opens(n.a, a) ==> n.a.offered.None?
    case AtB(a) => Opens(n.b, a) ==> n.b.offered.None?
  }

  predicate OneEach(n: Net, moves: seq<Move>)
    requires NetSound(n)
    decreases |moves|
  {
    moves != [] ==> FirstMove(n, moves[0]) && OneEach(MoveOnce(n, moves[0]), moves[1..])
  }

  lemma FirstIsQuiet(n: Net, m: Move)
    requires NetSound(n) && BothWays(n.a, n.b) && FirstMove(n, m) && n.a.earlier == n.b.earlier == []
    ensures QuietMove(n, m) && MoveOnce(n, m).a.earlier == MoveOnce(n, m).b.earlier == []
  {
  }

  lemma {:induction false} OneEachIsOrderly(n: Net, moves: seq<Move>)
    requires NetSound(n) && BothWays(n.a, n.b) && OneEach(n, moves) && n.a.earlier == n.b.earlier == []
    ensures Orderly(n, moves) && Play(n, moves).a.earlier == Play(n, moves).b.earlier == []
    decreases |moves|
  {
    if moves != [] {
      FirstIsQuiet(n, moves[0]);
      MoveKeeps(n, moves[0]);
      OneEachIsOrderly(MoveOnce(n, moves[0]), moves[1..]);
    }
  }

  /** With one transfer a node nothing more is needed, and what becomes ready is that payload. */
  lemma OnlyThePayloadArrives(cfgA: Config, cfgB: Config, moves: seq<Move>)
    requires OneEach(Net(NewNode(cfgA), NewNode(cfgB)), moves)
    ensures var n := Play(Net(NewNode(cfgA), NewNode(cfgB)), moves);
      && (n.b.t.rx.Ready? ==> n.a.offered == Some(n.b.t.rx.message))
      && (n.a.t.rx.Ready? ==> n.b.offered == Some(n.a.t.rx.message))
  {
    OneEachIsOrderly(Net(NewNode(cfgA), NewNode(cfgB)), moves);
    OnlyPayloadsArrive(cfgA, cfgB, moves);
  }
}
