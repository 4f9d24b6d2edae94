/**
 The receive side over whole histories: what is assembled is exactly the data of
 the frames that were accepted, in sequence, and a complete message stays intact
 until it is taken or discarded.
 */
module IsoTpReceive {
  import opened Types
  import opened Can
  import opened Diagnostic
  import opened IsoTpSpec
  import opened IsoTpSegments

  // A frame became part of the current message.
  predicate Consumed(e: Event, o: Outcome) {
    e.Arrive? && e.frame.Pci() <= 2 && (o.status == InProgress || o.status == MessageReady)
  }

  // The frames of the message being assembled, or of the last one completed.
  function Gather(frames: seq<CanFrame>, e: Event, o: Outcome): seq<CanFrame> {
    if !Consumed(e, o) then frames
    else if e.frame.Pci() == 2 then frames + [e.frame]
    else [e.frame]
  }

  function Gathered(cfg: Config, history: seq<Event>): seq<CanFrame> {
    if history == [] then []
    else
      var n := |history| - 1;
      Gather(Gathered(cfg, history[..n]), history[n], OutcomeAt(cfg, history, n))
  }

  // A First Frame followed by Consecutive Frames numbered 1, 2, ... modulo 16.
  predicate InSequence(frames: seq<CanFrame>) {
    if |frames| <= 1 then frames != [] && frames[0].Pci() == 1
    else
      var n := |frames| - 1;
      InSequence(frames[..n]) && frames[n].Pci() == 2 && frames[n].Low() == n % 16
  }

  /** The message a sequence of frames spells out, if they are exactly enough. */
  predicate Spells(frames: seq<CanFrame>, message: seq<Byte>) {
    if |frames| == 1 && frames[0].Pci() == 0 then
      message == DataOf(frames[0])
    else
      && InSequence(frames) && |frames| >= 2
      && |message| == DeclaredLength(frames[0])
      && |Concatenated(frames[..|frames| - 1])| < |message| <= |Concatenated(frames)|
      && message == Concatenated(frames)[..|message|]
  }

  predicate Assembled(cfg: Config, rx: Rx, frames: seq<CanFrame>) {
    match rx
    case Empty => true
    case Ready(m) => Spells(frames, m)
    case Receiving(expected, data, next, _, _) =>
      && InSequence(frames) && expected == DeclaredLength(frames[0])
      && data == Concatenated(frames) && next == |frames| % 16
  }

  lemma Extend(frames: seq<CanFrame>, frame: CanFrame)
    requires InSequence(frames) && frame.Pci() == 2 && frame.Low() == |frames| % 16
    ensures var more := frames + [frame];
      && InSequence(more) && more[..|more| - 1] == frames
      && Concatenated(more) == Concatenated(frames) + DataOf(frame)
  {
    assert (frames + [frame])[..|frames|] == frames;
  }

  // The last frame may carry more bytes than are still missing; the surplus is dropped.
  lemma Completes(frames: seq<CanFrame>, frame: CanFrame, missing: nat)
    requires InSequence(frames) && frame.Pci() == 2 && frame.Low() == |frames| % 16
    requires 2 <= frame.length <= 8 && 1 <= missing <= frame.length - 1
    requires |Concatenated(frames)| + missing == DeclaredLength(frames[0])
    ensures Spells(frames + [frame], Concatenated(frames) + frame.payload[1..1 + missing])
  {
    Extend(frames, frame);
    assert DataOf(frame)[..missing] == frame.payload[1..1 + missing];
  }

  lemma SettleAssembled(cfg: Config, expected: nat, data: seq<Byte>, next: nat, blocks: nat,
                        now: nat, hal: Hal, frames: seq<CanFrame>)
    requires 7 < expected <= cfg.maxPayload <= MAX_PAYLOAD && 6 <= |data| <= expected
    requires next < 16 && blocks < 256 && next == |frames| % 16
    requires InSequence(frames) && expected == DeclaredLength(frames[0])
    requires if |data| < expected then data == Concatenated(frames) else Spells(frames, data)
    ensures Assembled(cfg, RxSettle(cfg, expected, data, next, blocks, now, hal).rx, frames)
  {
  }

  // What an in-sequence frame adds to an assembly: all of its data, or as much as is missing.
  lemma DataAppended(expected: nat, frames: seq<CanFrame>, frame: CanFrame, count: nat)
    requires InSequence(frames) && frame.Pci() == 2 && frame.Low() == |frames| % 16 && 2 <= frame.length <= 8
    requires |Concatenated(frames)| < expected == DeclaredLength(frames[0])
    requires count == Min(frame.length - 1, expected - |Concatenated(frames)|)
    ensures var more, data := frames + [frame], Concatenated(frames) + frame.payload[1..1 + count];
      && InSequence(more) && more[0] == frames[0] && |data| <= expected
      && if |data| < expected then data == Concatenated(more) else Spells(more, data)
  {
    Extend(frames, frame);
    if |Concatenated(frames)| + count == expected {
      Completes(frames, frame, count);
    }
  }

  lemma ConsecutiveSettles(cfg: Config, rx: Rx, frame: CanFrame, now: nat, hal: Hal)
    requires RxOk(cfg, rx) && rx.Receiving? && 2 <= frame.length <= 8 && frame.Low() == rx.nextSequence
    ensures var count := Min(frame.length - 1, rx.expected - |rx.data|);
      RxOnConsecutive(cfg, rx, frame, now, hal)
      == RxSettle(cfg, rx.expected, rx.data + frame.payload[1..1 + count], (rx.nextSequence + 1) % 16,
                  (rx.blockCount + 1) % 256, now, hal)
  {
  }

  lemma AppendAssembled(cfg: Config, rx: Rx, frames: seq<CanFrame>, frame: CanFrame, now: nat, hal: Hal)
    requires RxOk(cfg, rx) && rx.Receiving? && Assembled(cfg, rx, frames)
    requires 2 <= frame.length <= 8 && frame.Pci() == 2 && frame.Low() == rx.nextSequence
    ensures Assembled(cfg, RxOnConsecutive(cfg, rx, frame, now, hal).rx, frames + [frame])
  {
    var count := Min(frame.length - 1, rx.expected - |rx.data|);
    NumberWraps(rx.nextSequence, |frames|);
    SettledAfterAppend(cfg, rx.expected, count, rx.data + frame.payload[1..1 + count], (rx.nextSequence + 1) % 16,
                       (rx.blockCount + 1) % 256, frames, frame, now, hal);
    ConsecutiveSettles(cfg, rx, frame, now, hal);
  }

  lemma SettledAfterAppend(cfg: Config, expected: nat, count: nat, data: seq<Byte>, next: nat, blocks: nat,
                           frames: seq<CanFrame>, frame: CanFrame, now: nat, hal: Hal)
    requires InSequence(frames) && frame.Pci() == 2 && frame.Low() == |frames| % 16 && 2 <= frame.length <= 8
    requires 6 <= |Concatenated(frames)| < expected == DeclaredLength(frames[0])
    requires 7 < expected <= cfg.maxPayload <= MAX_PAYLOAD
    requires count == Min(frame.length - 1, expected - |Concatenated(frames)|)
    requires data == Concatenated(frames) + frame.payload[1..1 + count]
    requires next < 16 && blocks < 256 && next == (|frames| + 1) % 16
    ensures Assembled(cfg, RxSettle(cfg, expected, data, next, blocks, now, hal).rx, frames + [frame])
  {
    DataAppended(expected, frames, frame, count);
    SettleAssembled(cfg, expected, data, next, blocks, now, hal, frames + [frame]);
  }

  lemma FirstAssembled(cfg: Config, rx: Rx, frame: CanFrame, now: nat, hal: Hal)
    requires cfg.Valid() && rx.Empty? && 1 <= frame.length <= 8 && frame.Pci() <= 1
    ensures var o := RxOnData(cfg, rx, frame, now, hal); Assembled(cfg, o.rx, [frame])
  {
    assert [frame][..0] == [];
    assert Concatenated([frame]) == DataOf(frame);
  }

  // A frame that was refused, or whose Flow Control was, leaves no assembly it did not find.
  lemma Refused(cfg: Config, rx: Rx, frame: CanFrame, now: nat, hal: Hal)
    requires cfg.Valid() && RxOk(cfg, rx) && 1 <= frame.length <= 8 && frame.Pci() <= 2
    ensures var o := RxOnData(cfg, rx, frame, now, hal);
      o.status != InProgress && o.status != MessageReady ==> o.rx == rx || o.rx.Empty?
  {
  }

  // A frame that was consumed started a message, or continued the one under way.
  lemma Accepted(cfg: Config, rx: Rx, frame: CanFrame, now: nat, hal: Hal)
    requires cfg.Valid() && RxOk(cfg, rx) && 1 <= frame.length <= 8 && frame.Pci() <= 2
    requires RxOnData(cfg, rx, frame, now, hal).status in {InProgress, MessageReady}
    ensures frame.Pci() <= 1 ==> rx.Empty?
    ensures frame.Pci() == 2 ==> rx.Receiving? && frame.length >= 2 && frame.Low() == rx.nextSequence
  {
  }

  lemma DataAssembled(cfg: Config, rx: Rx, frames: seq<CanFrame>, e: Event, o: RxOutcome)
    requires cfg.Valid() && RxOk(cfg, rx) && Assembled(cfg, rx, frames)
    requires e.Arrive? && 1 <= e.frame.length <= 8 && e.frame.Pci() <= 2
    requires o == RxOnData(cfg, rx, e.frame, e.now, e.hal)
    ensures if o.status != InProgress && o.status != MessageReady then Assembled(cfg, o.rx, frames)
            else Assembled(cfg, o.rx, if e.frame.Pci() == 2 then frames + [e.frame] else [e.frame])
  {
    var f := e.frame;
    if o.status != InProgress && o.status != MessageReady {
      Refused(cfg, rx, f, e.now, e.hal);
    } else {
      Accepted(cfg, rx, f, e.now, e.hal);
      if f.Pci() == 2 {
        AppendAssembled(cfg, rx, frames, f, e.now, e.hal);
      } else {
        FirstAssembled(cfg, rx, f, e.now, e.hal);
      }
    }
  }

  lemma StepAssembled(cfg: Config, s: Transport, frames: seq<CanFrame>, e: Event)
    requires Sound(cfg, s) && Assembled(cfg, s.rx, frames)
    ensures var o := Step(cfg, s, e); Assembled(cfg, o.next.rx, Gather(frames, e, o))
  {
    if e.Arrive? {
      ArriveAssembled(cfg, s, frames, e);
    }
  }

  lemma ArriveAssembled(cfg: Config, s: Transport, frames: seq<CanFrame>, e: Event)
    requires Sound(cfg, s) && Assembled(cfg, s.rx, frames) && e.Arrive?
    ensures var o := StepArrive(cfg, s, e.frame, e.now, e.hal); Assembled(cfg, o.next.rx, Gather(frames, e, o))
  {
    ArrivalCases(cfg, s, e.frame, e.now, e.hal);
    if Routed(cfg, s, e.frame, e.now) && e.frame.Pci() <= 2 {
      DataAssembled(cfg, s.rx, frames, e, RxOnData(cfg, s.rx, e.frame, e.now, e.hal));
    }
  }

  /** In every history the assembly, or the ready message, is spelled out by the frames consumed. */
  lemma {:induction false} EveryMessageIsAssembled(cfg: Config, history: seq<Event>)
    ensures Assembled(cfg, Run(cfg, history).rx, Gathered(cfg, history))
  {
    if history != [] {
      var n := |history| - 1;
      EveryMessageIsAssembled(cfg, history[..n]);
      StepAssembled(cfg, Run(cfg, history[..n]), Gathered(cfg, history[..n]), history[n]);
    }
  }

  // Neither a discard nor a call that could take a message of n bytes.
  predicate Harmless(e: Event, n: nat) {
    !e.Discard? && (e.Take? ==> e.capacity.None? || e.capacity.value < n)
  }

  /** A ready message survives any frames, polls, sends and undersized receives, byte for byte. */
  lemma {:induction false} ReadyMessageIsStable(cfg: Config, s: Transport, events: seq<Event>)
    requires Sound(cfg, s) && s.rx.Ready?
    requires forall e :: e in events ==> Harmless(e, |s.rx.message|)
    ensures Continue(cfg, s, events).rx == s.rx
    decreases |events|
  {
    if events != [] {
      ReadyKept(cfg, s, events[0]);
      ReadyMessageIsStable(cfg, Step(cfg, s, events[0]).next, events[1..]);
    }
  }

  /** So in every run: what is ready after some history stays ready through any harmless continuation. */
  lemma MessageSurvivesRun(cfg: Config, history: seq<Event>, events: seq<Event>)
    requires Run(cfg, history).rx.Ready?
    requires forall e :: e in events ==> Harmless(e, |Run(cfg, history).rx.message|)
    ensures Run(cfg, history + events).rx == Run(cfg, history).rx
  {
    RunContinues(cfg, history, events);
    ReadyMessageIsStable(cfg, Run(cfg, history), events);
  }

  lemma ReadyKept(cfg: Config, s: Transport, e: Event)
    requires Sound(cfg, s) && s.rx.Ready? && Harmless(e, |s.rx.message|)
    ensures Step(cfg, s, e).next.rx == s.rx
    ensures e.Take? ==> Step(cfg, s, e).status == Overflow
  {
  }
}
