/**
 A transfer begun into the remains of another one can be mixed up with it: the receiver
 still assembles the first payload, and a late clear-to-send for it releases the data of
 the second.
 */
module IsoTpMixing {
  import opened Types
  import opened Can
  import opened IsoTpSpec
  import opened IsoTpLink

  const SENDER := Config(0x7E0, 0x7E8, Standard, MAX_PAYLOAD, 1000, 1000, 3, 0, 0)
  const RECEIVER := Config(0x7E8, 0x7E0, Standard, MAX_PAYLOAD, 1000, 1000, 3, 0, 0)

  function NewNet(): Net {
    Net(NewNode(SENDER), NewNode(RECEIVER))
  }

  // The first First Frame arrives; its sender gives up just before the clear-to-send would reach it.
  function GivenUp(p1: seq<Byte>): seq<Move> {
    [AtA(Begin(p1, Hal(Ok, 0))), AtB(Deliver(500, Hal(Ok, 500))), AtA(Tick(1000, Hal(Ok, 1000)))]
  }

  // The second First Frame is refused, but the clear-to-send for the first one is obeyed.
  function Resumed(p2: seq<Byte>): seq<Move> {
    [AtA(Begin(p2, Hal(Ok, 1001))), AtB(Deliver(1002, Hal(Ok, 1002))), AtA(Deliver(1003, Hal(Ok, 1003))),
     AtA(Tick(1004, Hal(Ok, 1004))), AtB(Deliver(1005, Hal(Ok, 1005)))]
  }

  // The receiver while it assembles p1.
  function Assembling(p1: seq<Byte>): Node
    requires |p1| == 9
  {
    Node(RECEIVER, Transport(Receiving(9, p1[..6], 1, 0, 1500), Silent), [FlowControl(RECEIVER, 0)], None, [], 0, 1)
  }

  // A transfer of p that waits for its first Flow Control until the deadline.
  function WaitingWith(p: seq<Byte>, deadline: nat): Transport {
    Transport(Empty, Open(p, 6, 1, 0, 0, 0, 0, None, WaitFlowControl(deadline)))
  }

  // The link while the receiver assembles p1 and the sender has given up.
  function Abandoned(p1: seq<Byte>): Net
    requires |p1| == 9
  {
    Net(Node(SENDER, FRESH, [], Some(p1), [], 1, 0), Assembling(p1))
  }

  lemma FirstIsReceived(p1: seq<Byte>)
    requires |p1| == 9
    ensures var moves := GivenUp(p1);
      MoveOnce(MoveOnce(NewNet(), moves[0]), moves[1])
      == Abandoned(p1).(a := Abandoned(p1).a.(t := WaitingWith(p1, 1000)))
  {
    var moves, first := GivenUp(p1), FirstFrame(SENDER, p1);
    SingleData(first);
    SingleData(FlowControl(RECEIVER, 0));
    assert first.payload[2..8] == p1[..6] && DeclaredLength(first) == 9;
    var n1 := MoveOnce(NewNet(), moves[0]);
    assert n1.a.out == [first];
    var n2 := MoveOnce(n1, moves[1]);
    assert n2.b == Abandoned(p1).b;
    assert n2.a.out == [];
  }

  lemma FirstIsAbandoned(p1: seq<Byte>)
    requires |p1| == 9
    ensures Play(NewNet(), GivenUp(p1)) == Abandoned(p1)
  {
    var moves := GivenUp(p1);
    var n1 := MoveOnce(NewNet(), moves[0]);
    var n2 := MoveOnce(n1, moves[1]);
    FirstIsReceived(p1);
    var n3 := MoveOnce(n2, moves[2]);
    assert n3.a == Abandoned(p1).a;
    assert n3.b == Abandoned(p1).b;
    assert moves[0..] == moves;
    PlayFrom(NewNet(), moves, 0);
    PlayFrom(n1, moves, 1);
    PlayFrom(n2, moves, 2);
  }

  // The link when the sender waits with p2, whose First Frame was refused.
  function Waiting(p1: seq<Byte>, p2: seq<Byte>): Net
    requires |p1| == |p2| == 9
  {
    Net(Node(SENDER, WaitingWith(p2, 2001), [], Some(p2), [p1], 1, 0), Assembling(p1))
  }

  lemma SecondIsRefused(p1: seq<Byte>, p2: seq<Byte>)
    requires |p1| == |p2| == 9
    ensures var moves := Resumed(p2); MoveOnce(MoveOnce(Abandoned(p1), moves[0]), moves[1]) == Waiting(p1, p2)
  {
    var moves, first := Resumed(p2), FirstFrame(SENDER, p2);
    SingleData(first);
    var n1 := MoveOnce(Abandoned(p1), moves[0]);
    assert n1.a.out == [first] && n1.a.t == WaitingWith(p2, 2001);
    var n2 := MoveOnce(n1, moves[1]);
    assert n2.a == Waiting(p1, p2).a;
    assert n2.b == Waiting(p1, p2).b;
  }

  // The link when the late clear-to-send was obeyed.
  function Obeyed(p1: seq<Byte>, p2: seq<Byte>): Net
    requires |p1| == |p2| == 9
  {
    var w := Waiting(p1, p2);
    Net(w.a.(t := Transport(Empty, Open(p2, 6, 1, 0, 0, 0, 0, None, Sending(1003)))), w.b.(out := []))
  }

  // The same when the rest of p2 was sent.
  function Released(p1: seq<Byte>, p2: seq<Byte>): Net
    requires |p1| == |p2| == 9
  {
    Net(Node(SENDER, FRESH, [ConsecutiveFrame(SENDER, 1, p2[6..])], Some(p2), [p1], 2, 0),
        Waiting(p1, p2).b.(out := []))
  }

  lemma ClearIsObeyed(p1: seq<Byte>, p2: seq<Byte>)
    requires |p1| == |p2| == 9
    ensures MoveOnce(Waiting(p1, p2), Resumed(p2)[2]) == Obeyed(p1, p2)
  {
    var n := MoveOnce(Waiting(p1, p2), Resumed(p2)[2]);
    assert n.a == Obeyed(p1, p2).a;
    assert n.b == Obeyed(p1, p2).b;
  }

  lemma RestIsSent(p1: seq<Byte>, p2: seq<Byte>)
    requires |p1| == |p2| == 9
    ensures MoveOnce(Obeyed(p1, p2), Resumed(p2)[3]) == Released(p1, p2)
  {
    SingleData(ConsecutiveFrame(SENDER, 1, p2[6..]));
    assert NextChunk(Obeyed(p1, p2).a.t.tx) == p2[6..];
    var n := MoveOnce(Obeyed(p1, p2), Resumed(p2)[3]);
    assert n.a == Released(p1, p2).a;
    assert n.b == Released(p1, p2).b;
  }

  lemma RestIsTaken(p1: seq<Byte>, p2: seq<Byte>)
    requires |p1| == |p2| == 9
    ensures var n := MoveOnce(Released(p1, p2), Resumed(p2)[4]);
      n.b.t.rx == Ready(p1[..6] + p2[6..]) && Payloads(n.a) == [p1, p2]
  {
    var next := ConsecutiveFrame(SENDER, 1, p2[6..]);
    assert next.payload[1..4] == p2[6..] && next.Low() == 1 && next.Pci() == 2;
  }

  // One move after the other.
  lemma PlayFrom(n: Net, moves: seq<Move>, k: nat)
    requires NetSound(n) && k < |moves|
    ensures Play(n, moves[k..]) == Play(MoveOnce(n, moves[k]), moves[k + 1..])
  {
    assert moves[k..][1..] == moves[k + 1..];
  }

  lemma SecondIsMixedIn(p1: seq<Byte>, p2: seq<Byte>)
    requires |p1| == |p2| == 9
    ensures Play(Abandoned(p1), Resumed(p2)).b.t.rx == Ready(p1[..6] + p2[6..])
    ensures Payloads(Play(Abandoned(p1), Resumed(p2)).a) == [p1, p2]
  {
    var moves := Resumed(p2);
    SecondIsRefused(p1, p2);
    ClearIsObeyed(p1, p2);
    RestIsSent(p1, p2);
    RestIsTaken(p1, p2);
    assert moves[0..] == moves;
    PlayFrom(Abandoned(p1), moves, 0);
    PlayFrom(MoveOnce(Abandoned(p1), moves[0]), moves, 1);
    PlayFrom(Waiting(p1, p2), moves, 2);
    PlayFrom(Obeyed(p1, p2), moves, 3);
    PlayFrom(Released(p1, p2), moves, 4);
  }

  lemma {:induction false} PlayJoins(n: Net, before: seq<Move>, after: seq<Move>)
    requires NetSound(n)
    ensures Play(n, before + after) == Play(Play(n, before), after)
    decreases |before|
  {
    if before == [] {
      assert before + after == after;
    } else {
      assert (before + after)[1..] == before[1..] + after;
      PlayJoins(MoveOnce(n, before[0]), before[1..], after);
    }
  }

  /** Of two nine-byte payloads the receiver announces a third: six bytes of the first, three of the second. */
  lemma TransfersCanMix(p1: seq<Byte>, p2: seq<Byte>)
    requires |p1| == |p2| == 9
    ensures var n := Play(NewNet(), GivenUp(p1) + Resumed(p2));
      n.b.t.rx == Ready(p1[..6] + p2[6..]) && Payloads(n.a) == [p1, p2]
  {
    PlayJoins(NewNet(), GivenUp(p1), Resumed(p2));
    FirstIsAbandoned(p1);
    SecondIsMixedIn(p1, p2);
  }
}
