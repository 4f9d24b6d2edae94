/**
 Reference segmentation of a payload: the frames ISO 15765-2 prescribes for it,
 given directly by position, and the proof that they carry exactly the payload.
 */
module IsoTpSegments {
  import opened Types
  import opened Can
  import opened IsoTpSpec

  predicate Sendable(payload: seq<Byte>) {
    1 <= |payload| <= MAX_PAYLOAD
  }

  function SegmentCount(payload: seq<Byte>): (n: nat)
    requires Sendable(payload)
  {
    if |payload| <= 7 then 1 else 1 + |payload| / 7
  }

  // Bytes carried by the first k segments.
  function Carried(payload: seq<Byte>, k: nat): (n: nat)
    requires Sendable(payload)
    ensures n <= |payload|
  {
    if k == 0 then 0
    else if |payload| <= 7 then |payload|
    else Min(|payload|, 6 + 7 * (k - 1))
  }

  function Segment(cfg: Config, payload: seq<Byte>, k: nat): CanFrame
    requires Sendable(payload) && k < SegmentCount(payload)
  {
    if |payload| <= 7 then SingleFrame(cfg, payload)
    else if k == 0 then FirstFrame(cfg, payload)
    else ConsecutiveFrame(cfg, k % 16, payload[Carried(payload, k)..Carried(payload, k + 1)])
  }

  function Segments(cfg: Config, payload: seq<Byte>): (frames: seq<CanFrame>)
    requires Sendable(payload)
    ensures |frames| == SegmentCount(payload)
    ensures forall k :: 0 <= k < |frames| ==> frames[k] == Segment(cfg, payload, k)
  {
    seq(SegmentCount(payload), k requires 0 <= k < SegmentCount(payload) => Segment(cfg, payload, k))
  }

  // The payload bytes inside one data frame, and inside a sequence of them.
  function DataOf(frame: CanFrame): seq<Byte> {
    if frame.Pci() == 0 then frame.payload[1..1 + Min(frame.Low(), 7)]
    else if frame.Pci() == 1 then frame.payload[2..8]
    else if frame.Pci() == 2 && 1 <= frame.length <= 8 then frame.payload[1..frame.length]
    else []
  }

  function Concatenated(frames: seq<CanFrame>): seq<Byte> {
    if frames == [] then []
    else Concatenated(frames[..|frames| - 1]) + DataOf(frames[|frames| - 1])
  }

  lemma SegmentData(cfg: Config, payload: seq<Byte>, k: nat)
    requires Sendable(payload) && k < SegmentCount(payload)
    ensures Segment(cfg, payload, k).Pci() == (if |payload| <= 7 then 0 else if k == 0 then 1 else 2)
    ensures Segment(cfg, payload, k).Valid() <==> ValidId(cfg.txId, cfg.format)
    ensures DataOf(Segment(cfg, payload, k)) == payload[Carried(payload, k)..Carried(payload, k + 1)]
  {
    var frame := Segment(cfg, payload, k);
    if |payload| <= 7 {
      assert frame.payload[..|payload| + 1] == [|payload|] + payload;
    } else if k > 0 {
      var data := payload[Carried(payload, k)..Carried(payload, k + 1)];
      assert frame.payload[..|data| + 1] == [0x20 + k % 16] + data;
    }
  }

  // Each frame carries the next slice of the payload.
  ghost predicate Slices(frames: seq<CanFrame>, payload: seq<Byte>)
    requires Sendable(payload)
  {
    forall k :: 0 <= k < |frames| ==> DataOf(frames[k]) == payload[Carried(payload, k)..Carried(payload, k + 1)]
  }

  lemma {:induction false} SlicesConcatenate(frames: seq<CanFrame>, payload: seq<Byte>, k: nat)
    requires Sendable(payload) && Slices(frames, payload) && k <= |frames|
    ensures Concatenated(frames[..k]) == payload[..Carried(payload, k)]
  {
    if k > 0 {
      SlicesConcatenate(frames, payload, k - 1);
      ConcatenatedStep(frames, k);
      SliceJoin(payload, Carried(payload, k - 1), Carried(payload, k));
    }
  }

  lemma SliceJoin(payload: seq<Byte>, before: nat, after: nat)
    requires before <= after <= |payload|
    ensures payload[..before] + payload[before..after] == payload[..after]
  {
  }

  /** Reassembling the first k segments gives the first Carried(k) bytes of the payload. */
  lemma SegmentsCarryPayload(cfg: Config, payload: seq<Byte>, k: nat)
    requires Sendable(payload) && k <= SegmentCount(payload)
    ensures Concatenated(Segments(cfg, payload)[..k]) == payload[..Carried(payload, k)]
  {
    var frames := Segments(cfg, payload);
    forall i | 0 <= i < |frames|
      ensures DataOf(frames[i]) == payload[Carried(payload, i)..Carried(payload, i + 1)]
    {
      SegmentData(cfg, payload, i);
    }
    SlicesConcatenate(frames, payload, k);
  }

  lemma ConcatenatedStep(frames: seq<CanFrame>, k: nat)
    requires 1 <= k <= |frames|
    ensures Concatenated(frames[..k]) == Concatenated(frames[..k - 1]) + DataOf(frames[k - 1])
  {
    assert frames[..k][..k - 1] == frames[..k - 1];
  }

  /** All segments together carry the whole payload, and the first one announces its length. */
  lemma SegmentsAreComplete(cfg: Config, payload: seq<Byte>)
    requires Sendable(payload)
    ensures Concatenated(Segments(cfg, payload)) == payload
    ensures |payload| <= 7 ==> Segments(cfg, payload)[0].Pci() == 0 && Segments(cfg, payload)[0].Low() == |payload|
    ensures |payload| > 7 ==>
      Segments(cfg, payload)[0].Pci() == 1 && DeclaredLength(Segments(cfg, payload)[0]) == |payload|
  {
    var n := SegmentCount(payload);
    SegmentsCarryPayload(cfg, payload, n);
    assert Segments(cfg, payload)[..n] == Segments(cfg, payload);
    assert Carried(payload, n) == |payload|;
    assert payload[..|payload|] == payload;
  }

  /** Every frame but the last of a segmented payload leaves at least one byte to send. */
  lemma SegmentsMakeProgress(payload: seq<Byte>, k: nat)
    requires Sendable(payload) && |payload| > 7 && 1 <= k
    ensures k < SegmentCount(payload) <==> Carried(payload, k) < |payload|
    ensures k < SegmentCount(payload) ==> Carried(payload, k) == 6 + 7 * (k - 1)
  {
  }

  lemma CarriedGrows(p: seq<Byte>, k: nat)
    requires Sendable(p) && k < SegmentCount(p)
    ensures Carried(p, k) < Carried(p, k + 1) <= Carried(p, k) + 7
  {
  }

  // The transmit side is about to send segment number k of the payload.
  predicate SenderAt(tx: Tx, payload: seq<Byte>, k: nat)
    requires Sendable(payload)
  {
    tx.Open? ==>
      && tx.payload == payload && |payload| > 7 && 1 <= k < SegmentCount(payload)
      && tx.offset == 6 + 7 * (k - 1) && tx.sequence == k % 16
  }

  lemma NextIsSegment(cfg: Config, tx: Tx, payload: seq<Byte>, k: nat)
    requires TxOk(cfg, tx) && tx.Open? && Sendable(payload) && SenderAt(tx, payload, k)
    ensures ConsecutiveFrame(cfg, tx.sequence, NextChunk(tx)) == Segment(cfg, payload, k)
    ensures tx.offset + |NextChunk(tx)| == Carried(payload, k + 1)
  {
  }

  lemma SenderAdvances(cfg: Config, tx: Tx, payload: seq<Byte>, k: nat, at: nat)
    requires TxOk(cfg, tx) && tx.Open? && tx.phase.Sending? && Sendable(payload) && SenderAt(tx, payload, k)
    ensures SenderAt(TxAdvance(cfg, tx, |NextChunk(tx)|, at), payload, k + 1)
    ensures TxAdvance(cfg, tx, |NextChunk(tx)|, at).Silent? <==> k + 1 == SegmentCount(payload)
  {
    NextIsSegment(cfg, tx, payload, k);
    SegmentsMakeProgress(payload, k + 1);
    NumberWraps(tx.sequence, k);
  }

  lemma NumberWraps(sequence: nat, k: nat)
    requires sequence == k % 16
    ensures (sequence + 1) % 16 == (k + 1) % 16
    ensures (k + 1) % 16 != sequence
  {
  }
}
