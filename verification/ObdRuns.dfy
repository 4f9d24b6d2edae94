/** What the OBD-II service promises over whole transactions. */
module ObdRuns {
  import opened Types
  import opened Diagnostic
  import opened Endian
  import opened ObdSpec
  import Guard = ReadOnlyGuard

  datatype Event =
    | Asked(ask: Ask, reply: Guard.ReadOnlyResult, now: nat)
    | Polled(polled: TransportStatus, now: nat, got: Reception)

  function Next(timeoutMs: U32, s: Obd, e: Event): Obd {
    match e
    case Asked(ask, reply, now) => Request(timeoutMs, s, ask, reply, now)
    case Polled(polled, now, got) => Poll(timeoutMs, s, polled, now, got).next
  }

  /** Follows one transaction: the calls made while it is active, until it ends. */
  function Serve(timeoutMs: U32, s: Obd, events: seq<Event>): Obd
    decreases |events|
  {
    if events == [] || !s.Active() then s else Serve(timeoutMs, Next(timeoutMs, s, events[0]), events[1..])
  }

  /** The deadline of a transaction never moves, and a poll at or after it ends the transaction. */
  lemma {:induction false} TransactionIsBounded(timeoutMs: U32, s: Obd, events: seq<Event>, last: Event)
    requires s.phase == AwaitingResponse && last.Polled? && last.now >= s.deadline
    ensures !Next(timeoutMs, Serve(timeoutMs, s, events), last).Active()
    decreases |events|
  {
    if events != [] {
      var s' := Next(timeoutMs, s, events[0]);
      if s'.Active() {
        DeadlineStays(timeoutMs, s, events[0]);
        TransactionIsBounded(timeoutMs, s', events[1..], last);
      }
    }
  }

  lemma DeadlineStays(timeoutMs: U32, s: Obd, e: Event)
    requires s.phase == AwaitingResponse && Next(timeoutMs, s, e).Active()
    ensures Next(timeoutMs, s, e).phase == AwaitingResponse && Next(timeoutMs, s, e).deadline == s.deadline
  {
  }

  // ---- A request made while another is active ----

  predicate SameButStatus(s: Obd, t: Obd) {
    s == t.(status := s.status)
  }

  function WithoutAsks(events: seq<Event>): seq<Event> {
    if events == [] then []
    else (if events[0].Asked? then [] else [events[0]]) + WithoutAsks(events[1..])
  }

  // A request made while another is active changes only the status.
  lemma BusyOnlyTouchesStatus(timeoutMs: U32, s: Obd, ask: Ask, reply: Guard.ReadOnlyResult, now: nat)
    requires s.Active()
    ensures Request(timeoutMs, s, ask, reply, now) == s.(status := ObdStatus.Busy)
  {
  }

  lemma PollForgetsStatus(timeoutMs: U32, s: Obd, t: Obd, e: Event)
    requires e.Polled? && s.Active() && SameButStatus(s, t)
    ensures Next(timeoutMs, s, e) == Next(timeoutMs, t, e)
  {
  }

  lemma {:induction false} BusyIsTransparent(timeoutMs: U32, s: Obd, t: Obd, events: seq<Event>)
    requires SameButStatus(s, t)
    ensures SameButStatus(Serve(timeoutMs, s, events), Serve(timeoutMs, t, WithoutAsks(events)))
    decreases |events|
  {
    if events != [] && s.Active() {
      var e, rest := events[0], events[1..];
      if e.Asked? {
        assert WithoutAsks(events) == WithoutAsks(rest);
        BusyIsTransparent(timeoutMs, Next(timeoutMs, s, e), t, rest);
      } else {
        PollForgetsStatus(timeoutMs, s, t, e);
        BusyIsTransparent(timeoutMs, Next(timeoutMs, s, e), Next(timeoutMs, t, e), rest);
        assert WithoutAsks(events)[1..] == WithoutAsks(rest);
      }
    }
  }

  /** Interleaved requests leave no trace: every poll ends as it would have without them. */
  lemma BusyLeavesNoTrace(timeoutMs: U32, s: Obd, events: seq<Event>, last: Event)
    requires last.Polled? && Serve(timeoutMs, s, events).Active()
    ensures Next(timeoutMs, Serve(timeoutMs, s, events), last)
         == Next(timeoutMs, Serve(timeoutMs, s, WithoutAsks(events)), last)
  {
    BusyIsTransparent(timeoutMs, s, s, events);
    PollForgetsStatus(timeoutMs, Serve(timeoutMs, s, events), Serve(timeoutMs, s, WithoutAsks(events)), last);
  }

  // ---- Result integrity ----

  predicate NoResult(s: Obd) {
    s.rawData == [] && s.bitmap == 0 && s.vin == NO_VIN && s.dtcs == []
  }

  /** The state after any calls at all, from a new service. */
  function Run(timeoutMs: U32, events: seq<Event>): Obd {
    if events == [] then FRESH
    else Next(timeoutMs, Run(timeoutMs, events[..|events| - 1]), events[|events| - 1])
  }

  /** While a request is active it has a kind and nothing is published. */
  lemma {:induction false} ActiveNeverHasResult(timeoutMs: U32, events: seq<Event>)
    ensures var s := Run(timeoutMs, events); s.Active() ==> NoResult(s) && s.kind != NoRequest
  {
    if events != [] {
      var n := |events| - 1;
      ActiveNeverHasResult(timeoutMs, events[..n]);
      ActiveHasNoResult(timeoutMs, Run(timeoutMs, events[..n]), events[n]);
    }
  }

  lemma ActiveHasNoResult(timeoutMs: U32, s: Obd, e: Event)
    requires s.Active() ==> NoResult(s) && s.kind != NoRequest
    ensures var s' := Next(timeoutMs, s, e); s'.Active() ==> NoResult(s') && s'.kind != NoRequest
  {
  }

  lemma VinAsksForVin(timeoutMs: U32, s: Obd, e: Event)
    requires s.kind == Vin ==> s.pid == VIN_PID
    ensures Next(timeoutMs, s, e).kind == Vin ==> Next(timeoutMs, s, e).pid == VIN_PID
  {
  }

  // The responses a vehicle gives, built from their content.
  function PidResponse(pid: Byte, data: seq<Byte>): seq<Byte> {
    [0x41, pid] + data
  }

  function BitmapResponse(pid: Byte, bitmap: U32): seq<Byte> {
    [0x41, pid] + ToBigEndian(bitmap, 4)
  }

  function VinResponse(vin: VinText): seq<Byte> {
    [0x49, VIN_PID, 0x01] + vin
  }

  function DtcResponse(pairs: seq<Dtc>): seq<Byte> {
    [0x43] + Flatten(pairs)
  }

  function Flatten(pairs: seq<Dtc>): (bytes: seq<Byte>)
    ensures |bytes| == 2 * |pairs|
    ensures forall i :: 0 <= i < |pairs| ==> bytes[2 * i] == pairs[i].first && bytes[2 * i + 1] == pairs[i].second
  {
    if pairs == [] then []
    else
      var last := pairs[|pairs| - 1];
      Flatten(pairs[..|pairs| - 1]) + [last.first, last.second]
  }

  lemma PairsFlatten(bytes: seq<Byte>)
    requires |bytes| % 2 == 0
    ensures Flatten(Pairs(bytes)) == bytes
  {
    var back := Flatten(Pairs(bytes));
    forall i | 0 <= i < |bytes|
      ensures back[i] == bytes[i]
    {
      var k := i / 2;
      assert Pairs(bytes)[k] == Dtc(bytes[2 * k], bytes[2 * k + 1]);
      assert back[2 * k] == Pairs(bytes)[k].first && back[2 * k + 1] == Pairs(bytes)[k].second;
    }
  }

  predicate Examined(s: Obd, e: Event) {
    e.Polled? && Receives(s, e.polled, e.now) && e.got.status == Complete
  }

  function Message(got: Reception): seq<Byte>
    requires got.status == Complete
  {
    got.buffer[..got.length]
  }

  /** A published result is the response in the field of the active kind, and nothing in the others. */
  predicate Publishes(s: Obd, s': Obd, response: seq<Byte>) {
    match s.kind
    case CurrentData =>
      && response == PidResponse(s.pid, s'.rawData) && s'.rawData != []
      && NoResult(s'.(rawData := []))
    case SupportedPids => response == BitmapResponse(s.pid, s'.bitmap) && NoResult(s'.(bitmap := 0))
    case Vin => response == VinResponse(s'.vin) && NoResult(s'.(vin := NO_VIN))
    case StoredDtcs =>
      && |response| % 2 == 1 && response == DtcResponse(Pairs(response[1..]))
      && s'.dtcs == NonZero(Pairs(response[1..])) && |s'.dtcs| <= MAX_STORED_DTCS
      && NoResult(s'.(dtcs := []))
    case NoRequest => false
  }

  lemma HandlePublishes(s: Obd, response: seq<Byte>)
    requires |response| <= MAX_RAW_DATA && Handle(s, response).returned == ResponseReady
    requires NoResult(s) && (s.kind == Vin ==> s.pid == VIN_PID)
    ensures Publishes(s, Handle(s, response).next, response)
  {
    match s.kind
    case CurrentData => assert response == [response[0], response[1]] + response[2..];
    case SupportedPids => BitmapPublishes(s, response);
    case Vin => assert response == [response[0], response[1], response[2]] + response[3..];
    case StoredDtcs => DtcsPublish(s, response);
    case NoRequest =>
  }

  lemma BitmapPublishes(s: Obd, response: seq<Byte>)
    requires s.kind == SupportedPids && |response| <= MAX_RAW_DATA
    requires Handle(s, response).returned == ResponseReady
    ensures response == BitmapResponse(s.pid, Handle(s, response).next.bitmap)
  {
    BigEndianBytes(response[2..]);
    assert response == [response[0], response[1]] + response[2..];
  }

  lemma DtcsPublish(s: Obd, response: seq<Byte>)
    requires s.kind == StoredDtcs && |response| <= MAX_RAW_DATA
    requires Handle(s, response).returned == ResponseReady
    ensures |response| % 2 == 1 && response == DtcResponse(Pairs(response[1..]))
    ensures Handle(s, response).next.dtcs == NonZero(Pairs(response[1..]))
  {
    PairsFlatten(response[1..]);
    assert response == [response[0]] + response[1..];
  }

  /** Sound: a published result is exactly the content of the response to the active request. */
  lemma ReadyIsTheResponse(timeoutMs: U32, s: Obd, e: Event)
    requires s.Active() && e.Polled? && NoResult(s) && (s.kind == Vin ==> s.pid == VIN_PID)
    requires Poll(timeoutMs, s, e.polled, e.now, e.got).returned == ResponseReady
    ensures Examined(s, e) && Publishes(s, Next(timeoutMs, s, e), Message(e.got))
  {
    HandlePublishes(s.(transport := e.got.status), Message(e.got));
  }

  /** Complete: a well-formed response to the active request is published as it is. */
  lemma PidResponseIsPublished(timeoutMs: U32, s: Obd, e: Event, data: seq<Byte>)
    requires Examined(s, e) && s.kind == CurrentData && data != []
    requires Message(e.got) == PidResponse(s.pid, data)
    ensures var s' := Next(timeoutMs, s, e); s'.status == ResponseReady && s'.rawData == data
  {
    assert Message(e.got)[2..] == data;
  }

  lemma BitmapResponseIsPublished(timeoutMs: U32, s: Obd, e: Event, bitmap: U32)
    requires Examined(s, e) && s.kind == SupportedPids
    requires Message(e.got) == BitmapResponse(s.pid, bitmap)
    ensures var s' := Next(timeoutMs, s, e); s'.status == ResponseReady && s'.bitmap == bitmap
  {
    Widths();
    BigEndianValue(bitmap, 4);
    assert Message(e.got)[2..] == ToBigEndian(bitmap, 4);
  }

  lemma VinResponseIsPublished(timeoutMs: U32, s: Obd, e: Event, vin: VinText)
    requires Examined(s, e) && s.kind == Vin && s.pid == VIN_PID
    requires Message(e.got) == VinResponse(vin)
    ensures var s' := Next(timeoutMs, s, e); s'.status == ResponseReady && s'.vin == vin
  {
    assert Message(e.got)[3..] == vin;
  }

  /** Zero pairs are padding; up to sixteen others are kept, one more is refused. */
  lemma DtcResponseIsPublished(timeoutMs: U32, s: Obd, e: Event, pairs: seq<Dtc>)
    requires Examined(s, e) && s.kind == StoredDtcs
    requires Message(e.got) == DtcResponse(pairs)
    ensures var s' := Next(timeoutMs, s, e);
      if |NonZero(pairs)| <= MAX_STORED_DTCS
      then s'.status == ResponseReady && s'.dtcs == NonZero(pairs)
      else s'.status == InvalidResponse && s'.dtcs == s.dtcs
  {
    PairsAreParsed(s.(transport := e.got.status), Message(e.got), pairs);
  }

  lemma PairsAreParsed(s: Obd, r: seq<Byte>, pairs: seq<Dtc>)
    requires |r| <= MAX_RAW_DATA && s.kind == StoredDtcs && r == DtcResponse(pairs)
    ensures Handle(s, r) == if |NonZero(pairs)| <= MAX_STORED_DTCS
                            then Finish(s.(dtcs := NonZero(pairs)), ResponseReady)
                            else Finish(s, InvalidResponse)
  {
    assert r[1..] == Flatten(pairs);
    assert Pairs(r[1..]) == pairs;
  }

  // Read off the poll: it discards the transport's message buffer exactly when it ends the transaction.
  lemma EndingDiscards(timeoutMs: U32, s: Obd, e: Event)
    requires s.Active() && e.Polled?
    ensures Poll(timeoutMs, s, e.polled, e.now, e.got).discarded <==> !Next(timeoutMs, s, e).Active()
  {
  }
}
