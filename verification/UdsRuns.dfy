/** What the UDS service promises over whole transactions, for any transport. */
module UdsRuns {
  import opened Types
  import opened Diagnostic
  import opened UdsSpec
  import Guard = ReadOnlyGuard

  datatype Event =
    | Asked(ask: Ask, reply: Guard.ReadOnlyResult, now: nat)
    | Polled(polled: TransportStatus, now: nat, later: nat, got: Reception)

  function Next(cfg: UdsConfig, s: Uds, e: Event): Uds {
    match e
    case Asked(ask, reply, now) => Request(cfg, s, ask, reply, now)
    case Polled(polled, now, later, got) => Poll(cfg, s, polled, now, later, got).next
  }

  /** Follows one transaction: the calls made while it is active, until it ends. */
  function Serve(cfg: UdsConfig, s: Uds, events: seq<Event>): Uds
    decreases |events|
  {
    if events == [] || !s.Active() then s else Serve(cfg, Next(cfg, s, events[0]), events[1..])
  }

  // ---- Bounded lifetime ----

  function Bound(cfg: UdsConfig, start: nat): nat {
    start + cfg.responseTimeoutMs + cfg.maxPendingResponses * cfg.responsePendingTimeoutMs
  }

  // The poll accepts a response-pending, and so reads the clock a second time.
  predicate Extends(cfg: UdsConfig, s: Uds, e: Event) {
    e.Polled? && Poll(cfg, s, e.polled, e.now, e.later, e.got).returned == ResponsePending
  }

  /** How far, in all, second readings passed the deadlines that were in force. */
  function Overshoot(cfg: UdsConfig, s: Uds, events: seq<Event>): nat
    decreases |events|
  {
    if events == [] || !s.Active() then 0
    else
      Excess(cfg, s, events[0]) + Overshoot(cfg, Next(cfg, s, events[0]), events[1..])
  }

  /** The second reading of the last response-pending the transaction accepted. */
  function LastExtension(cfg: UdsConfig, s: Uds, events: seq<Event>): Option<nat>
    decreases |events|
  {
    if events == [] || !s.Active() then None
    else
      var later := LastExtension(cfg, Next(cfg, s, events[0]), events[1..]);
      if later.Some? then later else if Extends(cfg, s, events[0]) then Some(events[0].later) else None
  }

  // The deadline is as far as the response-pendings so far and their overshoot can have moved it.
  predicate OnTime(cfg: UdsConfig, s: Uds, start: nat, overshoot: nat) {
    s.phase == AwaitingResponse ==>
      && s.pending <= cfg.maxPendingResponses
      && s.deadline <= start + cfg.responseTimeoutMs + s.pending * cfg.responsePendingTimeoutMs + overshoot
  }

  // How far one second reading passes the deadline in force.
  function Excess(cfg: UdsConfig, s: Uds, e: Event): nat {
    if Extends(cfg, s, e) && e.later > s.deadline then e.later - s.deadline else 0
  }

  lemma EventSetsDeadline(cfg: UdsConfig, s: Uds, e: Event)
    requires s.phase == AwaitingResponse
    ensures var s' := Next(cfg, s, e);
      && s'.phase != AwaitingTransmit
      && (Extends(cfg, s, e) ==> s'.Active() && s.pending < cfg.maxPendingResponses && e.now < s.deadline)
      && (s'.Active() ==>
            && s'.pending == s.pending + (if Extends(cfg, s, e) then 1 else 0)
            && s'.deadline == if Extends(cfg, s, e) then e.later + cfg.responsePendingTimeoutMs else s.deadline)
  {
  }

  lemma ExtensionKeepsTime(cfg: UdsConfig, s: Uds, s': Uds, start: nat, overshoot: nat, later: nat)
    requires OnTime(cfg, s, start, overshoot) && s.phase == AwaitingResponse && s.pending < cfg.maxPendingResponses
    requires s'.pending == s.pending + 1 && s'.deadline == later + cfg.responsePendingTimeoutMs
    ensures OnTime(cfg, s', start, overshoot + Max(0, later - s.deadline))
  {
    assert (s.pending + 1) * cfg.responsePendingTimeoutMs
        == s.pending * cfg.responsePendingTimeoutMs + cfg.responsePendingTimeoutMs;
  }

  lemma {:induction false} ServeKeepsTime(cfg: UdsConfig, s: Uds, start: nat, overshoot: nat, events: seq<Event>)
    requires OnTime(cfg, s, start, overshoot) && s.phase == AwaitingResponse
    ensures var s' := Serve(cfg, s, events);
      OnTime(cfg, s', start, overshoot + Overshoot(cfg, s, events)) && s'.phase != AwaitingTransmit
    decreases |events|
  {
    if events != [] {
      var e, s' := events[0], Next(cfg, s, events[0]);
      EventSetsDeadline(cfg, s, e);
      if s'.Active() {
        if Extends(cfg, s, e) {
          ExtensionKeepsTime(cfg, s, s', start, overshoot, e.later);
        }
        ServeKeepsTime(cfg, s', start, overshoot + Excess(cfg, s, e), events[1..]);
      }
    }
  }

  // While the transaction lasts, its deadline was set by the last extension, if any.
  lemma {:induction false} DeadlineIsLastExtension(cfg: UdsConfig, s: Uds, events: seq<Event>)
    requires s.phase == AwaitingResponse
    ensures var s' := Serve(cfg, s, events);
      && s'.phase != AwaitingTransmit
      && (s'.Active() ==>
            s'.deadline == match LastExtension(cfg, s, events)
                           case None => s.deadline
                           case Some(later) => later + cfg.responsePendingTimeoutMs)
    decreases |events|
  {
    if events != [] {
      var s' := Next(cfg, s, events[0]);
      EventSetsDeadline(cfg, s, events[0]);
      if s'.Active() {
        DeadlineIsLastExtension(cfg, s', events[1..]);
      }
    }
  }

  /** A response wait that began when the clock was read as `start`. */
  predicate JustWaiting(cfg: UdsConfig, s: Uds, start: nat) {
    s.phase == AwaitingResponse && s.pending == 0 && s.deadline == start + cfg.responseTimeoutMs
  }

  // Every poll that reads the clock at t or later leaves the service inactive.
  ghost predicate OverBy(cfg: UdsConfig, s: Uds, t: nat) {
    forall last: Event :: last.Polled? && last.now >= t ==> !Next(cfg, s, last).Active()
  }

  /**
   In general: whatever was answered and asked, the transaction is over by any poll that
   reads the clock at the bound plus the overshoot of the second readings, or later.
   */
  lemma TransactionIsBounded(cfg: UdsConfig, s: Uds, start: nat, events: seq<Event>)
    requires JustWaiting(cfg, s, start)
    ensures OverBy(cfg, Serve(cfg, s, events), Bound(cfg, start) + Overshoot(cfg, s, events))
  {
    ServeKeepsTime(cfg, s, start, 0, events);
    PendingFitsBound(cfg, Serve(cfg, s, events).pending);
  }

  /** So the bound itself holds whenever no second reading passes the deadline in force. */
  lemma PunctualTransactionIsBounded(cfg: UdsConfig, s: Uds, start: nat, events: seq<Event>)
    requires JustWaiting(cfg, s, start) && Overshoot(cfg, s, events) == 0
    ensures OverBy(cfg, Serve(cfg, s, events), Bound(cfg, start))
  {
    TransactionIsBounded(cfg, s, start, events);
  }

  /**
   And exactly: the transaction is over by every poll from the bound on if and only if it
   ended before, or its last extension was read early enough.
   */
  lemma BoundHoldsExactly(cfg: UdsConfig, s: Uds, start: nat, events: seq<Event>)
    requires JustWaiting(cfg, s, start)
    ensures OverBy(cfg, Serve(cfg, s, events), Bound(cfg, start))
       <==> !Serve(cfg, s, events).Active()
            || match LastExtension(cfg, s, events)
               case None => true
               case Some(later) => later + cfg.responsePendingTimeoutMs <= Bound(cfg, start)
  {
    var s' := Serve(cfg, s, events);
    DeadlineIsLastExtension(cfg, s, events);
    PendingFitsBound(cfg, 0);
    if s'.Active() && s'.deadline > Bound(cfg, start) {
      var t := Bound(cfg, start);
      var quiet := Event.Polled(TransportStatus.Idle, t, t, Reception(NoData, 0, ZEROS));
      assert Next(cfg, s', quiet).Active();
    }
  }

  // Every wait of every run is one the bounds speak of.

  lemma RequestBeginsWait(cfg: UdsConfig, s: Uds, ask: Ask, now: nat)
    requires !Refused(cfg, s)
    ensures JustWaiting(cfg, Request(cfg, s, ask, Guard.ReadOnlyResult(Guard.Forwarded, Complete), now), now)
  {
  }

  lemma {:induction false} NothingPendingBeforeWait(cfg: UdsConfig, events: seq<Event>)
    ensures Run(cfg, events).phase == AwaitingTransmit ==> Run(cfg, events).pending == 0
  {
    if events != [] {
      NothingPendingBeforeWait(cfg, events[..|events| - 1]);
    }
  }

  /** Whatever call begins a response wait, in whatever history, the wait begins at its reading. */
  lemma EveryWaitJustBegan(cfg: UdsConfig, events: seq<Event>, e: Event)
    requires Run(cfg, events).phase != AwaitingResponse && Next(cfg, Run(cfg, events), e).phase == AwaitingResponse
    ensures JustWaiting(cfg, Next(cfg, Run(cfg, events), e), e.now)
  {
    NothingPendingBeforeWait(cfg, events);
  }

  /** So every wait of every run is bounded from the reading that began it. */
  lemma EveryWaitIsBounded(cfg: UdsConfig, events: seq<Event>, e: Event, more: seq<Event>)
    requires Run(cfg, events).phase != AwaitingResponse && Next(cfg, Run(cfg, events), e).phase == AwaitingResponse
    ensures var s := Next(cfg, Run(cfg, events), e);
      OverBy(cfg, Serve(cfg, s, more), Bound(cfg, e.now) + Overshoot(cfg, s, more))
  {
    EveryWaitJustBegan(cfg, events, e);
    TransactionIsBounded(cfg, Next(cfg, Run(cfg, events), e), e.now, more);
  }

  /**
   The second reading matters: of a request made at 0, a response-pending that is received one
   millisecond before the deadline and read again two milliseconds later outlives the bound.
   */
  lemma LateExtensionOutlivesBound()
    ensures var cfg := UdsConfig(1000, 1000, 1);
      var asked := Asked(ReadDid(0), Guard.ReadOnlyResult(Guard.Forwarded, Complete), 0);
      var message := [0x7F, 0x22, 0x78] + Zeros(61);
      var pending := Event.Polled(TransportStatus.Idle, 999, 1001, Reception(Complete, 3, message));
      && JustWaiting(cfg, Run(cfg, [asked]), 0) && Bound(cfg, 0) == 2000
      && Extends(cfg, Run(cfg, [asked]), pending) && Overshoot(cfg, Run(cfg, [asked]), [pending]) == 1
      && Run(cfg, [asked, pending]).Active() && Run(cfg, [asked, pending]).deadline == 2001
      && !OverBy(cfg, Run(cfg, [asked, pending]), 2000)
  {
    var cfg := UdsConfig(1000, 1000, 1);
    var asked := Asked(ReadDid(0), Guard.ReadOnlyResult(Guard.Forwarded, Complete), 0);
    var message := [0x7F, 0x22, 0x78] + Zeros(61);
    assert message[..3] == [0x7F, 0x22, 0x78];
    var pending := Event.Polled(TransportStatus.Idle, 999, 1001, Reception(Complete, 3, message));
    var s := Run(cfg, [asked]);
    RunOne(cfg, asked);
    RequestBeginsWait(cfg, FRESH, ReadDid(0), 0);
    assert Extends(cfg, s, pending);
    RunTwo(cfg, asked, pending);
    assert Serve(cfg, s, [pending]) == Next(cfg, s, pending) by {
      assert [pending][1..] == [];
    }
    BoundHoldsExactly(cfg, s, 0, [pending]);
  }

  lemma RunOne(cfg: UdsConfig, e: Event)
    ensures Run(cfg, [e]) == Next(cfg, FRESH, e)
  {
    assert [e][..|[e]| - 1] == [];
    assert Run(cfg, []) == FRESH;
  }

  lemma RunTwo(cfg: UdsConfig, d: Event, e: Event)
    ensures Run(cfg, [d, e]) == Next(cfg, Run(cfg, [d]), e)
  {
    assert [d, e][..|[d, e]| - 1] == [d];
  }

  function Zeros(n: nat): (z: seq<Byte>)
    ensures |z| == n
  {
    seq(n, _ => 0)
  }

  lemma PendingFitsBound(cfg: UdsConfig, pending: nat)
    ensures pending <= cfg.maxPendingResponses ==>
      pending * cfg.responsePendingTimeoutMs <= cfg.maxPendingResponses * cfg.responsePendingTimeoutMs
  {
    if pending <= cfg.maxPendingResponses {
      assert (cfg.maxPendingResponses - pending) * cfg.responsePendingTimeoutMs >= 0;
    }
  }

  // How many polls of the transaction answered response-pending.
  function PendingAnswers(cfg: UdsConfig, s: Uds, events: seq<Event>): nat
    decreases |events|
  {
    if events == [] || !s.Active() then 0
    else
      var e := events[0];
      (if Extends(cfg, s, e) then 1 else 0)
      + PendingAnswers(cfg, Next(cfg, s, e), events[1..])
  }

  /** No transaction answers response-pending more often than configured. */
  lemma {:induction false} PendingIsBounded(cfg: UdsConfig, s: Uds, events: seq<Event>)
    requires s.pending <= cfg.maxPendingResponses
    ensures s.pending + PendingAnswers(cfg, s, events) <= cfg.maxPendingResponses
    decreases |events|
  {
    if events != [] && s.Active() {
      PendingIsBounded(cfg, Next(cfg, s, events[0]), events[1..]);
    }
  }

  // ---- A request made while another is active ----

  predicate SameButStatus(s: Uds, t: Uds) {
    s == t.(status := s.status)
  }

  function WithoutAsks(events: seq<Event>): seq<Event> {
    if events == [] then []
    else (if events[0].Asked? then [] else [events[0]]) + WithoutAsks(events[1..])
  }

  // A request made while another is active changes only the status.
  lemma BusyOnlyTouchesStatus(cfg: UdsConfig, s: Uds, ask: Ask, reply: Guard.ReadOnlyResult, now: nat)
    requires s.Active()
    ensures Request(cfg, s, ask, reply, now) == s.(status := UdsStatus.Busy)
  {
  }

  lemma PollForgetsStatus(cfg: UdsConfig, s: Uds, t: Uds, e: Event)
    requires e.Polled? && s.Active() && SameButStatus(s, t)
    ensures Next(cfg, s, e) == Next(cfg, t, e)
    ensures Poll(cfg, s, e.polled, e.now, e.later, e.got).returned
         == Poll(cfg, t, e.polled, e.now, e.later, e.got).returned
  {
  }

  lemma {:induction false} BusyIsTransparent(cfg: UdsConfig, s: Uds, t: Uds, events: seq<Event>)
    requires SameButStatus(s, t)
    ensures SameButStatus(Serve(cfg, s, events), Serve(cfg, t, WithoutAsks(events)))
    decreases |events|
  {
    if events != [] && s.Active() {
      var e, rest := events[0], events[1..];
      if e.Asked? {
        assert WithoutAsks(events) == WithoutAsks(rest);
        BusyIsTransparent(cfg, Next(cfg, s, e), t, rest);
      } else {
        PollForgetsStatus(cfg, s, t, e);
        BusyIsTransparent(cfg, Next(cfg, s, e), Next(cfg, t, e), rest);
        assert WithoutAsks(events)[1..] == WithoutAsks(rest);
      }
    } else if events != [] {
      ServeResting(cfg, t, WithoutAsks(events));
    }
  }

  /** Interleaved requests leave no trace: every poll ends as it would have without them. */
  lemma BusyLeavesNoTrace(cfg: UdsConfig, s: Uds, events: seq<Event>, last: Event)
    requires last.Polled? && Serve(cfg, s, events).Active()
    ensures Next(cfg, Serve(cfg, s, events), last) == Next(cfg, Serve(cfg, s, WithoutAsks(events)), last)
  {
    BusyIsTransparent(cfg, s, s, events);
    PollForgetsStatus(cfg, Serve(cfg, s, events), Serve(cfg, s, WithoutAsks(events)), last);
  }

  lemma ServeResting(cfg: UdsConfig, s: Uds, events: seq<Event>)
    requires !s.Active()
    ensures Serve(cfg, s, events) == s
  {
  }

  // ---- Result integrity ----

  predicate NoResult(s: Uds) {
    s.rawData == [] && s.dtcs == [] && s.dtcMask == 0
  }

  lemma ActiveHasNoResult(cfg: UdsConfig, s: Uds, e: Event)
    requires s.Active() ==> NoResult(s)
    ensures Next(cfg, s, e).Active() ==> NoResult(Next(cfg, s, e))
  {
  }

  /** The state after any calls at all, from a new service. */
  function Run(cfg: UdsConfig, events: seq<Event>): Uds {
    if events == [] then FRESH else Next(cfg, Run(cfg, events[..|events| - 1]), events[|events| - 1])
  }

  /** While a request is active nothing is published. */
  lemma {:induction false} ActiveNeverHasResult(cfg: UdsConfig, events: seq<Event>)
    ensures Run(cfg, events).Active() ==> NoResult(Run(cfg, events))
  {
    if events != [] {
      var n := |events| - 1;
      ActiveNeverHasResult(cfg, events[..n]);
      ActiveHasNoResult(cfg, Run(cfg, events[..n]), events[n]);
    }
  }

  // The positive responses of ISO 14229-1, as the server would build them.
  function DataResponse(did: U16, data: seq<Byte>): seq<Byte> {
    [0x62, did / 256, did % 256] + data
  }

  function DtcResponse(mask: Byte, dtcs: seq<DtcRecord>): seq<Byte> {
    [0x59, 0x02, mask] + Flatten(dtcs)
  }

  function Flatten(dtcs: seq<DtcRecord>): (bytes: seq<Byte>)
    ensures |bytes| == 4 * |dtcs|
    ensures forall i :: 0 <= i < |dtcs| ==> RecordAt(bytes, 4 * i) == dtcs[i]
  {
    if dtcs == [] then []
    else
      var d := dtcs[|dtcs| - 1];
      Flatten(dtcs[..|dtcs| - 1]) + [d.high, d.mid, d.low, d.status]
  }

  lemma RecordsFlatten(bytes: seq<Byte>)
    requires |bytes| % 4 == 0
    ensures Flatten(Records(bytes)) == bytes
  {
    var back := Flatten(Records(bytes));
    forall i | 0 <= i < |bytes| ensures back[i] == bytes[i] {
      var k := i / 4;
      assert RecordAt(back, 4 * k) == Records(bytes)[k] == RecordAt(bytes, 4 * k);
      assert i in {4 * k, 4 * k + 1, 4 * k + 2, 4 * k + 3};
    }
  }

  lemma FlattenRecords(dtcs: seq<DtcRecord>)
    ensures Records(Flatten(dtcs)) == dtcs
  {
  }

  // The message this poll received and examined.
  function Message(got: Reception): seq<Byte>
    requires got.length <= MAX_RAW_DATA
  {
    got.buffer[..got.length]
  }

  predicate Examined(s: Uds, e: Event) {
    e.Polled? && Receives(s, e.polled, e.now) && e.got.status == Complete && e.got.length <= MAX_RAW_DATA
  }

  lemma ReadyData(s: Uds, r: seq<Byte>)
    requires 0 < |r| <= MAX_RAW_DATA && HandleData(s, r).returned == ResponseReady
    ensures var data := HandleData(s, r).next.rawData; r == DataResponse(s.did, data) && data != []
  {
    assert r == [r[0], r[1], r[2]] + r[3..];
  }

  lemma ReadyDtcs(s: Uds, r: seq<Byte>)
    requires 0 < |r| <= MAX_RAW_DATA && HandleDtcs(s, r).returned == ResponseReady
    ensures var s' := HandleDtcs(s, r).next; r == DtcResponse(s'.dtcMask, s'.dtcs) && |s'.dtcs| <= MAX_DTC_RECORDS
  {
    RecordsFlatten(r[3..]);
    assert r == [r[0], r[1], r[2]] + r[3..];
  }

  /** Sound: a published result is exactly the content of the response to the active request. */
  lemma ReadyIsTheResponse(cfg: UdsConfig, s: Uds, e: Event)
    requires s.Active() && NoResult(s) && e.Polled?
    requires Poll(cfg, s, e.polled, e.now, e.later, e.got).returned == ResponseReady
    ensures Examined(s, e)
    ensures var s' := Next(cfg, s, e);
      if s.kind == ReadDataByIdentifier
      then Message(e.got) == DataResponse(s.did, s'.rawData) && s'.rawData != [] && s'.dtcs == []
      else Message(e.got) == DtcResponse(s'.dtcMask, s'.dtcs) && |s'.dtcs| <= MAX_DTC_RECORDS && s'.rawData == []
  {
    var r, t := Message(e.got), s.(transport := e.got.status);
    if s.kind == ReadDataByIdentifier {
      ReadyData(t, r);
    } else {
      ReadyDtcs(t, r);
    }
  }

  /** Complete: a well-formed response with data to the active DID is published as it is. */
  lemma DataResponseIsPublished(cfg: UdsConfig, s: Uds, e: Event, data: seq<Byte>)
    requires s.kind == ReadDataByIdentifier && Examined(s, e)
    requires data != [] && Message(e.got) == DataResponse(s.did, data)
    ensures var s' := Next(cfg, s, e); !s'.Active() && s'.status == ResponseReady && s'.rawData == data
  {
    var r := Message(e.got);
    assert r[..3] == [0x62, s.did / 256, s.did % 256] && r[3..] == data;
  }

  /** Complete: so is a well-formed DTC report. */
  lemma DtcResponseIsPublished(cfg: UdsConfig, s: Uds, e: Event, mask: Byte, dtcs: seq<DtcRecord>)
    requires s.kind == ReportDtcByStatusMask && Examined(s, e)
    requires Message(e.got) == DtcResponse(mask, dtcs)
    ensures var s' := Next(cfg, s, e);
      !s'.Active() && s'.status == ResponseReady && s'.dtcs == dtcs && s'.dtcMask == mask
  {
    ReportIsParsed(s.(transport := e.got.status), Message(e.got), mask, dtcs);
  }

  lemma ReportIsParsed(s: Uds, r: seq<Byte>, mask: Byte, dtcs: seq<DtcRecord>)
    requires |r| <= MAX_RAW_DATA && r == DtcResponse(mask, dtcs)
    ensures HandleDtcs(s, r) == Finish(s.(dtcs := dtcs, dtcMask := mask), ResponseReady)
  {
    assert r[..3] == [0x59, 0x02, mask] && r[3..] == Flatten(dtcs);
    FlattenRecords(dtcs);
  }

  // Read off the poll: it discards the transport's message buffer exactly when it ends the transaction.
  lemma EndingDiscards(cfg: UdsConfig, s: Uds, e: Event)
    requires s.Active() && e.Polled?
    ensures Poll(cfg, s, e.polled, e.now, e.later, e.got).discarded <==> !Next(cfg, s, e).Active()
  {
  }
}
