/** The OBD-II service object: its fields are updated in place and follow ObdSpec. */
module ObdService {
  import opened Types
  import opened Time
  import opened Buffers
  import opened Diagnostic
  import opened ObdSpec
  import Guard = ReadOnlyGuard

  class ObdService {
    const guard: Guard.ReadOnlyGuard
    const clock: Clock
    const responseTimeoutMs: U32

    var phase: Phase
    var requestKind: Kind
    var requestedPid: Byte
    var status: ObdStatus
    var lastTransportStatus: TransportStatus
    var responseDeadlineMs: nat
    const response: array<Byte>
    const rawData: array<Byte>
    var rawDataLength: nat
    var supportedPidBitmap: U32
    const vin: array<Byte>
    const storedDtcs: array<Dtc>
    var storedDtcCount: nat

    ghost predicate Valid()
      reads this
    {
      && response.Length == rawData.Length == MAX_RAW_DATA && vin.Length == VIN_LENGTH
      && response != rawData && response != vin && rawData != vin
      && storedDtcs.Length == MAX_STORED_DTCS
      && rawDataLength <= MAX_RAW_DATA && storedDtcCount <= MAX_STORED_DTCS
      && guard.transport.bounded && guard.transport.clock == clock
    }

    /** The service as a value; of the result arrays only the counted part. */
    ghost function View(): Obd
      requires Valid()
      reads this, rawData, vin, storedDtcs
    {
      Obd(phase, requestKind, requestedPid, status, lastTransportStatus, responseDeadlineMs,
          rawData[..rawDataLength], supportedPidBitmap, vin[..], storedDtcs[..storedDtcCount])
    }

    constructor (guard: Guard.ReadOnlyGuard, clock: Clock, responseTimeoutMs: U32)
      requires guard.transport.bounded && guard.transport.clock == clock
      ensures Valid() && View() == FRESH
      ensures this.guard == guard && this.clock == clock && this.responseTimeoutMs == responseTimeoutMs
      ensures fresh(response) && fresh(rawData) && fresh(vin) && fresh(storedDtcs)
    {
      this.guard, this.clock, this.responseTimeoutMs := guard, clock, responseTimeoutMs;
      phase, requestKind, requestedPid := Resting, NoRequest, 0;
      status, lastTransportStatus, responseDeadlineMs := ObdStatus.Idle, TransportStatus.Idle, 0;
      response := new Byte[MAX_RAW_DATA](_ => 0);
      rawData := new Byte[MAX_RAW_DATA](_ => 0);
      rawDataLength, supportedPidBitmap := 0, 0;
      vin := new Byte[VIN_LENGTH](_ => 0);
      storedDtcs := new Dtc[MAX_STORED_DTCS](_ => Dtc(0, 0));
      storedDtcCount := 0;
      new;
      assert vin[..] == NO_VIN;
    }

    // What the environment saw of a call: the calls on the transport with their answers, and the clock readings.
    twostate predicate Witnessed(calls: seq<Call>, readings: seq<nat>)
      reads guard.transport, clock
    {
      && guard.transport.calls == old(guard.transport.calls) + calls
      && clock.readings == old(clock.readings) + readings
    }

    // What a request did, given the answer and the reading it got.
    twostate predicate Requested(ask: Ask, reply: Guard.ReadOnlyResult, now: nat)
      requires old(Valid()) && Valid()
      reads this, rawData, vin, storedDtcs, guard.transport, clock
    {
      && View() == Request(responseTimeoutMs, old(View()), ask, reply, now) && reply.status == Guard.Forwarded
      && old(clock.now) <= now <= clock.now
      && Witnessed(RequestCalls(responseTimeoutMs, old(View()), ask, reply, |old(clock.readings)|),
                   RequestReadings(responseTimeoutMs, old(View()), ask, reply, now))
    }

    method RequestCurrentData(pid: Byte) returns (result: ObdStatus, ghost reply: Guard.ReadOnlyResult, ghost now: nat)
      requires Valid()
      modifies this, vin, storedDtcs, guard.transport, clock
      ensures Valid() && result == status && Requested(AskCurrentData(pid), reply, now)
    {
      result, reply, now := BeginRequest(Guard.CURRENT_DATA, pid, CurrentData, AskCurrentData(pid));
    }

    method RequestSupportedPids(basePid: Byte)
      returns (result: ObdStatus, ghost reply: Guard.ReadOnlyResult, ghost now: nat)
      requires Valid()
      modifies this, vin, storedDtcs, guard.transport, clock
      ensures Valid() && result == status && Requested(AskSupportedPids(basePid), reply, now)
    {
      reply, now := Guard.ReadOnlyResult(Guard.Forwarded, TransportStatus.Idle), clock.now;
      if phase != Resting {
        result := SetStatus(ObdStatus.Busy);
        return;
      }
      if !IsSupportedPidBlockBase(basePid) {
        result := FinishWithoutTransport(InvalidRequest);
        return;
      }
      result, reply, now := BeginRequest(Guard.CURRENT_DATA, basePid, SupportedPids, AskSupportedPids(basePid));
    }

    method RequestVin() returns (result: ObdStatus, ghost reply: Guard.ReadOnlyResult, ghost now: nat)
      requires Valid()
      modifies this, vin, storedDtcs, guard.transport, clock
      ensures Valid() && result == status && Requested(AskVin, reply, now)
    {
      result, reply, now := BeginRequest(Guard.VEHICLE_INFORMATION, VIN_PID, Vin, AskVin);
    }

    method RequestStoredDtcs() returns (result: ObdStatus, ghost reply: Guard.ReadOnlyResult, ghost now: nat)
      requires Valid()
      modifies this, vin, storedDtcs, guard.transport, clock
      ensures Valid() && result == status && Requested(AskStoredDtcs, reply, now)
    {
      reply, now := Guard.ReadOnlyResult(Guard.Forwarded, TransportStatus.Idle), clock.now;
      var prepared := PrepareRequest(StoredDtcs);
      if !prepared {
        return status, reply, now;
      }
      var answer := guard.StartObdStoredDtcRead();
      reply := answer;
      result, now := BeginTransport(answer);
    }

    method PollService()
      returns (result: ObdStatus, ghost polled: TransportStatus, ghost now: nat, ghost got: Reception)
      requires Valid()
      modifies this, response, rawData, vin, storedDtcs, guard.transport, clock
      ensures Valid() && old(clock.now) <= now <= clock.now
      ensures var r := Poll(responseTimeoutMs, old(View()), polled, now, got);
        && View() == r.next && result == r.returned
        && Witnessed(PollCalls(old(View()), polled, now, got, r, |old(clock.readings)|),
                     PollReadings(old(View()), polled, now))
    {
      polled, now, got := TransportStatus.Idle, clock.now, Answer(NoData, 0, ZEROS);
      if phase == Resting {
        result := ObdStatus.Idle;
      } else {
        result, polled, now, got := PollActive();
      }
    }

    // ---- Private helpers ----

    // The fields, the transport and the clock show the given outcome, with these readings.
    twostate predicate Handled(r: Result, result: ObdStatus, readings: seq<nat>)
      requires Valid()
      reads this, rawData, vin, storedDtcs, guard.transport, clock
    {
      && View() == r.next && result == r.returned
      && clock.readings == old(clock.readings) + readings && old(clock.now) <= clock.now
      && guard.transport.calls == old(guard.transport.calls) + DiscardCall(r, |old(clock.readings)|)
    }

    method PollActive()
      returns (result: ObdStatus, ghost polled: TransportStatus, ghost now: nat, ghost got: Reception)
      requires Valid() && phase != Resting
      modifies this, response, rawData, vin, storedDtcs, guard.transport, clock
      ensures Valid() && old(clock.now) <= now <= clock.now
      ensures var r := Poll(responseTimeoutMs, old(View()), polled, now, got);
        && View() == r.next && result == r.returned
        && Witnessed([Polled(polled, |old(clock.readings)|)]
                       + FurtherCalls(old(View()), polled, now, got, r, |old(clock.readings)|),
                     PollReadings(old(View()), polled, now))
    {
      var pollStatus := guard.Poll();
      polled := pollStatus;
      lastTransportStatus := pollStatus;
      if phase == AwaitingTransmit {
        result, now := PollTransmission(pollStatus);
        got := Answer(NoData, 0, ZEROS);
      } else {
        result, now, got := PollResponse(pollStatus);
      }
      ghost var r := Poll(responseTimeoutMs, old(View()), polled, now, got);
      CallsJoin(old(guard.transport.calls), [Polled(polled, |old(clock.readings)|)],
                FurtherCalls(old(View()), polled, now, got, r, |old(clock.readings)|));
    }

    lemma CallsJoin(a: seq<Call>, b: seq<Call>, c: seq<Call>)
      ensures a + b + c == a + (b + c)
    {
    }

    method PollTransmission(pollStatus: TransportStatus) returns (result: ObdStatus, ghost now: nat)
      requires Valid() && phase == AwaitingTransmit && lastTransportStatus == pollStatus
      modifies this, guard.transport, clock
      ensures Valid() && old(clock.now) <= now <= clock.now
      ensures Handled(Poll(responseTimeoutMs, old(View()), pollStatus, now, Answer(NoData, 0, ZEROS)), result,
                      if pollStatus == Complete then [now] else [])
    {
      now := clock.now;
      if pollStatus == TransportStatus.InProgress {
        result := SetStatus(ObdStatus.InProgress);
      } else if pollStatus == Complete {
        now := BeginResponseWait();
        result := SetStatus(ObdStatus.InProgress);
      } else {
        result := FinishWith(TransportFailure);
      }
    }

    method PollResponse(pollStatus: TransportStatus) returns (result: ObdStatus, ghost now: nat, ghost got: Reception)
      requires Valid() && phase == AwaitingResponse && lastTransportStatus == pollStatus
      modifies this, response, rawData, vin, storedDtcs, guard.transport, clock
      ensures Valid() && old(clock.now) <= now <= clock.now
      ensures var r := Poll(responseTimeoutMs, old(View()), pollStatus, now, got);
        && View() == r.next && result == r.returned
        && Witnessed(FurtherCalls(old(View()), pollStatus, now, got, r, |old(clock.readings)|),
                     PollReadings(old(View()), pollStatus, now))
    {
      now, got := clock.now, Answer(NoData, 0, ZEROS);
      if !NonFailing(pollStatus) {
        result := FinishWith(TransportFailure);
        return;
      }
      var reading := clock.NowMs();
      now := reading;
      result, got := AwaitResponse(reading);
    }

    method AwaitResponse(now: nat) returns (result: ObdStatus, ghost got: Reception)
      requires Valid() && phase == AwaitingResponse
      modifies this, response, rawData, vin, storedDtcs, guard.transport, clock
      ensures Valid() && old(clock.now) <= clock.now
      ensures var r := Await(old(View()), now, got);
        && View() == r.next && result == r.returned
        && Witnessed(AwaitCalls(old(View()), now, got, r, |old(clock.readings)|), [])
    {
      got := Answer(NoData, 0, ZEROS);
      if now >= responseDeadlineMs {
        result := FinishWith(ObdStatus.Timeout);
      } else {
        result, got := ReceiveAndHandle();
      }
    }

    method BeginRequest(mode: Byte, pid: Byte, kind: Kind, ghost ask: Ask)
      returns (result: ObdStatus, ghost reply: Guard.ReadOnlyResult, ghost now: nat)
      requires Valid() && kind == KindOf(ask) && (ask.AskSupportedPids? ==> IsSupportedPidBlockBase(pid))
      requires GuardRequest(ask) == Guard.ObdSinglePid(mode, Some([pid]))
      requires mode in {Guard.CURRENT_DATA, Guard.VEHICLE_INFORMATION}
      modifies this, vin, storedDtcs, guard.transport, clock
      ensures Valid() && result == status && Requested(ask, reply, now)
    {
      reply, now := Guard.ReadOnlyResult(Guard.Forwarded, TransportStatus.Idle), clock.now;
      var prepared := PrepareRequest(kind);
      if !prepared {
        return status, reply, now;
      }
      requestedPid := pid;
      assert View() == Prepared(old(View()), ask);
      result, reply, now := SendSinglePid(mode, pid);
    }

    method SendSinglePid(mode: Byte, pid: Byte)
      returns (result: ObdStatus, ghost reply: Guard.ReadOnlyResult, ghost now: nat)
      requires Valid() && phase == Resting && mode in {Guard.CURRENT_DATA, Guard.VEHICLE_INFORMATION}
      modifies this, guard.transport, clock
      ensures Valid() && result == status && old(clock.now) <= now <= clock.now
      ensures View() == Started(responseTimeoutMs, old(View()), reply, now) && reply.status == Guard.Forwarded
      ensures Witnessed([Sent([mode, pid], reply.transportStatus, |old(clock.readings)|)],
                        if reply.transportStatus == Complete then [now] else [])
    {
      var pids := new Byte[1](_ => pid);
      assert pids[..1] == [pid];
      var answer := guard.StartObdSinglePid(mode, pids, 1);
      reply := answer;
      result, now := BeginTransport(answer);
    }

    method PrepareRequest(kind: Kind) returns (prepared: bool)
      requires Valid()
      modifies this, vin, storedDtcs
      ensures Valid() && prepared == (!old(phase != Resting) && responseTimeoutMs != 0)
      ensures View() == if !prepared then Refuse(old(View())) else Cleared(old(View())).(kind := kind)
    {
      if phase != Resting {
        status := ObdStatus.Busy;
        return false;
      }
      if responseTimeoutMs == 0 {
        var refused := FinishWithoutTransport(InvalidRequest);
        return false;
      }
      ClearResult();
      requestKind := kind;
      return true;
    }

    method ClearResult()
      requires Valid()
      modifies this`rawDataLength, this`supportedPidBitmap, this`storedDtcCount, vin, storedDtcs
      ensures Valid() && View() == Cleared(old(View()))
    {
      rawDataLength, supportedPidBitmap, storedDtcCount := 0, 0, 0;
      forall i | 0 <= i < vin.Length {
        vin[i] := 0;
      }
      forall i | 0 <= i < storedDtcs.Length {
        storedDtcs[i] := Dtc(0, 0);
      }
      assert vin[..] == NO_VIN;
    }

    method BeginTransport(reply: Guard.ReadOnlyResult) returns (result: ObdStatus, ghost now: nat)
      requires Valid() && phase == Resting
      modifies this, clock
      ensures Valid() && result == status && old(clock.now) <= now <= clock.now
      ensures View() == Started(responseTimeoutMs, old(View()), reply, now)
      ensures clock.readings == old(clock.readings) +
        (if reply.status == Guard.Forwarded && reply.transportStatus == Complete then [now] else [])
    {
      now := clock.now;
      lastTransportStatus := reply.transportStatus;
      if reply.status == Guard.PolicyDenied {
        result := FinishWithoutTransport(PolicyDenied);
      } else if reply.status == Guard.InvalidRequest {
        result := FinishWithoutTransport(InvalidRequest);
      } else if reply.transportStatus == Complete {
        now := BeginResponseWait();
        result := SetStatus(ObdStatus.InProgress);
      } else if reply.transportStatus == TransportStatus.InProgress {
        phase := AwaitingTransmit;
        result := SetStatus(ObdStatus.InProgress);
      } else {
        // No request is active yet, so finishing discards nothing.
        result := FinishWithoutTransport(TransportFailure);
      }
    }

    method ReceiveAndHandle() returns (result: ObdStatus, ghost got: Reception)
      requires Valid() && phase == AwaitingResponse
      modifies this, response, rawData, vin, storedDtcs, guard.transport, clock
      ensures Valid() && old(clock.now) <= clock.now
      ensures var r := Examine(old(View()), got);
        && View() == r.next && result == r.returned
        && Witnessed([Received(got.status, got.length, got.buffer, |old(clock.readings)|)]
                       + DiscardCall(r, |old(clock.readings)|), [])
    {
      var receiveStatus, responseLength := guard.Receive(response);
      got := Answer(receiveStatus, responseLength, response[..]);
      lastTransportStatus := receiveStatus;
      result := ExamineReception(receiveStatus, responseLength);
      CallsJoin(old(guard.transport.calls), [Received(got.status, got.length, got.buffer, |old(clock.readings)|)],
                DiscardCall(Examine(old(View()), got), |old(clock.readings)|));
    }

    method ExamineReception(receiveStatus: TransportStatus, responseLength: nat) returns (result: ObdStatus)
      requires Valid() && phase == AwaitingResponse && lastTransportStatus == receiveStatus
      requires receiveStatus == Complete ==> responseLength <= MAX_RAW_DATA
      modifies this, rawData, vin, storedDtcs, guard.transport, clock
      ensures Valid()
      ensures Handled(Examine(old(View()), Answer(receiveStatus, responseLength, old(response[..]))), result, [])
    {
      if receiveStatus == NoData {
        result := SetStatus(ObdStatus.InProgress);
      } else if receiveStatus != Complete {
        result := FinishWith(TransportFailure);
      } else {
        assert response[..responseLength] == response[..][..responseLength];
        result := HandleResponse(responseLength);
      }
    }

    method HandleResponse(responseLength: nat) returns (result: ObdStatus)
      requires Valid() && phase == AwaitingResponse && responseLength <= MAX_RAW_DATA
      modifies this, rawData, vin, storedDtcs, guard.transport, clock
      ensures Valid()
      ensures Handled(Handle(old(View()), old(response[..responseLength])), result, [])
    {
      if responseLength == 0 || response[0] != ExpectedService(requestKind) {
        result := SetStatus(UnexpectedResponse);
        return;
      }
      if requestKind != StoredDtcs && (responseLength < 2 || response[1] != requestedPid) {
        result := SetStatus(UnexpectedResponse);
        return;
      }
      match requestKind {
        case CurrentData => result := HandleCurrentData(responseLength);
        case SupportedPids => result := HandleSupportedPids(responseLength);
        case Vin => result := HandleVin(responseLength);
        case StoredDtcs => result := HandleStoredDtcs(responseLength);
        case NoRequest => result := FinishWith(InvalidResponse);
      }
    }

    // The response answers the active request; what follows the matched prefix is parsed.
    ghost predicate Matched(responseLength: nat, kind: Kind)
      requires Valid()
      reads this, response
    {
      && phase == AwaitingResponse && requestKind == kind && 0 < responseLength <= MAX_RAW_DATA
      && response[0] == ExpectedService(kind)
      && (kind != StoredDtcs ==> responseLength >= 2 && response[1] == requestedPid)
    }

    method HandleCurrentData(responseLength: nat) returns (result: ObdStatus)
      requires Valid() && Matched(responseLength, CurrentData)
      modifies this, rawData, guard.transport, clock
      ensures Valid() && Handled(Handle(old(View()), old(response[..responseLength])), result, [])
    {
      if responseLength < 3 {
        result := FinishWith(InvalidResponse);
        return;
      }
      // At most 62 bytes are left, so they always fit rawData.
      CopyData(responseLength);
      result := FinishWith(ResponseReady);
    }

    method CopyData(responseLength: nat)
      requires response.Length == rawData.Length == MAX_RAW_DATA && response != rawData
      requires 2 <= responseLength <= MAX_RAW_DATA
      modifies this`rawDataLength, rawData
      ensures rawDataLength == responseLength - 2
      ensures rawData[..rawDataLength] == response[..responseLength][2..]
    {
      rawDataLength := responseLength - 2;
      Copy(response[2..responseLength], rawData, 0);
      assert rawData[..][..rawDataLength] == response[2..responseLength];
    }

    method HandleSupportedPids(responseLength: nat) returns (result: ObdStatus)
      requires Valid() && Matched(responseLength, SupportedPids)
      modifies this, guard.transport, clock
      ensures Valid() && Handled(Handle(old(View()), old(response[..responseLength])), result, [])
    {
      if responseLength != 6 {
        result := FinishWith(InvalidResponse);
        return;
      }
      var bytes := response[2..6];
      assert response[..responseLength][2..] == bytes;
      supportedPidBitmap := Bitmap(bytes);
      result := FinishWith(ResponseReady);
    }

    method HandleVin(responseLength: nat) returns (result: ObdStatus)
      requires Valid() && Matched(responseLength, Vin)
      modifies this, vin, guard.transport, clock
      ensures Valid() && Handled(Handle(old(View()), old(response[..responseLength])), result, [])
    {
      if responseLength != 20 || response[2] != 0x01 {
        result := FinishWith(InvalidResponse);
        return;
      }
      CopyVin();
      assert vin[..] == response[..responseLength][3..];
      result := FinishWith(ResponseReady);
    }

    method CopyVin()
      requires Valid()
      modifies vin
      ensures vin[..] == response[3..20]
    {
      for index := 0 to VIN_LENGTH
        invariant vin[..index] == response[3..3 + index]
      {
        vin[index] := response[index + 3];
      }
    }

    method HandleStoredDtcs(responseLength: nat) returns (result: ObdStatus)
      requires Valid() && Matched(responseLength, StoredDtcs)
      modifies this, storedDtcs, guard.transport, clock
      ensures Valid() && Handled(Handle(old(View()), old(response[..responseLength])), result, [])
    {
      if (responseLength - 1) % 2 != 0 {
        result := FinishWith(InvalidResponse);
        return;
      }
      ghost var pairs := Pairs(response[..responseLength][1..]);
      forall k | 0 <= k < |pairs| ensures pairs[k] == Dtc(response[1 + 2 * k], response[2 + 2 * k]) {
        PairInPlace(response[..], responseLength, k);
        assert response[..][..responseLength] == response[..responseLength];
      }
      var parsed, complete := ParseDtcs(responseLength, pairs);
      if !complete {
        result := FinishWith(InvalidResponse);
        return;
      }
      StoreDtcs(parsed);
      result := FinishWith(ResponseReady);
    }

    method StoreDtcs(parsed: seq<Dtc>)
      requires |parsed| <= storedDtcs.Length
      modifies this`storedDtcCount, storedDtcs
      ensures storedDtcCount == |parsed| && storedDtcs[..storedDtcCount] == parsed
    {
      forall i | 0 <= i < |parsed| {
        storedDtcs[i] := parsed[i];
      }
      storedDtcCount := |parsed|;
    }

    // Collects the non-zero pairs; gives up at the first that does not fit.
    method ParseDtcs(responseLength: nat, ghost pairs: seq<Dtc>) returns (parsed: seq<Dtc>, complete: bool)
      requires response.Length == MAX_RAW_DATA
      requires 0 < responseLength <= MAX_RAW_DATA && responseLength == 1 + 2 * |pairs|
      requires forall k :: 0 <= k < |pairs| ==> pairs[k] == Dtc(response[1 + 2 * k], response[2 + 2 * k])
      ensures complete == (|NonZero(pairs)| <= MAX_STORED_DTCS) && (complete ==> parsed == NonZero(pairs))
    {
      parsed := [];
      ghost var k := 0;
      var offset := 1;
      while offset < responseLength
        invariant k <= |pairs| && offset == 1 + 2 * k
        invariant |parsed| <= MAX_STORED_DTCS && parsed == NonZero(pairs[..k])
      {
        var pair := Dtc(response[offset], response[offset + 1]);
        NonZeroStep(pairs, k);
        k := k + 1;
        if pair != Dtc(0, 0) {
          if |parsed| == MAX_STORED_DTCS {
            NonZeroGrows(pairs, k);
            return parsed, false;
          }
          parsed := parsed + [pair];
        }
        offset := offset + 2;
      }
      assert pairs[..|pairs|] == pairs;
      complete := true;
    }

    method BeginResponseWait() returns (ghost now: nat)
      modifies this`phase, this`responseDeadlineMs, clock
      ensures phase == AwaitingResponse && responseDeadlineMs == now + responseTimeoutMs
      ensures old(clock.now) <= now == clock.now && clock.readings == old(clock.readings) + [now]
    {
      phase := AwaitingResponse;
      var reading := clock.NowMs();
      now := reading;
      responseDeadlineMs := reading + responseTimeoutMs;
    }

    method FinishWithoutTransport(final: ObdStatus) returns (result: ObdStatus)
      requires Valid()
      modifies this`phase, this`requestKind, this`status
      ensures Valid() && View() == Stopped(old(View()), final) && result == status == final
    {
      phase, requestKind := Resting, NoRequest;
      result := SetStatus(final);
    }

    method FinishWith(final: ObdStatus) returns (result: ObdStatus)
      requires Valid()
      modifies this`phase, this`requestKind, this`status, guard.transport, clock
      ensures Valid() && Handled(Finish(old(View()), final), result, [])
    {
      if phase != Resting {
        guard.DiscardPendingMessage();
      }
      phase, requestKind := Resting, NoRequest;
      result := SetStatus(final);
    }

    method SetStatus(s: ObdStatus) returns (result: ObdStatus)
      modifies this`status
      ensures status == result == s
    {
      status := s;
      result := s;
    }
  }
}
