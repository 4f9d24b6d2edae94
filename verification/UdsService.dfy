/** The UDS service object: its fields are updated in place and follow UdsSpec. */
module UdsService {
  import opened Types
  import opened Time
  import opened Buffers
  import opened Diagnostic
  import opened UdsSpec
  import Guard = ReadOnlyGuard

  class UdsService {
    const guard: Guard.ReadOnlyGuard
    const clock: Clock
    const config: UdsConfig

    var phase: Phase
    var requestKind: Kind
    var status: UdsStatus
    var lastTransportStatus: TransportStatus
    var requestedDid: U16
    var lastNrc: Byte
    var pendingResponseCount: nat
    var responseDeadlineMs: nat
    const response: array<Byte>
    const rawData: array<Byte>
    var rawDataLength: nat
    const dtcRecords: array<DtcRecord>
    var dtcRecordCount: nat
    var dtcStatusAvailabilityMask: Byte

    ghost predicate Valid()
      reads this
    {
      && response.Length == rawData.Length == MAX_RAW_DATA && response != rawData
      && dtcRecords.Length == MAX_DTC_RECORDS
      && rawDataLength <= MAX_RAW_DATA && dtcRecordCount <= MAX_DTC_RECORDS
      && pendingResponseCount <= config.maxPendingResponses
      && guard.transport.clock == clock
    }

    /** The service as a value; of the result arrays only the counted part. */
    ghost function View(): Uds
      requires Valid()
      reads this, rawData, dtcRecords
    {
      Uds(phase, requestKind, requestedDid, status, lastTransportStatus, lastNrc, pendingResponseCount,
          responseDeadlineMs, rawData[..rawDataLength], dtcStatusAvailabilityMask, dtcRecords[..dtcRecordCount])
    }

    constructor (guard: Guard.ReadOnlyGuard, clock: Clock, config: UdsConfig)
      requires guard.transport.clock == clock
      ensures Valid() && View() == FRESH
      ensures this.guard == guard && this.clock == clock && this.config == config
      ensures fresh(response) && fresh(rawData) && fresh(dtcRecords)
    {
      this.guard, this.clock, this.config := guard, clock, config;
      phase, requestKind := Resting, ReadDataByIdentifier;
      status, lastTransportStatus := UdsStatus.Idle, TransportStatus.Idle;
      requestedDid, lastNrc, pendingResponseCount, responseDeadlineMs := 0, 0, 0, 0;
      response := new Byte[MAX_RAW_DATA](_ => 0);
      rawData := new Byte[MAX_RAW_DATA](_ => 0);
      rawDataLength := 0;
      dtcRecords := new DtcRecord[MAX_DTC_RECORDS](_ => DtcRecord(0, 0, 0, 0));
      dtcRecordCount, dtcStatusAvailabilityMask := 0, 0;
    }

    method RequestReadDataByIdentifier(did: U16)
      returns (result: UdsStatus, ghost reply: Guard.ReadOnlyResult, ghost now: nat)
      requires Valid()
      modifies this, dtcRecords, guard.transport, clock
      ensures Valid() && result == status && old(clock.now) <= now <= clock.now
      ensures View() == Request(config, old(View()), ReadDid(did), reply, now) && reply.status == Guard.Forwarded
      ensures Witnessed(RequestCalls(config, old(View()), ReadDid(did), reply, |old(clock.readings)|),
                        RequestReadings(config, old(View()), reply, now))
    {
      reply, now := Guard.ReadOnlyResult(Guard.Forwarded, TransportStatus.Idle), clock.now;
      var prepared := PrepareRequest();
      if !prepared {
        return status, reply, now;
      }
      requestKind := ReadDataByIdentifier;
      requestedDid := did;
      var answer := guard.StartUdsReadDataByIdentifier(did);
      reply := answer;
      result, now := StartGuardedRequest(answer);
    }

    method RequestReportDtcByStatusMask(statusMask: Byte)
      returns (result: UdsStatus, ghost reply: Guard.ReadOnlyResult, ghost now: nat)
      requires Valid()
      modifies this, dtcRecords, guard.transport, clock
      ensures Valid() && result == status && old(clock.now) <= now <= clock.now
      ensures View() == Request(config, old(View()), ReadDtcs(statusMask), reply, now)
      ensures reply.status == Guard.Forwarded
      ensures Witnessed(RequestCalls(config, old(View()), ReadDtcs(statusMask), reply, |old(clock.readings)|),
                        RequestReadings(config, old(View()), reply, now))
    {
      reply, now := Guard.ReadOnlyResult(Guard.Forwarded, TransportStatus.Idle), clock.now;
      var prepared := PrepareRequest();
      if !prepared {
        return status, reply, now;
      }
      requestKind := ReportDtcByStatusMask;
      var answer := guard.StartUdsReportDtcByStatusMask(statusMask);
      reply := answer;
      result, now := StartGuardedRequest(answer);
    }

    // What the environment saw of a call: the calls on the transport with their answers, and the clock readings.
    twostate predicate Witnessed(calls: seq<Call>, readings: seq<nat>)
      reads guard.transport, clock
    {
      && guard.transport.calls == old(guard.transport.calls) + calls
      && clock.readings == old(clock.readings) + readings
    }

    method PollService()
      returns (result: UdsStatus, ghost polled: TransportStatus, ghost now: nat, ghost later: nat, ghost got: Reception)
      requires Valid()
      modifies this, response, rawData, dtcRecords, guard.transport, clock
      ensures Valid() && old(clock.now) <= now <= later <= clock.now
      ensures var r := Poll(config, old(View()), polled, now, later, got);
        && View() == r.next && result == r.returned
        && Witnessed(PollCalls(old(View()), polled, now, got, r, |old(clock.readings)|),
                     PollReadings(old(View()), polled, now, later, r))
    {
      polled, now, later, got := TransportStatus.Idle, clock.now, clock.now, Reception(NoData, 0, response[..]);
      if phase == Resting {
        result := UdsStatus.Idle;
      } else {
        result, polled, now, later, got := PollActive();
      }
    }

    // ---- Private helpers ----

    method PollActive()
      returns (result: UdsStatus, ghost polled: TransportStatus, ghost now: nat, ghost later: nat, ghost got: Reception)
      requires Valid() && phase != Resting
      modifies this, response, rawData, dtcRecords, guard.transport, clock
      ensures Valid() && old(clock.now) <= now <= later <= clock.now
      ensures var r := Poll(config, old(View()), polled, now, later, got);
        && View() == r.next && result == r.returned
        && Witnessed([Polled(polled, |old(clock.readings)|)]
                       + FurtherCalls(old(View()), polled, now, got, r, |old(clock.readings)|),
                     PollReadings(old(View()), polled, now, later, r))
    {
      var pollStatus := guard.Poll();
      polled := pollStatus;
      lastTransportStatus := pollStatus;
      if phase == AwaitingTransmit {
        result, now := PollTransmission(pollStatus);
        later, got := now, Reception(NoData, 0, ZEROS);
      } else {
        result, now, later, got := PollResponse(pollStatus);
      }
      ghost var r := Poll(config, old(View()), polled, now, later, got);
      CallsJoin(old(guard.transport.calls), [Polled(polled, |old(clock.readings)|)],
                FurtherCalls(old(View()), polled, now, got, r, |old(clock.readings)|));
    }

    lemma CallsJoin(a: seq<Call>, b: seq<Call>, c: seq<Call>)
      ensures a + b + c == a + (b + c)
    {
    }

    method PollTransmission(pollStatus: TransportStatus) returns (result: UdsStatus, ghost now: nat)
      requires Valid() && phase == AwaitingTransmit && lastTransportStatus == pollStatus
      modifies this, guard.transport, clock
      ensures Valid() && old(clock.now) <= now <= clock.now
      ensures Handled(Poll(config, old(View()), pollStatus, now, now, Reception(NoData, 0, ZEROS)), result,
                      if pollStatus == Complete then [now] else [])
    {
      now := clock.now;
      if pollStatus == TransportStatus.InProgress {
        result := SetStatus(UdsStatus.InProgress);
      } else if pollStatus == Complete {
        now := BeginResponseWait(config.responseTimeoutMs);
        result := SetStatus(UdsStatus.InProgress);
      } else {
        result := FinishTransportFailure();
      }
    }

    method PollResponse(pollStatus: TransportStatus)
      returns (result: UdsStatus, ghost now: nat, ghost later: nat, ghost got: Reception)
      requires Valid() && phase == AwaitingResponse && lastTransportStatus == pollStatus
      modifies this, response, rawData, dtcRecords, guard.transport, clock
      ensures Valid() && old(clock.now) <= now <= later <= clock.now
      ensures var r := Poll(config, old(View()), pollStatus, now, later, got);
        && View() == r.next && result == r.returned
        && Witnessed(FurtherCalls(old(View()), pollStatus, now, got, r, |old(clock.readings)|),
                     PollReadings(old(View()), pollStatus, now, later, r))
    {
      now, later, got := clock.now, clock.now, Reception(NoData, 0, response[..]);
      if !NonFailing(pollStatus) {
        result := FinishTransportFailure();
        return;
      }
      var reading := clock.NowMs();
      now := reading;
      result, later, got := AwaitResponse(reading);
    }

    method AwaitResponse(now: nat) returns (result: UdsStatus, ghost later: nat, ghost got: Reception)
      requires Valid() && phase == AwaitingResponse
      modifies this, response, rawData, dtcRecords, guard.transport, clock
      ensures Valid() && old(clock.now) <= later <= clock.now
      ensures var r := Await(config, old(View()), now, later, got);
        && View() == r.next && result == r.returned
        && Witnessed(AwaitCalls(old(View()), now, got, r, |old(clock.readings)|), Extension(r, later))
    {
      later, got := clock.now, Reception(NoData, 0, ZEROS);
      if now >= responseDeadlineMs {
        result := FinishWith(UdsStatus.Timeout);
      } else {
        result, later, got := ReceiveAndHandle();
      }
    }

    method ReceiveAndHandle() returns (result: UdsStatus, ghost later: nat, ghost got: Reception)
      requires Valid() && phase == AwaitingResponse
      modifies this, response, rawData, dtcRecords, guard.transport, clock
      ensures Valid() && old(clock.now) <= later <= clock.now
      ensures var r := Examine(config, old(View()), later, got);
        && View() == r.next && result == r.returned
        && Witnessed([Received(got.status, got.length, got.buffer, |old(clock.readings)|)]
                       + DiscardCall(r, |old(clock.readings)|),
                     Extension(r, later))
    {
      var receiveStatus, responseLength := guard.Receive(response);
      got := Reception(receiveStatus, responseLength, response[..]);
      lastTransportStatus := receiveStatus;
      result, later := ExamineReception(receiveStatus, responseLength);
      CallsJoin(old(guard.transport.calls), [Received(got.status, got.length, got.buffer, |old(clock.readings)|)],
                DiscardCall(Examine(config, old(View()), later, got), |old(clock.readings)|));
    }

    method ExamineReception(receiveStatus: TransportStatus, responseLength: nat)
      returns (result: UdsStatus, ghost later: nat)
      requires Valid() && phase == AwaitingResponse && lastTransportStatus == receiveStatus
      modifies this, rawData, dtcRecords, guard.transport, clock
      ensures Valid() && old(clock.now) <= later <= clock.now
      ensures var r := Examine(config, old(View()), later, Reception(receiveStatus, responseLength, old(response[..])));
        Handled(r, result, Extension(r, later))
    {
      later := clock.now;
      if receiveStatus == NoData {
        result := SetStatus(UdsStatus.InProgress);
      } else if receiveStatus != Complete {
        result := FinishTransportFailure();
      } else if responseLength > response.Length {
        result := FinishWith(InvalidResponse);
      } else {
        assert response[..responseLength] == response[..][..responseLength];
        result, later := HandleResponse(responseLength);
      }
    }

    method HandleResponse(responseLength: nat) returns (result: UdsStatus, ghost later: nat)
      requires Valid() && phase == AwaitingResponse && responseLength <= MAX_RAW_DATA
      modifies this, rawData, dtcRecords, guard.transport, clock
      ensures Valid() && old(clock.now) <= later <= clock.now
      ensures var r := Handle(config, old(View()), old(response[..responseLength]), later);
        Handled(r, result, Extension(r, later))
    {
      later := clock.now;
      if responseLength == 0 {
        if requestKind == ReportDtcByStatusMask {
          result := FinishWith(InvalidResponse);
        } else {
          result := SetStatus(UnexpectedResponse);
        }
      } else if response[0] == 0x7F {
        result, later := HandleNegativeResponse(responseLength);
      } else if requestKind == ReportDtcByStatusMask {
        result := HandleDtcResponse(responseLength);
      } else {
        result := HandleDataResponse(responseLength);
      }
    }

    // The fields, the transport and the clock show the given outcome, with these readings.
    twostate predicate Handled(r: Result, result: UdsStatus, readings: seq<nat>)
      requires Valid()
      reads this, rawData, dtcRecords, guard.transport, clock
    {
      && View() == r.next && result == r.returned
      && clock.readings == old(clock.readings) + readings && old(clock.now) <= clock.now
      && guard.transport.calls == old(guard.transport.calls) + DiscardCall(r, |old(clock.readings)|)
    }

    method HandleDataResponse(responseLength: nat) returns (result: UdsStatus)
      requires Valid() && phase == AwaitingResponse && 0 < responseLength <= MAX_RAW_DATA
      modifies this, rawData, guard.transport, clock
      ensures Valid()
      ensures Handled(HandleData(old(View()), old(response[..responseLength])), result, [])
    {
      if response[0] != 0x62 {
        result := SetStatus(UnexpectedResponse);
      } else if responseLength < 3 {
        result := FinishWith(InvalidResponse);
      } else if Word(response[1], response[2]) != requestedDid {
        result := SetStatus(UnexpectedResponse);
      } else if responseLength == 3 {
        result := FinishWith(InvalidResponse);
      } else {
        // At most 61 bytes are left, so they always fit rawData.
        CopyData(responseLength);
        result := FinishWith(ResponseReady);
      }
    }

    method CopyData(responseLength: nat)
      requires response.Length == rawData.Length == MAX_RAW_DATA && response != rawData
      requires 3 <= responseLength <= MAX_RAW_DATA
      modifies this`rawDataLength, rawData
      ensures rawDataLength == responseLength - 3
      ensures rawData[..rawDataLength] == response[..responseLength][3..]
    {
      rawDataLength := responseLength - 3;
      Copy(response[3..responseLength], rawData, 0);
      assert rawData[..][..rawDataLength] == response[3..responseLength];
    }

    method HandleDtcResponse(responseLength: nat) returns (result: UdsStatus)
      requires Valid() && phase == AwaitingResponse && 0 < responseLength <= MAX_RAW_DATA
      modifies this, dtcRecords, guard.transport, clock
      ensures Valid()
      ensures Handled(HandleDtcs(old(View()), old(response[..responseLength])), result, [])
    {
      if response[0] != 0x59 {
        result := SetStatus(UnexpectedResponse);
      } else if responseLength < 2 {
        result := FinishWith(InvalidResponse);
      } else if response[1] != 0x02 {
        result := SetStatus(UnexpectedResponse);
      } else if responseLength < 3 || (responseLength - 3) % 4 != 0 {
        result := FinishWith(InvalidResponse);
      } else {
        result := PublishReport(responseLength);
      }
    }

    method PublishReport(responseLength: nat) returns (result: UdsStatus)
      requires Valid() && 3 <= responseLength <= MAX_RAW_DATA && (responseLength - 3) % 4 == 0
      modifies this, dtcRecords, guard.transport, clock
      ensures Valid()
      ensures var records := Records(old(response[..responseLength])[3..]);
        Handled(Finish(old(View()).(dtcs := records, dtcMask := response[2]), ResponseReady), result, [])
    {
      // At most (64 - 3) / 4 = 15 records, so they always fit dtcRecords.
      CopyRecords(responseLength);
      result := FinishWith(ResponseReady);
    }

    method CopyRecords(responseLength: nat)
      requires response.Length == MAX_RAW_DATA && dtcRecords.Length == MAX_DTC_RECORDS
      requires 3 <= responseLength <= MAX_RAW_DATA && (responseLength - 3) % 4 == 0
      modifies this`dtcRecordCount, this`dtcStatusAvailabilityMask, dtcRecords
      ensures dtcRecordCount == (responseLength - 3) / 4 && dtcStatusAvailabilityMask == response[2]
      ensures dtcRecords[..dtcRecordCount] == Records(response[..responseLength][3..])
    {
      var recordCount := (responseLength - 3) / 4;
      for i := 0 to recordCount
        invariant forall k :: 0 <= k < i ==> dtcRecords[k] == RecordAt(response[..], 3 + 4 * k)
      {
        var offset := 3 + 4 * i;
        dtcRecords[i] := DtcRecord(response[offset], response[offset + 1], response[offset + 2], response[offset + 3]);
      }
      RecordsOfTail(response[..], responseLength, dtcRecords[..recordCount]);
      assert response[..][..responseLength] == response[..responseLength];
      dtcRecordCount := recordCount;
      dtcStatusAvailabilityMask := response[2];
    }

    method HandleNegativeResponse(responseLength: nat) returns (result: UdsStatus, ghost later: nat)
      requires Valid() && phase == AwaitingResponse && 0 < responseLength <= MAX_RAW_DATA
      modifies this, guard.transport, clock
      ensures Valid() && old(clock.now) <= later <= clock.now
      ensures var r := HandleNegative(config, old(View()), old(response[..responseLength]), later);
        Handled(r, result, Extension(r, later))
    {
      later := clock.now;
      if responseLength != 3 {
        result := FinishWith(InvalidResponse);
        return;
      }
      if response[1] != ServiceByte(requestKind) {
        result := SetStatus(UnexpectedResponse);
        return;
      }
      lastNrc := response[2];
      result, later := ConcludeNegativeResponse();
    }

    method ConcludeNegativeResponse() returns (result: UdsStatus, ghost later: nat)
      requires Valid() && phase == AwaitingResponse
      modifies this, guard.transport, clock
      ensures Valid() && old(clock.now) <= later <= clock.now
      ensures var r := ConcludeNegative(config, old(View()), later);
        Handled(r, result, Extension(r, later))
    {
      later := clock.now;
      if lastNrc != 0x78 {
        result := FinishWith(NegativeResponse);
      } else if pendingResponseCount >= config.maxPendingResponses {
        result := FinishWith(PendingLimitExceeded);
      } else {
        pendingResponseCount := pendingResponseCount + 1;
        later := BeginResponseWait(config.responsePendingTimeoutMs);
        result := SetStatus(ResponsePending);
      }
    }

    method PrepareRequest() returns (prepared: bool)
      requires Valid()
      modifies this, dtcRecords
      ensures Valid() && prepared == !Refused(config, old(View()))
      ensures View() == if !prepared then Refuse(old(View())) else Cleared(old(View()))
    {
      if phase != Resting {
        status := UdsStatus.Busy;
        return false;
      }
      if config.responseTimeoutMs == 0 || config.responsePendingTimeoutMs == 0 {
        phase, status := Resting, InvalidRequest;
        return false;
      }
      rawDataLength, dtcRecordCount, dtcStatusAvailabilityMask, lastNrc, pendingResponseCount := 0, 0, 0, 0, 0;
      forall i | 0 <= i < dtcRecords.Length {
        dtcRecords[i] := DtcRecord(0, 0, 0, 0);
      }
      return true;
    }

    method StartGuardedRequest(reply: Guard.ReadOnlyResult) returns (result: UdsStatus, ghost now: nat)
      requires Valid() && phase == Resting
      modifies this, clock
      ensures Valid() && result == status && old(clock.now) <= now <= clock.now
      ensures View() == Started(config, old(View()), reply, now)
      ensures clock.readings == old(clock.readings) +
        (if reply.status == Guard.Forwarded && reply.transportStatus == Complete then [now] else [])
    {
      now := clock.now;
      lastTransportStatus := reply.transportStatus;
      if reply.status == Guard.PolicyDenied {
        phase := Resting;
        result := SetStatus(PolicyDenied);
      } else if reply.status == Guard.InvalidRequest {
        phase := Resting;
        result := SetStatus(InvalidRequest);
      } else if reply.transportStatus == Complete {
        now := BeginResponseWait(config.responseTimeoutMs);
        result := SetStatus(UdsStatus.InProgress);
      } else if reply.transportStatus == TransportStatus.InProgress {
        phase := AwaitingTransmit;
        result := SetStatus(UdsStatus.InProgress);
      } else {
        // No request is active yet, so finishing discards nothing.
        result := SetStatus(TransportFailure);
      }
    }

    method BeginResponseWait(timeoutMs: nat) returns (ghost now: nat)
      modifies this`phase, this`responseDeadlineMs, clock
      ensures phase == AwaitingResponse && responseDeadlineMs == now + timeoutMs
      ensures old(clock.now) <= now == clock.now && clock.readings == old(clock.readings) + [now]
    {
      phase := AwaitingResponse;
      var reading := clock.NowMs();
      now := reading;
      responseDeadlineMs := reading + timeoutMs;
    }

    method FinishTransportFailure() returns (result: UdsStatus)
      requires Valid()
      modifies this`phase, this`status, guard.transport, clock
      ensures Valid() && Handled(Finish(old(View()), TransportFailure), result, [])
    {
      result := FinishWith(TransportFailure);
    }

    method FinishWith(final: UdsStatus) returns (result: UdsStatus)
      requires Valid()
      modifies this`phase, this`status, guard.transport, clock
      ensures Valid() && Handled(Finish(old(View()), final), result, [])
    {
      if phase != Resting {
        guard.DiscardPendingMessage();
      }
      phase := Resting;
      result := SetStatus(final);
    }

    method SetStatus(s: UdsStatus) returns (result: UdsStatus)
      modifies this`status
      ensures status == result == s
    {
      status := s;
      result := s;
    }
  }
}
