/** The read-only policy gate: callers name a request, the guard builds the payload. */
module ReadOnlyGuard {
  import opened Types
  import opened Diagnostic

  const CURRENT_DATA: Byte := 0x01
  const STORED_DTC_READ: Byte := 0x03
  const VEHICLE_INFORMATION: Byte := 0x09
  const UDS_READ_DATA_BY_IDENTIFIER: Byte := 0x22
  const UDS_READ_DTC_INFORMATION: Byte := 0x19

  datatype Request =
    | ObdSinglePid(mode: Byte, pids: Option<seq<Byte>>)
    | ObdStoredDtcs
    | UdsReadDataByIdentifier(did: U16)
    | UdsReportDtcByStatusMask(mask: Byte)

  datatype ReadOnlyStatus = Forwarded | PolicyDenied | InvalidRequest
  datatype ReadOnlyResult = ReadOnlyResult(status: ReadOnlyStatus, transportStatus: TransportStatus)

  datatype Decision = Forward(payload: seq<Byte>) | Deny | Reject

  function Decide(r: Request): Decision {
    match r
    case ObdSinglePid(mode, pids) =>
      if pids.None? || |pids.value| != 1 then Reject
      else if mode != CURRENT_DATA && mode != VEHICLE_INFORMATION then Deny
      else Forward([mode, pids.value[0]])
    case ObdStoredDtcs => Forward([STORED_DTC_READ])
    case UdsReadDataByIdentifier(did) => Forward([UDS_READ_DATA_BY_IDENTIFIER, did / 256, did % 256])
    case UdsReportDtcByStatusMask(mask) => Forward([UDS_READ_DTC_INFORMATION, 0x02, mask])
  }

  /** The complete allowlist of diagnostic payloads. */
  predicate Allowed(payload: seq<Byte>) {
    || (|payload| == 2 && payload[0] in {CURRENT_DATA, VEHICLE_INFORMATION})
    || payload == [STORED_DTC_READ]
    || (|payload| == 3 && payload[0] == UDS_READ_DATA_BY_IDENTIFIER)
    || (|payload| == 3 && payload[0] == UDS_READ_DTC_INFORMATION && payload[1] == 0x02)
  }

  /** The guard forwards a payload for some request exactly when it is on the allowlist. */
  lemma ForwardsExactlyTheAllowlist(payload: seq<Byte>)
    ensures (exists r :: Decide(r) == Forward(payload)) <==> Allowed(payload)
  {
    if Allowed(payload) {
      var r :=
        if |payload| == 2 then ObdSinglePid(payload[0], Some([payload[1]]))
        else if |payload| == 1 then ObdStoredDtcs
        else if payload[0] == UDS_READ_DATA_BY_IDENTIFIER then UdsReadDataByIdentifier(Word(payload[1], payload[2]))
        else UdsReportDtcByStatusMask(payload[2]);
      assert Decide(r) == Forward(payload);
    }
  }

  /** A request is rejected unless it names one PID, and denied unless its mode reads. */
  lemma RefusalsAreExact(r: Request)
    ensures Decide(r).Reject? <==> r.ObdSinglePid? && (r.pids.None? || |r.pids.value| != 1)
    ensures Decide(r).Deny? <==> !Decide(r).Reject? && r.ObdSinglePid? && r.mode !in {0x01, 0x09}
  {
  }

  class ReadOnlyGuard {
    const transport: DiagnosticTransport

    constructor (transport: DiagnosticTransport)
      ensures this.transport == transport
    {
      this.transport := transport;
    }

    // What a request must have done: sent its payload and passed on the answer, or nothing at all.
    twostate predicate Obeyed(r: Request, result: ReadOnlyResult)
      reads transport, transport.clock
    {
      match Decide(r)
      case Forward(payload) =>
        && result.status == Forwarded
        && transport.Recorded(Sent(payload, result.transportStatus, |transport.clock.readings|))
      case Deny => result == ReadOnlyResult(PolicyDenied, Idle) && Untouched()
      case Reject => result == ReadOnlyResult(InvalidRequest, Idle) && Untouched()
    }

    twostate predicate Untouched()
      reads transport, transport.clock
    {
      && transport.calls == old(transport.calls) && transport.clock.readings == old(transport.clock.readings)
      && transport.clock.now == old(transport.clock.now)
    }

    method StartObdSinglePid(mode: Byte, pid: array?<Byte>, pidCount: nat) returns (result: ReadOnlyResult)
      requires pid != null ==> pidCount <= pid.Length
      modifies transport, transport.clock
      ensures Obeyed(ObdSinglePid(mode, if pid == null then None else Some(pid[..pidCount])), result)
    {
      if pid == null || pidCount != 1 {
        return ReadOnlyResult(InvalidRequest, Idle);
      }
      if mode != CURRENT_DATA && mode != VEHICLE_INFORMATION {
        return ReadOnlyResult(PolicyDenied, Idle);
      }
      var status := transport.StartSend([mode, pid[0]]);
      result := ReadOnlyResult(Forwarded, status);
    }

    method StartObdStoredDtcRead() returns (result: ReadOnlyResult)
      modifies transport, transport.clock
      ensures Obeyed(ObdStoredDtcs, result)
    {
      var status := transport.StartSend([STORED_DTC_READ]);
      result := ReadOnlyResult(Forwarded, status);
    }

    method StartUdsReadDataByIdentifier(did: U16) returns (result: ReadOnlyResult)
      modifies transport, transport.clock
      ensures Obeyed(UdsReadDataByIdentifier(did), result)
    {
      var status := transport.StartSend([UDS_READ_DATA_BY_IDENTIFIER, did / 256, did % 256]);
      result := ReadOnlyResult(Forwarded, status);
    }

    method StartUdsReportDtcByStatusMask(mask: Byte) returns (result: ReadOnlyResult)
      modifies transport, transport.clock
      ensures Obeyed(UdsReportDtcByStatusMask(mask), result)
    {
      var status := transport.StartSend([UDS_READ_DTC_INFORMATION, 0x02, mask]);
      result := ReadOnlyResult(Forwarded, status);
    }

    method Poll() returns (status: TransportStatus)
      modifies transport, transport.clock
      ensures transport.Recorded(Polled(status, |transport.clock.readings|))
    {
      status := transport.Poll();
    }

    method Receive(buffer: array<Byte>) returns (status: TransportStatus, length: nat)
      modifies transport, transport.clock, buffer
      ensures transport.bounded && status == Complete ==> length <= buffer.Length
      ensures transport.Recorded(Received(status, length, buffer[..], |transport.clock.readings|))
    {
      status, length := transport.Receive(buffer);
    }

    method DiscardPendingMessage()
      modifies transport, transport.clock
      ensures transport.Recorded(Discarded(|transport.clock.readings|))
    {
      transport.DiscardPendingMessage();
    }
  }
}
