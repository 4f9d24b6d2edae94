/**
 The UDS service as a state machine over values, for any transport: every call is
 given what the transport answered. Services 0x22 and 0x19 of ISO 14229-1:2013.
 */
module UdsSpec {
  import opened Types
  import opened Diagnostic
  import Guard = ReadOnlyGuard

  const MAX_RAW_DATA := 64
  const MAX_DTC_RECORDS := 15

  datatype UdsStatus =
    | Idle | InProgress | Busy | ResponseReady | ResponsePending | NegativeResponse
    | PendingLimitExceeded | Timeout | InvalidResponse | UnexpectedResponse
    | PolicyDenied | InvalidRequest | TransportFailure

  datatype UdsConfig = UdsConfig(responseTimeoutMs: U32, responsePendingTimeoutMs: U32, maxPendingResponses: Byte)

  datatype DtcRecord = DtcRecord(high: Byte, mid: Byte, low: Byte, status: Byte)

  datatype Phase = Resting | AwaitingTransmit | AwaitingResponse
  datatype Kind = ReadDataByIdentifier | ReportDtcByStatusMask

  datatype Uds = Uds(
    phase: Phase, kind: Kind, did: U16,
    status: UdsStatus, transport: TransportStatus,
    nrc: Byte, pending: nat, deadline: nat,
    rawData: seq<Byte>, dtcMask: Byte, dtcs: seq<DtcRecord>)
  {
    predicate Active() {
      phase != Resting
    }
  }

  const FRESH :=
    Uds(Resting, ReadDataByIdentifier, 0, UdsStatus.Idle, TransportStatus.Idle, 0, 0, 0, [], 0, [])

  datatype Ask = ReadDid(did: U16) | ReadDtcs(mask: Byte)

  type ResponseBuffer = s: seq<Byte> | |s| == MAX_RAW_DATA witness ZEROS
  const ZEROS := seq<Byte>(MAX_RAW_DATA, _ => 0)

  // What a receive call returned; on Complete the message is the first `length` bytes.
  datatype Reception = Reception(status: TransportStatus, length: nat, buffer: ResponseBuffer)

  datatype Result = Result(next: Uds, returned: UdsStatus, discarded: bool)

  // ---- Requests ----

  function GuardRequest(ask: Ask): Guard.Request {
    match ask
    case ReadDid(did) => Guard.UdsReadDataByIdentifier(did)
    case ReadDtcs(mask) => Guard.UdsReportDtcByStatusMask(mask)
  }

  // A request is refused without touching the transport.
  predicate Refused(cfg: UdsConfig, s: Uds) {
    s.Active() || cfg.responseTimeoutMs == 0 || cfg.responsePendingTimeoutMs == 0
  }

  function Refuse(s: Uds): Uds {
    if s.Active() then s.(status := UdsStatus.Busy) else s.(phase := Resting, status := InvalidRequest)
  }

  function Cleared(s: Uds): Uds {
    s.(rawData := [], dtcs := [], dtcMask := 0, nrc := 0, pending := 0)
  }

  function Prepared(s: Uds, ask: Ask): Uds {
    var cleared := Cleared(s);
    match ask
    case ReadDid(did) => cleared.(kind := ReadDataByIdentifier, did := did)
    case ReadDtcs(_) => cleared.(kind := ReportDtcByStatusMask)
  }

  function Started(cfg: UdsConfig, s: Uds, reply: Guard.ReadOnlyResult, now: nat): Uds {
    var t := s.(transport := reply.transportStatus);
    if reply.status == Guard.PolicyDenied then t.(phase := Resting, status := PolicyDenied)
    else if reply.status == Guard.InvalidRequest then t.(phase := Resting, status := InvalidRequest)
    else if reply.transportStatus == Complete then
      Waiting(t, now, cfg.responseTimeoutMs).(status := UdsStatus.InProgress)
    else if reply.transportStatus == TransportStatus.InProgress then
      t.(phase := AwaitingTransmit, status := UdsStatus.InProgress)
    else t.(phase := Resting, status := TransportFailure)
  }

  function Waiting(s: Uds, now: nat, timeoutMs: nat): Uds {
    s.(phase := AwaitingResponse, deadline := now + timeoutMs)
  }

  function Request(cfg: UdsConfig, s: Uds, ask: Ask, reply: Guard.ReadOnlyResult, now: nat): Uds {
    if Refused(cfg, s) then Refuse(s) else Started(cfg, Prepared(s, ask), reply, now)
  }

  // The calls a request makes on the transport, with the answer, if the clock was read k times before.
  function RequestCalls(cfg: UdsConfig, s: Uds, ask: Ask, reply: Guard.ReadOnlyResult, k: nat): seq<Call> {
    if Refused(cfg, s) then [] else [Sent(Guard.Decide(GuardRequest(ask)).payload, reply.transportStatus, k)]
  }

  // Its clock readings.
  function RequestReadings(cfg: UdsConfig, s: Uds, reply: Guard.ReadOnlyResult, now: nat): seq<nat> {
    if !Refused(cfg, s) && reply.transportStatus == Complete then [now] else []
  }

  // ---- Polling ----

  function Finish(s: Uds, status: UdsStatus): Result {
    Result(s.(phase := Resting, status := status), status, s.Active())
  }

  function Continue(s: Uds, status: UdsStatus): Result {
    Result(s.(status := status), status, false)
  }

  /**
   One poll: `now` is the reading compared with the deadline, `later` the second one, which
   is made only to extend the deadline.
   */
  function Poll(cfg: UdsConfig, s: Uds, polled: TransportStatus, now: nat, later: nat, got: Reception): Result
  {
    var t := s.(transport := polled);
    match s.phase
    case Resting => Result(s, UdsStatus.Idle, false)
    case AwaitingTransmit =>
      if polled == TransportStatus.InProgress then Continue(t, UdsStatus.InProgress)
      else if polled == Complete then Continue(Waiting(t, now, cfg.responseTimeoutMs), UdsStatus.InProgress)
      else Finish(t, TransportFailure)
    case AwaitingResponse =>
      if !NonFailing(polled) then Finish(t, TransportFailure)
      else Await(cfg, t, now, later, got)
  }

  function Await(cfg: UdsConfig, s: Uds, now: nat, later: nat, got: Reception): Result {
    if now >= s.deadline then Finish(s, UdsStatus.Timeout) else Examine(cfg, s, later, got)
  }

  // The poll got as far as asking the transport for a message.
  predicate Receives(s: Uds, polled: TransportStatus, now: nat) {
    s.phase == AwaitingResponse && NonFailing(polled) && now < s.deadline
  }

  function Examine(cfg: UdsConfig, s: Uds, later: nat, got: Reception): Result {
    var t := s.(transport := got.status);
    if got.status == NoData then Continue(t, UdsStatus.InProgress)
    else if got.status != Complete then Finish(t, TransportFailure)
    else if got.length > MAX_RAW_DATA then Finish(t, InvalidResponse)
    else Handle(cfg, t, got.buffer[..got.length], later)
  }

  // The calls a poll with result r makes on the transport, with the answers, if the clock was
  // read k times before.
  function PollCalls(s: Uds, polled: TransportStatus, now: nat, got: Reception, r: Result, k: nat): seq<Call> {
    if s.Active() then [Polled(polled, k)] + FurtherCalls(s, polled, now, got, r, k) else []
  }

  function FurtherCalls(s: Uds, polled: TransportStatus, now: nat, got: Reception, r: Result, k: nat): seq<Call> {
    if s.phase == AwaitingResponse && NonFailing(polled) then AwaitCalls(s, now, got, r, k + 1) else DiscardCall(r, k)
  }

  function AwaitCalls(s: Uds, now: nat, got: Reception, r: Result, k: nat): seq<Call> {
    (if now < s.deadline then [Received(got.status, got.length, got.buffer, k)] else []) + DiscardCall(r, k)
  }

  function DiscardCall(r: Result, k: nat): seq<Call> {
    if r.discarded then [Discarded(k)] else []
  }

  // Its clock readings.
  function PollReadings(s: Uds, polled: TransportStatus, now: nat, later: nat, r: Result): seq<nat> {
    match s.phase
    case Resting => []
    case AwaitingTransmit => if polled == Complete then [now] else []
    case AwaitingResponse =>
      if !NonFailing(polled) then [] else [now] + Extension(r, later)
  }

  function Extension(r: Result, later: nat): seq<nat> {
    if r.returned == ResponsePending then [later] else []
  }

  function Handle(cfg: UdsConfig, s: Uds, response: seq<Byte>, later: nat): Result
    requires |response| <= MAX_RAW_DATA
  {
    if response == [] then
      if s.kind == ReportDtcByStatusMask then Finish(s, InvalidResponse) else Continue(s, UnexpectedResponse)
    else if response[0] == 0x7F then HandleNegative(cfg, s, response, later)
    else if s.kind == ReportDtcByStatusMask then HandleDtcs(s, response)
    else HandleData(s, response)
  }

  function HandleData(s: Uds, response: seq<Byte>): Result
    requires 0 < |response| <= MAX_RAW_DATA
  {
    if response[0] != 0x62 then Continue(s, UnexpectedResponse)
    else if |response| < 3 then Finish(s, InvalidResponse)
    else if Word(response[1], response[2]) != s.did then Continue(s, UnexpectedResponse)
    else if |response| == 3 then Finish(s, InvalidResponse)
    else Finish(s.(rawData := response[3..]), ResponseReady)
  }

  function HandleDtcs(s: Uds, response: seq<Byte>): Result
    requires 0 < |response| <= MAX_RAW_DATA
  {
    if response[0] != 0x59 then Continue(s, UnexpectedResponse)
    else if |response| < 2 then Finish(s, InvalidResponse)
    else if response[1] != 0x02 then Continue(s, UnexpectedResponse)
    else if |response| < 3 || (|response| - 3) % 4 != 0 then Finish(s, InvalidResponse)
    else Finish(s.(dtcs := Records(response[3..]), dtcMask := response[2]), ResponseReady)
  }

  function Records(bytes: seq<Byte>): (records: seq<DtcRecord>)
    requires |bytes| % 4 == 0
    ensures 4 * |records| == |bytes|
    ensures forall i :: 0 <= i < |records| ==> records[i] == RecordAt(bytes, 4 * i)
  {
    seq(|bytes| / 4, i requires 0 <= i < |bytes| / 4 => RecordAt(bytes, 4 * i))
  }

  function RecordAt(bytes: seq<Byte>, i: nat): DtcRecord
    requires i + 4 <= |bytes|
  {
    DtcRecord(bytes[i], bytes[i + 1], bytes[i + 2], bytes[i + 3])
  }

  // Records read at their places in a whole response are the records of its tail.
  lemma RecordsOfTail(response: seq<Byte>, length: nat, records: seq<DtcRecord>)
    requires 3 <= length <= |response| && length - 3 == 4 * |records|
    requires forall k :: 0 <= k < |records| ==> records[k] == RecordAt(response, 3 + 4 * k)
    ensures records == Records(response[..length][3..])
  {
    var tail := response[3..length];
    assert response[..length][3..] == tail;
    forall k | 0 <= k < |records| ensures records[k] == Records(tail)[k] {
      assert Records(tail)[k] == RecordAt(tail, 4 * k) == RecordAt(response, 3 + 4 * k);
    }
  }

  function HandleNegative(cfg: UdsConfig, s: Uds, response: seq<Byte>, later: nat): Result
    requires 0 < |response| <= MAX_RAW_DATA
  {
    if |response| != 3 then Finish(s, InvalidResponse)
    else if response[1] != ServiceByte(s.kind) then Continue(s, UnexpectedResponse)
    else ConcludeNegative(cfg, s.(nrc := response[2]), later)
  }

  // A negative response to the active request; only response-pending keeps it going.
  function ConcludeNegative(cfg: UdsConfig, s: Uds, later: nat): Result {
    if s.nrc != 0x78 then Finish(s, NegativeResponse)
    else if s.pending >= cfg.maxPendingResponses then Finish(s, PendingLimitExceeded)
    else Continue(Waiting(s.(pending := s.pending + 1), later, cfg.responsePendingTimeoutMs), ResponsePending)
  }

  function ServiceByte(kind: Kind): Byte {
    if kind == ReadDataByIdentifier then Guard.UDS_READ_DATA_BY_IDENTIFIER else Guard.UDS_READ_DTC_INFORMATION
  }
}
