/** The OBD-II service as a state machine over values, for any bounded transport. */
module ObdSpec {
  import opened Types
  import opened Diagnostic
  import opened Endian
  import Guard = ReadOnlyGuard

  const MAX_RAW_DATA := 64
  const VIN_LENGTH := 17
  const MAX_STORED_DTCS := 16
  const VIN_PID: Byte := 0x02

  datatype ObdStatus =
    | Idle | InProgress | Busy | ResponseReady | Timeout | InvalidResponse
    | UnexpectedResponse | PolicyDenied | InvalidRequest | TransportFailure

  datatype Dtc = Dtc(first: Byte, second: Byte)

  datatype Phase = Resting | AwaitingTransmit | AwaitingResponse
  datatype Kind = NoRequest | CurrentData | SupportedPids | Vin | StoredDtcs

  type VinText = s: seq<Byte> | |s| == VIN_LENGTH witness NO_VIN
  const NO_VIN: seq<Byte> := [0, 0, 0, 0, 0, 0, 0, 0, 0, 0, 0, 0, 0, 0, 0, 0, 0]

  datatype Obd = Obd(
    phase: Phase, kind: Kind, pid: Byte,
    status: ObdStatus, transport: TransportStatus, deadline: nat,
    rawData: seq<Byte>, bitmap: U32, vin: VinText, dtcs: seq<Dtc>)
  {
    predicate Active() {
      phase != Resting
    }
  }

  const FRESH := Obd(Resting, NoRequest, 0, ObdStatus.Idle, TransportStatus.Idle, 0, [], 0, NO_VIN, [])

  datatype Ask = AskCurrentData(pid: Byte) | AskSupportedPids(basePid: Byte) | AskVin | AskStoredDtcs

  type ResponseBuffer = s: seq<Byte> | |s| == MAX_RAW_DATA witness ZEROS
  const ZEROS := seq<Byte>(MAX_RAW_DATA, _ => 0)

  // What a receive call returned; on Complete the message is the first `length` bytes, which
  // for a bounded transport are no more than the buffer holds.
  datatype Answer = Answer(status: TransportStatus, length: nat, buffer: ResponseBuffer)
  type Reception = a: Answer | a.status == Complete ==> a.length <= MAX_RAW_DATA witness Answer(NoData, 0, ZEROS)

  datatype Result = Result(next: Obd, returned: ObdStatus, discarded: bool)

  // ---- Requests ----

  function KindOf(ask: Ask): Kind {
    match ask
    case AskCurrentData(_) => CurrentData
    case AskSupportedPids(_) => SupportedPids
    case AskVin => Vin
    case AskStoredDtcs => StoredDtcs
  }

  function GuardRequest(ask: Ask): Guard.Request {
    match ask
    case AskCurrentData(pid) => Guard.ObdSinglePid(Guard.CURRENT_DATA, Some([pid]))
    case AskSupportedPids(pid) => Guard.ObdSinglePid(Guard.CURRENT_DATA, Some([pid]))
    case AskVin => Guard.ObdSinglePid(Guard.VEHICLE_INFORMATION, Some([VIN_PID]))
    case AskStoredDtcs => Guard.ObdStoredDtcs
  }

  predicate IsSupportedPidBlockBase(pid: Byte) {
    pid <= 0xC0 && pid % 0x20 == 0
  }

  predicate Refused(timeoutMs: U32, s: Obd, ask: Ask) {
    s.Active() || timeoutMs == 0 || (ask.AskSupportedPids? && !IsSupportedPidBlockBase(ask.basePid))
  }

  function Refuse(s: Obd): Obd {
    if s.Active() then s.(status := ObdStatus.Busy) else Stopped(s, InvalidRequest)
  }

  function Stopped(s: Obd, status: ObdStatus): Obd {
    s.(phase := Resting, kind := NoRequest, status := status)
  }

  function Cleared(s: Obd): Obd {
    s.(rawData := [], bitmap := 0, vin := NO_VIN, dtcs := [])
  }

  function Prepared(s: Obd, ask: Ask): Obd {
    var t := Cleared(s).(kind := KindOf(ask));
    match ask
    case AskCurrentData(pid) => t.(pid := pid)
    case AskSupportedPids(pid) => t.(pid := pid)
    case AskVin => t.(pid := VIN_PID)
    case AskStoredDtcs => t
  }

  function Started(timeoutMs: U32, s: Obd, reply: Guard.ReadOnlyResult, now: nat): Obd {
    var t := s.(transport := reply.transportStatus);
    if reply.status == Guard.PolicyDenied then Stopped(t, PolicyDenied)
    else if reply.status == Guard.InvalidRequest then Stopped(t, InvalidRequest)
    else if reply.transportStatus == Complete then
      Waiting(t, now, timeoutMs).(status := ObdStatus.InProgress)
    else if reply.transportStatus == TransportStatus.InProgress then
      t.(phase := AwaitingTransmit, status := ObdStatus.InProgress)
    else Stopped(t, TransportFailure)
  }

  function Waiting(s: Obd, now: nat, timeoutMs: nat): Obd {
    s.(phase := AwaitingResponse, deadline := now + timeoutMs)
  }

  function Request(timeoutMs: U32, s: Obd, ask: Ask, reply: Guard.ReadOnlyResult, now: nat): Obd {
    if Refused(timeoutMs, s, ask) then Refuse(s) else Started(timeoutMs, Prepared(s, ask), reply, now)
  }

  // The calls a request makes on the transport, with the answer, if the clock was read k times before.
  function RequestCalls(timeoutMs: U32, s: Obd, ask: Ask, reply: Guard.ReadOnlyResult, k: nat): seq<Call> {
    if Refused(timeoutMs, s, ask) then []
    else [Sent(Guard.Decide(GuardRequest(ask)).payload, reply.transportStatus, k)]
  }

  // Its clock readings.
  function RequestReadings(timeoutMs: U32, s: Obd, ask: Ask, reply: Guard.ReadOnlyResult, now: nat): seq<nat> {
    if !Refused(timeoutMs, s, ask) && reply.transportStatus == Complete then [now] else []
  }

  // ---- Polling ----

  function Finish(s: Obd, status: ObdStatus): Result {
    Result(Stopped(s, status), status, s.Active())
  }

  function Continue(s: Obd, status: ObdStatus): Result {
    Result(s.(status := status), status, false)
  }

  function Poll(timeoutMs: U32, s: Obd, polled: TransportStatus, now: nat, got: Reception): Result
  {
    var t := s.(transport := polled);
    match s.phase
    case Resting => Result(s, ObdStatus.Idle, false)
    case AwaitingTransmit =>
      if polled == TransportStatus.InProgress then Continue(t, ObdStatus.InProgress)
      else if polled == Complete then Continue(Waiting(t, now, timeoutMs), ObdStatus.InProgress)
      else Finish(t, TransportFailure)
    case AwaitingResponse =>
      if !NonFailing(polled) then Finish(t, TransportFailure)
      else Await(t, now, got)
  }

  function Await(s: Obd, now: nat, got: Reception): Result {
    if now >= s.deadline then Finish(s, ObdStatus.Timeout) else Examine(s, got)
  }

  function Examine(s: Obd, got: Reception): Result {
    var t := s.(transport := got.status);
    if got.status == NoData then Continue(t, ObdStatus.InProgress)
    else if got.status != Complete then Finish(t, TransportFailure)
    else Handle(t, got.buffer[..got.length])
  }

  // The calls a poll with result r makes on the transport, with the answers, if the clock was
  // read k times before.
  function PollCalls(s: Obd, polled: TransportStatus, now: nat, got: Reception, r: Result, k: nat): seq<Call> {
    if s.Active() then [Polled(polled, k)] + FurtherCalls(s, polled, now, got, r, k) else []
  }

  function FurtherCalls(s: Obd, polled: TransportStatus, now: nat, got: Reception, r: Result, k: nat): seq<Call> {
    if s.phase == AwaitingResponse && NonFailing(polled) then AwaitCalls(s, now, got, r, k + 1) else DiscardCall(r, k)
  }

  function AwaitCalls(s: Obd, now: nat, got: Reception, r: Result, k: nat): seq<Call> {
    (if now < s.deadline then [Received(got.status, got.length, got.buffer, k)] else []) + DiscardCall(r, k)
  }

  function DiscardCall(r: Result, k: nat): seq<Call> {
    if r.discarded then [Discarded(k)] else []
  }

  // Its clock readings.
  function PollReadings(s: Obd, polled: TransportStatus, now: nat): seq<nat> {
    match s.phase
    case Resting => []
    case AwaitingTransmit => if polled == Complete then [now] else []
    case AwaitingResponse => if NonFailing(polled) then [now] else []
  }

  // The poll got as far as asking the transport for a message.
  predicate Receives(s: Obd, polled: TransportStatus, now: nat) {
    s.phase == AwaitingResponse && NonFailing(polled) && now < s.deadline
  }

  function ExpectedService(kind: Kind): Byte {
    match kind
    case Vin => 0x49
    case StoredDtcs => 0x43
    case CurrentData | SupportedPids | NoRequest => 0x41
  }

  function Handle(s: Obd, response: seq<Byte>): Result
    requires |response| <= MAX_RAW_DATA
  {
    if response == [] || response[0] != ExpectedService(s.kind) then Continue(s, UnexpectedResponse)
    else if s.kind != StoredDtcs && (|response| < 2 || response[1] != s.pid) then
      Continue(s, UnexpectedResponse)
    else
      match s.kind
      case CurrentData =>
        if |response| < 3 then Finish(s, InvalidResponse)
        else Finish(s.(rawData := response[2..]), ResponseReady)
      case SupportedPids =>
        if |response| != 6 then Finish(s, InvalidResponse)
        else Finish(s.(bitmap := Bitmap(response[2..])), ResponseReady)
      case Vin =>
        if |response| != 20 || response[2] != 0x01 then Finish(s, InvalidResponse)
        else Finish(s.(vin := response[3..]), ResponseReady)
      case StoredDtcs =>
        if (|response| - 1) % 2 != 0 || |NonZero(Pairs(response[1..]))| > MAX_STORED_DTCS
        then Finish(s, InvalidResponse)
        else Finish(s.(dtcs := NonZero(Pairs(response[1..]))), ResponseReady)
      case NoRequest => Finish(s, InvalidResponse)
  }

  function Bitmap(b: seq<Byte>): U32
    requires |b| == 4
  {
    Widths();
    BigEndian(b)
  }

  function Pairs(bytes: seq<Byte>): (pairs: seq<Dtc>)
    requires |bytes| % 2 == 0
    ensures 2 * |pairs| == |bytes|
    ensures forall i :: 0 <= i < |pairs| ==> pairs[i] == Dtc(bytes[2 * i], bytes[2 * i + 1])
  {
    seq(|bytes| / 2, i requires 0 <= i < |bytes| / 2 => Dtc(bytes[2 * i], bytes[2 * i + 1]))
  }

  // Where the pairs of a DTC response are found in the receive buffer.
  lemma PairInPlace(buffer: seq<Byte>, length: nat, k: nat)
    requires 0 < length <= |buffer| && (length - 1) % 2 == 0 && 2 * k + 2 < length
    ensures |Pairs(buffer[..length][1..])| == (length - 1) / 2
    ensures Pairs(buffer[..length][1..])[k] == Dtc(buffer[1 + 2 * k], buffer[2 + 2 * k])
  {
    var bytes := buffer[..length][1..];
    assert bytes[2 * k] == buffer[1 + 2 * k] && bytes[2 * k + 1] == buffer[2 + 2 * k];
  }

  // The pairs that are not padding, in order.
  function NonZero(pairs: seq<Dtc>): seq<Dtc> {
    if pairs == [] then []
    else
      var last := pairs[|pairs| - 1];
      NonZero(pairs[..|pairs| - 1]) + (if last == Dtc(0, 0) then [] else [last])
  }

  lemma NonZeroStep(pairs: seq<Dtc>, k: nat)
    requires k < |pairs|
    ensures NonZero(pairs[..k + 1]) == NonZero(pairs[..k]) + (if pairs[k] == Dtc(0, 0) then [] else [pairs[k]])
  {
    assert pairs[..k + 1][..k] == pairs[..k];
  }

  // A prefix never has more non-zero pairs than the whole.
  lemma {:induction false} NonZeroGrows(pairs: seq<Dtc>, k: nat)
    requires k <= |pairs|
    ensures |NonZero(pairs[..k])| <= |NonZero(pairs)|
    decreases |pairs|
  {
    if k == |pairs| {
      assert pairs[..k] == pairs;
    } else {
      var n := |pairs| - 1;
      assert pairs[..n][..k] == pairs[..k];
      NonZeroGrows(pairs[..n], k);
    }
  }
}
