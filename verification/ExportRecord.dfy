/** The logger export codec over caller buffers. A null buffer is a null array. */
module ExportRecord {
  import opened Types
  import opened Endian
  import opened Buffers
  import opened VehicleData
  import opened ExportSpec

  method RequiredCapacity(s: Sample) returns (status: ExportStatus, required: nat)
    ensures status == if Exportable(s) then Ok else InvalidSample
    ensures required == if Exportable(s) then |Record(s)| else 0
  {
    if !Exportable(s) {
      return InvalidSample, 0;
    }
    return Ok, HEADER_SIZE + |s.signalId| + |s.unit| + |Payload(s.value)|;
  }

  /** Writes the whole record or nothing. */
  method Encode(s: Sample, output: array?<Byte>, capacity: nat) returns (status: ExportStatus, required: nat)
    requires output != null ==> capacity <= output.Length
    modifies output
    ensures status ==
      if !Exportable(s) then InvalidSample
      else if capacity < |Record(s)| then BufferTooSmall
      else if output == null then InvalidArgument
      else Ok
    ensures required == if Exportable(s) then |Record(s)| else 0
    ensures status == Ok ==> output[..] == Record(s) + old(output[|Record(s)|..])
    ensures status != Ok && output != null ==> output[..] == old(output[..])
  {
    status, required := RequiredCapacity(s);
    if status != Ok {
      return;
    }
    if capacity < required {
      return BufferTooSmall, required;
    }
    if output == null {
      return InvalidArgument, required;
    }
    ghost var was := output[..];
    WriteHeader(s, required, output);
    var cursor := HEADER_SIZE;
    AppendBytes(s.signalId, output, cursor, Header(s), was);
    cursor := cursor + |s.signalId|;
    AppendBytes(s.unit, output, cursor, Header(s) + s.signalId, was);
    cursor := cursor + |s.unit|;
    WritePayload(s.value, output, cursor, Header(s) + s.signalId + s.unit, was);
    return Ok, required;
  }

  method AppendBytes(bytes: seq<Byte>, output: array<Byte>, at: nat, ghost prefix: seq<Byte>, ghost was: seq<Byte>)
    requires Written(output[..], prefix, was) && at == |prefix| && at + |bytes| <= output.Length
    modifies output
    ensures Written(output[..], prefix + bytes, was)
  {
    ghost var before := output[..];
    Copy(bytes, output, at);
    WriteExtends(before, output[..], prefix, bytes, was);
  }

  method WriteHeader(s: Sample, required: U16, output: array<Byte>)
    requires Exportable(s) && required == |Record(s)| <= output.Length
    modifies output
    ensures Written(output[..], Header(s), old(output[..]))
  {
    ghost var was := output[..];
    ghost var length := ToLittleEndian(required, 2);
    var codes := [s.value.TypeCode(), if s.HasValue() then 1 else 0, s.availability, s.quality, s.source];
    var sizes: seq<Byte> := [|s.signalId|, |s.unit|, |Payload(s.value)|];

    AppendBytes(MAGIC + [VERSION], output, 0, [], was);
    ghost var before := output[..];
    WriteU16(output, 5, required);
    ghost var prefix := MAGIC + [VERSION] + length;
    WriteExtends(before, output[..], MAGIC + [VERSION], length, was);
    AppendBytes(codes, output, 7, prefix, was);
    before := output[..];
    WriteU64(output, 12, s.timestampMs);
    WriteExtends(before, output[..], prefix + codes, ToLittleEndian(s.timestampMs, 8), was);
    AppendBytes(sizes, output, 20, prefix + codes + ToLittleEndian(s.timestampMs, 8), was);
  }

  method WritePayload(value: Value, output: array<Byte>, at: nat, ghost prefix: seq<Byte>, ghost was: seq<Byte>)
    requires Written(output[..], prefix, was) && at == |prefix| && at + |Payload(value)| <= output.Length
    modifies output
    ensures Written(output[..], prefix + Payload(value), was)
  {
    ghost var before := output[..];
    match value {
      case Numeric(bits) => WriteU64(output, at, bits);
      case Boolean(flag) => output[at] := if flag then 1 else 0;
      case Text(text) => Copy(text, output, at);
      case NoValue =>
    }
    WriteExtends(before, output[..], prefix, Payload(value), was);
  }

  method WriteU16(output: array<Byte>, at: nat, value: U16)
    requires at + 2 <= output.Length
    modifies output
    ensures output[..] == old(output[..at]) + ToLittleEndian(value, 2) + old(output[at + 2..])
  {
    output[at] := value % 0x100;
    output[at + 1] := value / 0x100 % 0x100;
  }

  method WriteU64(output: array<Byte>, at: nat, value: U64)
    requires at + 8 <= output.Length
    modifies output
    ensures output[..] == old(output[..at]) + ToLittleEndian(value, 8) + old(output[at + 8..])
  {
    ghost var bytes := ToLittleEndian(value, 8);
    for index := 0 to 8
      invariant output[..] == old(output[..at]) + bytes[..index] + old(output[at + index..])
    {
      LittleEndianAt(value, 8, index);
      output[at + index] := Shifted(value, index) % 0x100;
    }
  }

  // ---- Decoding ----

  /** A failing decode leaves the caller's sample unchanged. */
  method Decode(input: array?<Byte>, length: nat, output: Sample) returns (status: ExportStatus, result: Sample)
    requires input != null ==> length <= input.Length
    ensures input == null ==> status == InvalidArgument && result == output
    ensures input != null ==>
      match ExportSpec.Decode(input[..length])
      case Decoded(sample) => status == Ok && result == sample
      case Failed(why) => status == why && why != Ok && result == output
  {
    if input == null {
      return InvalidArgument, output;
    }
    status, result := DecodeBytes(input[..length], output);
  }

  method DecodeBytes(input: seq<Byte>, output: Sample) returns (status: ExportStatus, result: Sample)
    ensures match ExportSpec.Decode(input)
      case Decoded(sample) => status == Ok && result == sample
      case Failed(why) => status == why && why != Ok && result == output
  {
    if |input| < HEADER_SIZE {
      return MalformedRecord, output;
    }
    var announced := ReadU16(input, 5);
    var magic := HasMagic(input);
    if !magic || announced != |input| {
      return MalformedRecord, output;
    }
    if input[4] != VERSION {
      return UnsupportedVersion, output;
    }
    var sample := DecodeFields(input);
    if sample.None? {
      return MalformedRecord, output;
    }
    return Ok, sample.value;
  }

  method HasMagic(input: seq<Byte>) returns (ok: bool)
    requires |input| >= 4
    ensures ok <==> input[..4] == MAGIC
  {
    ok := input[0] == 0x56 && input[1] == 0x44 && input[2] == 0x45 && input[3] == 0x52;
  }

  method DecodeFields(input: seq<Byte>) returns (sample: Option<Sample>)
    requires |input| >= HEADER_SIZE
    ensures sample == ExportSpec.DecodeFields(input)
  {
    var ok := CheckLayout(input);
    if !ok {
      return None;
    }
    var timestamp := ReadU64(input, 12);
    var candidate := Construct(input, timestamp);
    return Confirmed(candidate, input[9], input[8]);
  }

  method CheckLayout(input: seq<Byte>) returns (ok: bool)
    requires |input| >= HEADER_SIZE
    ensures ok <==> WellLaidOut(input)
  {
    var unitAt := HEADER_SIZE + input[20] as int;
    var valueAt := unitAt + input[21] as int;
    if !ValidType(input[7]) || input[8] > 1 || !ValidAvailability(input[9])
       || !ValidQuality(input[10]) || !ValidSource(input[11])
       || input[20] as int > MAX_SIGNAL_ID || input[21] as int > MAX_UNIT
       || valueAt + input[22] as int != |input| {
      return false;
    }
    var bad := ContainsNull(input[HEADER_SIZE..unitAt]);
    if !bad {
      bad := ContainsNull(input[unitAt..valueAt]);
    }
    ok := !bad;
  }

  // Validates the value section and hands the fields to the factory its type names.
  method Construct(input: seq<Byte>, timestamp: U64) returns (candidate: Option<Sample>)
    requires |input| >= HEADER_SIZE && WellLaidOut(input) && timestamp == LittleEndian8(input[12..20])
    ensures candidate == CandidateOf(input)
  {
    var unitAt := HEADER_SIZE + input[20] as int;
    var valueAt := unitAt + input[21] as int;
    var signal, unit := Some(input[HEADER_SIZE..unitAt]), Some(input[unitAt..valueAt]);
    var value := input[valueAt..];
    if input[7] == TYPE_NUMERIC {
      if |value| != 8 {
        return None;
      }
      var bits := ReadU64(value, 0);
      assert value[0..8] == value;
      return if Finite(bits) then TryNumeric(signal, bits, unit, input[11], input[10], timestamp) else None;
    } else if input[7] == TYPE_BOOLEAN {
      if |value| != 1 || value[0] > 1 {
        return None;
      }
      return TryBoolean(signal, value[0] != 0, unit, input[11], input[10], timestamp);
    } else if input[7] == TYPE_TEXT {
      if |value| > MAX_TEXT {
        return None;
      }
      var bad := ContainsNull(value);
      return if bad then None else TryText(signal, Some(value), unit, input[11], input[10], timestamp);
    }
    if input[9] == AVAILABLE || |value| != 0 {
      return None;
    }
    return TryStatus(signal, input[9], unit, input[11], input[10], timestamp);
  }

  method ContainsNull(bytes: seq<Byte>) returns (found: bool)
    ensures found <==> 0 in bytes
  {
    for index := 0 to |bytes|
      invariant 0 !in bytes[..index]
    {
      if bytes[index] == 0 {
        return true;
      }
    }
    assert bytes[..|bytes|] == bytes;
    return false;
  }

  method ReadU16(input: seq<Byte>, at: nat) returns (value: U16)
    requires at + 2 <= |input|
    ensures value == LittleEndian(input[at..at + 2])
  {
    assert input[at..at + 2] == [input[at], input[at + 1]];
    assert input[at..at + 2][1..] == [input[at + 1]];
    return input[at] as int + input[at + 1] as int * 0x100;
  }

  method ReadU64(input: seq<Byte>, at: nat) returns (value: U64)
    requires at + 8 <= |input|
    ensures value == LittleEndian(input[at..at + 8])
  {
    Widths();
    var result: nat := 0;
    for index := 0 to 8
      invariant result == LittleEndian(input[at..at + index])
    {
      LittleEndianSnoc(input[at..at + index], input[at + index]);
      assert input[at..at + index] + [input[at + index]] == input[at..at + index + 1];
      result := result + input[at + index] as int * Pow256(index);
    }
    return result;
  }
}
