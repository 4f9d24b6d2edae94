/** The logger export record, version 1: its bytes as a function of the sample, and back. */
module ExportSpec {
  import opened Types
  import opened Endian
  import opened VehicleData

  const VERSION: Byte := 1
  const HEADER_SIZE := 23
  const MAGIC: seq<Byte> := [0x56, 0x44, 0x45, 0x52]

  datatype ExportStatus = Ok | BufferTooSmall | InvalidArgument | InvalidSample | MalformedRecord | UnsupportedVersion

  /** The samples the encoder accepts. */
  predicate Exportable(s: Sample) {
    && |s.signalId| <= MAX_SIGNAL_ID && |s.unit| <= MAX_UNIT
    && ValidAvailability(s.availability) && ValidQuality(s.quality) && ValidSource(s.source)
    && match s.value
       case Numeric(bits) => s.availability == AVAILABLE && Finite(bits)
       case Boolean(_) => s.availability == AVAILABLE
       case Text(text) => s.availability == AVAILABLE && |text| <= MAX_TEXT
       case NoValue => s.availability != AVAILABLE && !s.HasValue()
  }

  function Payload(v: Value): seq<Byte> {
    match v
    case NoValue => []
    case Numeric(bits) => ToLittleEndian(bits, 8)
    case Boolean(flag) => [if flag then 1 else 0]
    case Text(text) => text
  }

  function RequiredCapacity(s: Sample): nat {
    HEADER_SIZE + |s.signalId| + |s.unit| + |Payload(s.value)|
  }

  function Header(s: Sample): (h: seq<Byte>)
    requires Exportable(s)
    ensures |h| == HEADER_SIZE
  {
    MAGIC + [VERSION] + ToLittleEndian(RequiredCapacity(s), 2)
    + [s.value.TypeCode(), if s.HasValue() then 1 else 0, s.availability, s.quality, s.source]
    + ToLittleEndian(s.timestampMs, 8)
    + [|s.signalId|, |s.unit|, |Payload(s.value)|]
  }

  function Record(s: Sample): (r: seq<Byte>)
    requires Exportable(s)
    ensures |r| == RequiredCapacity(s)
  {
    Header(s) + s.signalId + s.unit + Payload(s.value)
  }

  // ---- Decoding ----

  datatype Decoded = Decoded(sample: Sample) | Failed(status: ExportStatus)

  function Decode(input: seq<Byte>): Decoded {
    if |input| < HEADER_SIZE || input[..4] != MAGIC || LittleEndian(input[5..7]) != |input| then
      Failed(MalformedRecord)
    else if input[4] != VERSION then Failed(UnsupportedVersion)
    else
      var sample := DecodeFields(input);
      if sample.None? then Failed(MalformedRecord) else Decoded(sample.value)
  }

  function DecodeFields(input: seq<Byte>): Option<Sample>
    requires |input| >= HEADER_SIZE
  {
    if WellLaidOut(input) then Confirmed(CandidateOf(input), input[9], input[8]) else None
  }

  // Known codes, sections that fill the record, and texts without a terminator inside.
  predicate WellLaidOut(input: seq<Byte>)
    requires |input| >= HEADER_SIZE
  {
    var unitAt := HEADER_SIZE + input[20] as int;
    var valueAt := unitAt + input[21] as int;
    && ValidType(input[7]) && input[8] <= 1 && ValidAvailability(input[9])
    && ValidQuality(input[10]) && ValidSource(input[11])
    && input[20] as int <= MAX_SIGNAL_ID && input[21] as int <= MAX_UNIT
    && valueAt + input[22] as int == |input|
    && 0 !in input[HEADER_SIZE..unitAt] && 0 !in input[unitAt..valueAt]
  }

  function CandidateOf(input: seq<Byte>): Option<Sample>
    requires |input| >= HEADER_SIZE && WellLaidOut(input)
  {
    var unitAt := HEADER_SIZE + input[20] as int;
    var valueAt := unitAt + input[21] as int;
    Candidate(input[7], input[9], input[10], input[11], LittleEndian8(input[12..20]),
              input[HEADER_SIZE..unitAt], input[unitAt..valueAt], input[valueAt..])
  }

  // The sample must agree with the availability and the value flag announced for it.
  function Confirmed(candidate: Option<Sample>, availability: Byte, hasValue: Byte): Option<Sample> {
    if candidate.None? || candidate.value.availability != availability
       || candidate.value.HasValue() != (hasValue == 1) then None
    else candidate
  }

  function LittleEndian8(bytes: seq<Byte>): U64
    requires |bytes| == 8
  {
    Widths();
    LittleEndian(bytes)
  }

  // What the factories make of a record's fields; None also for a malformed value.
  function Candidate(typeCode: Byte, availability: Byte, quality: Byte, source: Byte, timestampMs: U64,
                     signal: seq<Byte>, unit: seq<Byte>, value: seq<Byte>): (r: Option<Sample>)
    requires ValidType(typeCode)
  {
    if typeCode == TYPE_NUMERIC then
      if |value| != 8 || !Finite(LittleEndian8(value)) then None
      else TryNumeric(Some(signal), LittleEndian8(value), Some(unit), source, quality, timestampMs)
    else if typeCode == TYPE_BOOLEAN then
      if |value| != 1 || value[0] > 1 then None
      else TryBoolean(Some(signal), value[0] != 0, Some(unit), source, quality, timestampMs)
    else if typeCode == TYPE_TEXT then
      if |value| > MAX_TEXT || 0 in value then None
      else TryText(Some(signal), Some(value), Some(unit), source, quality, timestampMs)
    else if availability == AVAILABLE || |value| != 0 then None
    else TryStatus(Some(signal), availability, Some(unit), source, quality, timestampMs)
  }

  // ---- The codec is a bijection ----

  // The header of input spells the fields of s.
  predicate HeaderSpells(input: seq<Byte>, s: Sample) {
    && |input| == RequiredCapacity(s)
    && input[..4] == MAGIC && input[4] == VERSION && LittleEndian(input[5..7]) == |input|
    && input[7] == s.value.TypeCode() && input[8] == (if s.HasValue() then 1 else 0)
    && input[9] == s.availability && input[10] == s.quality && input[11] == s.source
    && LittleEndian(input[12..20]) == s.timestampMs
    && input[20] == |s.signalId| && input[21] == |s.unit| && input[22] == |Payload(s.value)|
  }

  // The three sections after the header hold the signal identifier, the unit and the value.
  predicate SectionsSpell(input: seq<Byte>, s: Sample) {
    && |input| == RequiredCapacity(s)
    && input[HEADER_SIZE..HEADER_SIZE + |s.signalId|] == s.signalId
    && input[HEADER_SIZE + |s.signalId|..HEADER_SIZE + |s.signalId| + |s.unit|] == s.unit
    && input[HEADER_SIZE + |s.signalId| + |s.unit|..] == Payload(s.value)
  }

  lemma IntegersAreRead(s: Sample)
    requires Exportable(s)
    ensures LittleEndian(ToLittleEndian(RequiredCapacity(s), 2)) == RequiredCapacity(s)
    ensures LittleEndian(ToLittleEndian(s.timestampMs, 8)) == s.timestampMs
  {
    Widths();
    LittleEndianValue(RequiredCapacity(s), 2);
    LittleEndianValue(s.timestampMs, 8);
  }

  lemma HeaderFields(s: Sample)
    requires Exportable(s)
    ensures var h := Header(s);
      && h[..4] == MAGIC && h[4] == VERSION && h[5..7] == ToLittleEndian(RequiredCapacity(s), 2)
      && h[7] == s.value.TypeCode() && h[8] == (if s.HasValue() then 1 else 0)
      && h[9] == s.availability && h[10] == s.quality && h[11] == s.source
      && h[12..20] == ToLittleEndian(s.timestampMs, 8)
      && h[20] == |s.signalId| && h[21] == |s.unit| && h[22] == |Payload(s.value)|
  {
  }

  lemma RecordFields(s: Sample)
    requires Exportable(s)
    ensures HeaderSpells(Record(s), s) && SectionsSpell(Record(s), s)
  {
    var r := Record(s);
    HeaderFields(s);
    IntegersAreRead(s);
    assert r[..HEADER_SIZE] == Header(s);
    assert r[..4] == Header(s)[..4] && r[5..7] == Header(s)[5..7] && r[12..20] == Header(s)[12..20];
  }

  lemma CandidateOfPayload(s: Sample)
    requires Exportable(s) && FactoryBuilt(s)
    ensures Candidate(s.value.TypeCode(), s.availability, s.quality, s.source, s.timestampMs,
                      s.signalId, s.unit, Payload(s.value)) == Some(s)
  {
    if s.value.Numeric? {
      Widths();
      LittleEndianValue(s.value.bits, 8);
    }
  }

  /** Every sample the encoder accepts comes back from its record unchanged. */
  lemma DecodeInvertsRecord(s: Sample)
    requires Exportable(s) && FactoryBuilt(s)
    ensures Decode(Record(s)) == Decoded(s)
  {
    RecordFields(s);
    CandidateOfPayload(s);
  }

  lemma PayloadOfCandidate(typeCode: Byte, availability: Byte, quality: Byte, source: Byte, timestampMs: U64,
                           signal: seq<Byte>, unit: seq<Byte>, value: seq<Byte>)
    requires ValidType(typeCode)
    requires ValidAvailability(availability) && ValidQuality(quality) && ValidSource(source)
    requires Candidate(typeCode, availability, quality, source, timestampMs, signal, unit, value).Some?
    ensures var s := Candidate(typeCode, availability, quality, source, timestampMs, signal, unit, value).value;
      && s.value.TypeCode() == typeCode && Payload(s.value) == value
      && s.signalId == signal && s.unit == unit && s.quality == quality && s.source == source
      && s.timestampMs == timestampMs && FactoryBuilt(s)
      && (s.availability == availability ==> Exportable(s))
  {
    if typeCode == TYPE_NUMERIC {
      LittleEndianBytes(value);
    }
  }

  /** Every accepted record is the record of the sample it decodes to: there is no other. */
  lemma RecordInvertsDecode(input: seq<Byte>)
    requires Decode(input).Decoded?
    ensures var s := Decode(input).sample; FactoryBuilt(s) && Exportable(s) && Record(s) == input
  {
    var s := Decode(input).sample;
    AcceptedFields(input);
    HeaderIsRecovered(input, s);
    SectionsSplit(input, HEADER_SIZE, HEADER_SIZE + |s.signalId|, HEADER_SIZE + |s.signalId| + |s.unit|);
  }

  lemma AcceptedFields(input: seq<Byte>)
    requires Decode(input).Decoded?
    ensures var s := Decode(input).sample;
      FactoryBuilt(s) && Exportable(s) && HeaderSpells(input, s) && SectionsSpell(input, s)
  {
    var a := HEADER_SIZE + input[20] as int;
    var b := a + input[21] as int;
    PayloadOfCandidate(input[7], input[9], input[10], input[11], LittleEndian8(input[12..20]),
                       input[HEADER_SIZE..a], input[a..b], input[b..]);
  }

  lemma HeaderIsRecovered(input: seq<Byte>, s: Sample)
    requires Exportable(s) && HeaderSpells(input, s)
    ensures input[..HEADER_SIZE] == Header(s)
  {
    LittleEndianBytes(input[5..7]);
    LittleEndianBytes(input[12..20]);
    HeaderSplits(input);
  }

  lemma HeaderSplits(input: seq<Byte>)
    requires |input| >= HEADER_SIZE
    ensures input[..HEADER_SIZE] == input[..4] + [input[4]] + input[5..7]
          + [input[7], input[8], input[9], input[10], input[11]] + input[12..20] + [input[20], input[21], input[22]]
  {
  }

  lemma SectionsSplit(input: seq<Byte>, h: nat, a: nat, b: nat)
    requires h <= a <= b <= |input|
    ensures input == input[..h] + input[h..a] + input[a..b] + input[b..]
  {
  }

  /** Of the samples the factories build, those with known codes and finite numbers are accepted, and no others. */
  lemma ExportedExactly(s: Sample)
    requires FactoryBuilt(s)
    ensures Exportable(s)
       <==> s.availability <= 4 && s.quality <= 2 && s.source <= 4 && (s.value.Numeric? ==> Finite(s.value.bits))
  {
  }

  lemma LengthBytes(n: U16)
    ensures ToLittleEndian(n, 2) == [n % 256, n / 256]
  {
    assert ToLittleEndian(n / 256, 1) == [n / 256 % 256] + ToLittleEndian(n / 256 / 256, 0);
  }

  // The type code and the value flag of a sample.
  function TypeAndFlag(s: Sample): seq<Byte> {
    [match s.value case NoValue => 0 case Numeric(_) => 1 case Boolean(_) => 2 case Text(_) => 3,
     if s.value != NoValue && s.availability == 0 && s.quality != 2 then 1 else 0]
  }

  /** A header: "VDER", version 1, the length, type, flag, state, source, time and three lengths. */
  lemma HeaderIsLaidOut(s: Sample)
    requires Exportable(s)
    ensures var n := RequiredCapacity(s);
      Header(s) == ['V' as int, 'D' as int, 'E' as int, 'R' as int, 1, n % 256, n / 256]
                   + TypeAndFlag(s) + [s.availability, s.quality, s.source]
                   + ToLittleEndian(s.timestampMs, 8) + [|s.signalId|, |s.unit|, |Payload(s.value)|]
  {
    LengthBytes(RequiredCapacity(s));
  }

  /** Where every field of a record lies: the header of 23 bytes and three sections. */
  lemma RecordIsLaidOut(s: Sample)
    requires Exportable(s)
    ensures var n := |Record(s)|;
      && n == 23 + |s.signalId| + |s.unit| + |Payload(s.value)|
      && Record(s) == ['V' as int, 'D' as int, 'E' as int, 'R' as int, 1, n % 256, n / 256]
                      + TypeAndFlag(s) + [s.availability, s.quality, s.source]
                      + ToLittleEndian(s.timestampMs, 8) + [|s.signalId|, |s.unit|, |Payload(s.value)|]
                      + s.signalId + s.unit + Payload(s.value)
  {
    HeaderIsLaidOut(s);
  }

  /** Of the inputs that are refused, those that are records but for their version are told apart. */
  lemma RefusalsAreExact(input: seq<Byte>)
    ensures Decode(input) == Failed(UnsupportedVersion)
       <==> |input| >= 23 && input[..4] == ['V' as int, 'D' as int, 'E' as int, 'R' as int]
            && input[5] as int + 256 * input[6] as int == |input| && input[4] != 1
    ensures Decode(input).Failed? ==> Decode(input).status in {UnsupportedVersion, MalformedRecord}
  {
    if |input| >= 23 {
      assert LittleEndian(input[5..7]) == input[5] + 256 * LittleEndian(input[5..7][1..]);
      assert input[5..7][1..] == [input[6]];
      assert LittleEndian([input[6]]) == input[6] + 256 * LittleEndian([]);
    }
  }
}
