/** The BLE payload, protocol version 1: records, their bytes, and the decoder as a parser. */
module BleSpec {
  import opened Types
  import opened Endian
  import opened Utf8
  import opened VehicleData
  import opened ReadModel
  import opened Parsing

  const VERSION: Byte := 1
  const SNAPSHOT: Byte := 1
  const CAPABILITY: Byte := 2
  const SAMPLE: Byte := 3

  // ---- What a record says ----

  // An absent value is NoValue; the type code is sent even then.
  datatype Record =
    | SnapshotRecord(selection: Byte, activeIdentity: Option<U32>, hasRegistry: bool,
                     capabilityCount: U16, sampleCount: U16)
    | CapabilityRecord(index: U16, descriptor: Descriptor)
    | SampleRecord(index: U16, signalId: seq<Byte>, typeCode: Byte, value: Value, trailer: Trailer)

  datatype Trailer = Trailer(unit: seq<Byte>, source: Byte, quality: Byte, availability: Byte, timestampMs: U64)

  // The three kinds of encoder input.
  datatype Input =
    | SnapshotInput(snapshot: Snapshot)
    | CapabilityInput(descriptor: Descriptor, index: nat)
    | SampleInput(sample: Sample, index: nat)
  {
    predicate Built() {
      match this
      case SnapshotInput(_) => true
      case CapabilityInput(d, _) => d.Bounded()
      case SampleInput(s, _) => FactoryBuilt(s)
    }
  }

  predicate Encodable(input: Input) {
    match input
    case SnapshotInput(s) =>
      && ValidSelection(s.selection)
      && (s.selection == SELECTED <==> s.activeIdentity.Some?)
      && (s.hasRegistry || s.capabilityCount == 0)
      && s.capabilityCount <= 0xFFFF && s.sampleCount <= 0xFFFF
    case CapabilityInput(d, index) =>
      index <= 0xFFFF && ValidType(d.expectedType) && ValidSupport(d.support)
    case SampleInput(s, index) =>
      && index <= 0xFFFF && ValidSource(s.source) && ValidQuality(s.quality)
      && ValidAvailability(s.availability)
      && !(s.availability != AVAILABLE && s.HasValue())
      && !(s.availability == AVAILABLE && s.value == NoValue)
      && !(s.HasValue() && s.value == NoValue)
      && !(s.HasValue() && s.value.Numeric? && !Finite(s.value.bits))
  }

  function RecordOf(input: Input): Record
    requires Encodable(input)
  {
    match input
    case SnapshotInput(s) =>
      SnapshotRecord(s.selection, s.activeIdentity, s.hasRegistry, s.capabilityCount, s.sampleCount)
    case CapabilityInput(d, index) => CapabilityRecord(index, d)
    case SampleInput(s, index) =>
      SampleRecord(index, s.signalId, s.value.TypeCode(), if s.HasValue() then s.value else NoValue,
                   Trailer(s.unit, s.source, s.quality, s.availability, s.timestampMs))
  }

  // ---- The bytes of a record ----

  function Str(text: seq<Byte>): seq<Byte>
    requires |text| < 0x100
  {
    [|text|] + text
  }

  function Flag(b: bool): Byte {
    if b then 1 else 0
  }

  function ValueBytes(value: Value): seq<Byte>
    requires value.Text? ==> |value.text| < 0x100
  {
    match value
    case NoValue => []
    case Numeric(bits) => ToBigEndian(bits, 8)
    case Boolean(flag) => [Flag(flag)]
    case Text(text) => Str(text)
  }

  // No text needs more than its one length byte.
  predicate Short(r: Record) {
    match r
    case SnapshotRecord(_, _, _, _, _) => true
    case CapabilityRecord(_, d) => |d.identity| < 0x100 && |d.unit| < 0x100
    case SampleRecord(_, signalId, _, value, trailer) =>
      |signalId| < 0x100 && |trailer.unit| < 0x100 && (value.Text? ==> |value.text| < 0x100)
  }

  function TypeOf(r: Record): Byte {
    match r
    case SnapshotRecord(_, _, _, _, _) => SNAPSHOT
    case CapabilityRecord(_, _) => CAPABILITY
    case SampleRecord(_, _, _, _, _) => SAMPLE
  }

  function Bytes(r: Record): seq<Byte>
    requires Short(r)
  {
    [VERSION, TypeOf(r)] + Body(r)
  }

  function Body(r: Record): seq<Byte>
    requires Short(r)
  {
    match r
    case SnapshotRecord(selection, identity, hasRegistry, capabilityCount, sampleCount) =>
      [selection] + ([Flag(identity.Some?)] + (IdentityBytes(identity) + ([Flag(hasRegistry)]
      + (ToBigEndian(capabilityCount, 2) + ToBigEndian(sampleCount, 2)))))
    case CapabilityRecord(index, d) =>
      ToBigEndian(index, 2) + (Str(d.identity) + ([d.expectedType] + (Str(d.unit) + [d.support])))
    case SampleRecord(index, signalId, typeCode, value, trailer) =>
      ToBigEndian(index, 2) + (Str(signalId) + ([typeCode] + ([Flag(value != NoValue)]
      + (ValueBytes(value) + TrailerBytes(trailer)))))
  }

  function IdentityBytes(identity: Option<U32>): seq<Byte> {
    if identity.Some? then ToBigEndian(identity.value, 4) else []
  }

  function TrailerBytes(t: Trailer): seq<Byte>
    requires |t.unit| < 0x100
  {
    Str(t.unit) + ([t.source] + ([t.quality] + ([t.availability] + ToBigEndian(t.timestampMs, 8))))
  }

  // ---- The decoder ----

  function ReadInt(s: seq<Byte>, n: nat): Parsed<nat> {
    if |s| < n then Fail else Got(BigEndian(s[..n]), s[n..])
  }

  // A byte no larger than maximum.
  function ReadCode(s: seq<Byte>, maximum: Byte): Parsed<Byte> {
    if s == [] || s[0] > maximum then Fail else Got(s[0], s[1..])
  }

  function ReadFlag(s: seq<Byte>): Parsed<bool> {
    if s == [] || s[0] > 1 then Fail else Got(s[0] != 0, s[1..])
  }

  function ReadText(s: seq<Byte>, capacity: Byte): Parsed<seq<Byte>> {
    if s == [] || s[0] > capacity || s[0] as int > |s| - 1 then Fail
    else
      var text, rest := s[1..1 + s[0] as int], s[1 + s[0] as int..];
      if 0 in text || !WellFormed(text) then Fail else Got(text, rest)
  }

  function ReadValue(s: seq<Byte>, typeCode: Byte): Parsed<Value> {
    if typeCode == TYPE_NUMERIC then
      var (bits, s) :- ReadU64(s);
      if Finite(bits) then Got(Numeric(bits), s) else Fail
    else if typeCode == TYPE_BOOLEAN then
      var (flag, s) :- ReadFlag(s);
      Got(Boolean(flag), s)
    else if typeCode == TYPE_TEXT then
      var (text, s) :- ReadText(s, MAX_TEXT);
      Got(Text(text), s)
    else Fail
  }

  function ReadU16(s: seq<Byte>): Parsed<U16> {
    Widths();
    var (v, s) :- ReadInt(s, 2);
    Got(v, s)
  }

  function ReadU32(s: seq<Byte>): Parsed<U32> {
    Widths();
    var (v, s) :- ReadInt(s, 4);
    Got(v, s)
  }

  function ReadU64(s: seq<Byte>): Parsed<U64> {
    Widths();
    var (v, s) :- ReadInt(s, 8);
    Got(v, s)
  }

  function ReadIdentity(s: seq<Byte>, present: bool): Parsed<Option<U32>> {
    if !present then Got(None, s)
    else
      var (v, s) :- ReadU32(s);
      Got(Some(v), s)
  }

  function ReadSnapshot(s: seq<Byte>): (p: Parsed<Record>)
    ensures p.Got? ==> p.value.SnapshotRecord?
  {
    var (selection, s) :- ReadCode(s, SELECTED);
    var (hasIdentity, s) :- ReadFlag(s);
    var (identity, s) :- ReadIdentity(s, hasIdentity);
    var (hasRegistry, s) :- ReadFlag(s);
    var (capabilityCount, s) :- ReadU16(s);
    var (sampleCount, s) :- ReadU16(s);
    if (selection == SELECTED) != hasIdentity || (!hasRegistry && capabilityCount != 0) then Fail
    else Got(SnapshotRecord(selection, identity, hasRegistry, capabilityCount, sampleCount), s)
  }

  function ReadCapability(s: seq<Byte>): (p: Parsed<Record>)
    ensures p.Got? ==> p.value.CapabilityRecord?
  {
    var (index, s) :- ReadU16(s);
    var (identity, s) :- ReadText(s, MAX_SIGNAL_ID);
    var (expectedType, s) :- ReadCode(s, 3);
    var (unit, s) :- ReadText(s, MAX_UNIT);
    var (support, s) :- ReadCode(s, 3);
    Got(CapabilityRecord(index, Descriptor(identity, expectedType, unit, support)), s)
  }

  function ReadTrailer(s: seq<Byte>): Parsed<Trailer> {
    var (unit, s) :- ReadText(s, MAX_UNIT);
    var (source, s) :- ReadCode(s, 4);
    var (quality, s) :- ReadCode(s, 2);
    var (availability, s) :- ReadCode(s, 4);
    var (timestampMs, s) :- ReadU64(s);
    Got(Trailer(unit, source, quality, availability, timestampMs), s)
  }

  function ReadSample(s: seq<Byte>): (p: Parsed<Record>)
    ensures p.Got? ==> p.value.SampleRecord?
  {
    var (index, s) :- ReadU16(s);
    var (signalId, s) :- ReadText(s, MAX_SIGNAL_ID);
    var (typeCode, s) :- ReadCode(s, 3);
    var (present, s) :- ReadFlag(s);
    var (value, s) :- if present then ReadValue(s, typeCode) else Got(NoValue, s);
    var (trailer, s) :- ReadTrailer(s);
    if (trailer.availability != AVAILABLE && present)
       || (trailer.availability == AVAILABLE && typeCode == TYPE_NONE)
       || (present && trailer.quality == INVALID_OR_UNKNOWN) then Fail
    else Got(SampleRecord(index, signalId, typeCode, value, trailer), s)
  }

  function ReadBody(typeCode: Byte, s: seq<Byte>): Parsed<Record> {
    if typeCode == SNAPSHOT then ReadSnapshot(s)
    else if typeCode == CAPABILITY then ReadCapability(s)
    else if typeCode == SAMPLE then ReadSample(s)
    else Fail
  }

  function Decode(s: seq<Byte>): Option<Record> {
    if |s| < 2 || s[0] != VERSION then None
    else
      var body := ReadBody(s[1], s[2..]);
      if body.Got? && body.rest == [] then Some(body.value) else None
  }

  // ---- The decoder accepts exactly the bytes of the admissible records ----

  predicate Admissible(r: Record) {
    match r
    case SnapshotRecord(selection, identity, hasRegistry, capabilityCount, _) =>
      && ValidSelection(selection) && (selection == SELECTED <==> identity.Some?)
      && (hasRegistry || capabilityCount == 0)
    case CapabilityRecord(_, d) => d.Bounded() && ValidType(d.expectedType) && ValidSupport(d.support)
    case SampleRecord(_, signalId, typeCode, value, t) =>
      && TextOk(signalId, MAX_SIGNAL_ID) && ValidType(typeCode) && GoodTrailer(t)
      && (value != NoValue ==>
            && GoodValue(value, typeCode)
            && t.availability == AVAILABLE && t.quality != INVALID_OR_UNKNOWN)
      && (t.availability == AVAILABLE ==> typeCode != TYPE_NONE)
  }

  predicate GoodTrailer(t: Trailer) {
    TextOk(t.unit, MAX_UNIT) && ValidSource(t.source) && ValidQuality(t.quality) && ValidAvailability(t.availability)
  }

  predicate GoodValue(value: Value, typeCode: Byte) {
    && value != NoValue && value.TypeCode() == typeCode
    && (value.Numeric? ==> Finite(value.bits)) && (value.Text? ==> TextOk(value.text, MAX_TEXT))
  }

  lemma IntIs(s: seq<Byte>, n: nat, v: nat, rest: seq<Byte>)
    ensures ReadInt(s, n) == Got(v, rest) <==> v < Pow256(n) && s == ToBigEndian(v, n) + rest
  {
    if v < Pow256(n) {
      IntIsRead(n, v, rest);
    }
    if ReadInt(s, n) == Got(v, rest) {
      BigEndianBytes(s[..n]);
      assert s == s[..n] + s[n..];
    }
  }

  lemma IntIsRead(n: nat, v: nat, rest: seq<Byte>)
    requires v < Pow256(n)
    ensures ReadInt(ToBigEndian(v, n) + rest, n) == Got(v, rest)
  {
    BigEndianValue(v, n);
    assert (ToBigEndian(v, n) + rest)[..n] == ToBigEndian(v, n);
  }

  lemma U16Is(s: seq<Byte>, v: U16, rest: seq<Byte>)
    ensures ReadU16(s) == Got(v, rest) <==> s == ToBigEndian(v, 2) + rest
  {
    Widths();
    IntIs(s, 2, v, rest);
  }

  lemma U64Is(s: seq<Byte>, v: U64, rest: seq<Byte>)
    ensures ReadU64(s) == Got(v, rest) <==> s == ToBigEndian(v, 8) + rest
  {
    Widths();
    IntIs(s, 8, v, rest);
  }

  lemma CodeIs(s: seq<Byte>, maximum: Byte, v: Byte, rest: seq<Byte>)
    ensures ReadCode(s, maximum) == Got(v, rest) <==> v <= maximum && s == [v] + rest
  {
    assert s != [] ==> s == [s[0]] + s[1..];
  }

  lemma FlagIs(s: seq<Byte>, b: bool, rest: seq<Byte>)
    ensures ReadFlag(s) == Got(b, rest) <==> s == [Flag(b)] + rest
  {
    assert s != [] ==> s == [s[0]] + s[1..];
  }

  lemma TextIs(s: seq<Byte>, capacity: Byte, text: seq<Byte>, rest: seq<Byte>)
    ensures ReadText(s, capacity) == Got(text, rest) <==> TextOk(text, capacity) && s == Str(text) + rest
  {
    if TextOk(text, capacity) && s == Str(text) + rest {
      assert s[1..1 + s[0] as int] == text;
    }
    if ReadText(s, capacity) == Got(text, rest) {
      assert s == [s[0]] + s[1..1 + s[0] as int] + s[1 + s[0] as int..];
    }
  }

  lemma ValueIs(s: seq<Byte>, typeCode: Byte, value: Value, rest: seq<Byte>)
    ensures ReadValue(s, typeCode) == Got(value, rest)
       <==> GoodValue(value, typeCode) && s == ValueBytes(value) + rest
  {
    match value
    case NoValue =>
    case Numeric(bits) => U64Is(s, bits, rest);
    case Boolean(flag) => FlagIs(s, flag, rest);
    case Text(text) => TextIs(s, MAX_TEXT, text, rest);
  }

  lemma IdentityIs(s: seq<Byte>, present: bool, identity: Option<U32>, rest: seq<Byte>)
    ensures ReadIdentity(s, present) == Got(identity, rest)
       <==> present == identity.Some? && s == IdentityBytes(identity) + rest
  {
    if identity.Some? {
      Widths();
      IntIs(s, 4, identity.value, rest);
    }
  }

  lemma TrailerIs(s: seq<Byte>, t: Trailer)
    ensures ReadTrailer(s) == Got(t, []) <==> GoodTrailer(t) && s == TrailerBytes(t)
  {
    var time := ToBigEndian(t.timestampMs, 8);
    var s3 := [t.availability] + time;
    var s2 := [t.quality] + s3;
    var s1 := [t.source] + s2;
    assert time + [] == time;
    TextIs(s, MAX_UNIT, t.unit, s1);
    CodeIs(s1, 4, t.source, s2);
    CodeIs(s2, 2, t.quality, s3);
    CodeIs(s3, 4, t.availability, time);
    U64Is(time, t.timestampMs, []);
    if ReadTrailer(s) == Got(t, []) {
      var r1 := ReadText(s, MAX_UNIT).rest;
      var r2 := ReadCode(r1, 4).rest;
      var r3 := ReadCode(r2, 2).rest;
      var r4 := ReadCode(r3, 4).rest;
      TextIs(s, MAX_UNIT, t.unit, r1);
      CodeIs(r1, 4, t.source, r2);
      CodeIs(r2, 2, t.quality, r3);
      CodeIs(r3, 4, t.availability, r4);
      U64Is(r4, t.timestampMs, []);
    }
  }

  lemma SnapshotIs(s: seq<Byte>, r: Record)
    requires r.SnapshotRecord?
    ensures ReadSnapshot(s) == Got(r, []) <==> Admissible(r) && s == Body(r)
  {
    var count := ToBigEndian(r.sampleCount, 2);
    var s4 := ToBigEndian(r.capabilityCount, 2) + count;
    var s3 := [Flag(r.hasRegistry)] + s4;
    var s2 := IdentityBytes(r.activeIdentity) + s3;
    var s1 := [Flag(r.activeIdentity.Some?)] + s2;
    assert count + [] == count;
    CodeIs(s, SELECTED, r.selection, s1);
    FlagIs(s1, r.activeIdentity.Some?, s2);
    IdentityIs(s2, r.activeIdentity.Some?, r.activeIdentity, s3);
    FlagIs(s3, r.hasRegistry, s4);
    U16Is(s4, r.capabilityCount, count);
    U16Is(count, r.sampleCount, []);
    if ReadSnapshot(s) == Got(r, []) {
      SnapshotBytesAreBack(s, r);
    }
  }

  lemma SnapshotBytesAreBack(s: seq<Byte>, r: Record)
    requires r.SnapshotRecord? && ReadSnapshot(s) == Got(r, [])
    ensures Admissible(r) && s == Body(r)
  {
    var r1 := ReadCode(s, SELECTED).rest;
    var present, r2 := ReadFlag(r1).value, ReadFlag(r1).rest;
    var r3 := ReadIdentity(r2, present).rest;
    var r4 := ReadFlag(r3).rest;
    var r5 := ReadU16(r4).rest;
    CodeIs(s, SELECTED, r.selection, r1);
    FlagIs(r1, present, r2);
    IdentityIs(r2, present, r.activeIdentity, r3);
    FlagIs(r3, r.hasRegistry, r4);
    U16Is(r4, r.capabilityCount, r5);
    U16Is(r5, r.sampleCount, []);
    var count := ToBigEndian(r.sampleCount, 2);
    assert r5 == count + [] == count;
    assert r2 == IdentityBytes(r.activeIdentity)
                 + ([Flag(r.hasRegistry)] + (ToBigEndian(r.capabilityCount, 2) + count));
  }

  lemma CapabilityIs(s: seq<Byte>, r: Record)
    requires r.CapabilityRecord?
    ensures ReadCapability(s) == Got(r, []) <==> Admissible(r) && s == Body(r)
  {
    var d := r.descriptor;
    if Admissible(r) {
      var s3 := Str(d.unit) + [d.support];
      var s2 := [d.expectedType] + s3;
      var s1 := Str(d.identity) + s2;
      assert [d.support] + [] == [d.support];
      U16Is(s, r.index, s1);
      TextIs(s1, MAX_SIGNAL_ID, d.identity, s2);
      CodeIs(s2, 3, d.expectedType, s3);
      TextIs(s3, MAX_UNIT, d.unit, [d.support]);
      CodeIs([d.support], 3, d.support, []);
    }
    if ReadCapability(s) == Got(r, []) {
      var r1 := ReadU16(s).rest;
      var r2 := ReadText(r1, MAX_SIGNAL_ID).rest;
      var r3 := ReadCode(r2, 3).rest;
      var r4 := ReadText(r3, MAX_UNIT).rest;
      U16Is(s, r.index, r1);
      TextIs(r1, MAX_SIGNAL_ID, d.identity, r2);
      CodeIs(r2, 3, d.expectedType, r3);
      TextIs(r3, MAX_UNIT, d.unit, r4);
      CodeIs(r4, 3, d.support, []);
    }
  }

  lemma SampleIs(s: seq<Byte>, r: Record)
    requires r.SampleRecord?
    ensures ReadSample(s) == Got(r, []) <==> Admissible(r) && s == Body(r)
  {
    if Admissible(r) {
      var s4 := TrailerBytes(r.trailer);
      var s3 := ValueBytes(r.value) + s4;
      var s2 := [Flag(r.value != NoValue)] + s3;
      var s1 := [r.typeCode] + s2;
      var s0 := Str(r.signalId) + s1;
      U16Is(s, r.index, s0);
      TextIs(s0, MAX_SIGNAL_ID, r.signalId, s1);
      CodeIs(s1, 3, r.typeCode, s2);
      FlagIs(s2, r.value != NoValue, s3);
      if r.value == NoValue {
        assert s3 == s4;
      } else {
        ValueIs(s3, r.typeCode, r.value, s4);
      }
      TrailerIs(s4, r.trailer);
    }
    if ReadSample(s) == Got(r, []) {
      SampleBytesAreBack(s, r);
    }
  }

  lemma SampleBytesAreBack(s: seq<Byte>, r: Record)
    requires r.SampleRecord? && ReadSample(s) == Got(r, [])
    ensures Admissible(r) && s == Body(r)
  {
    var present, r0, r1, r2, r3, r4 := SampleParts(s, r);
    OptionalValueIs(r3, r.typeCode, present, r.value, r4);
    TrailerIs(r4, r.trailer);
    HeadBytesAreBack(s, r, present, r0, r1, r2, r3);
  }

  // What each part of a sample left to the next one.
  lemma SampleParts(s: seq<Byte>, r: Record)
    returns (present: bool, r0: seq<Byte>, r1: seq<Byte>, r2: seq<Byte>, r3: seq<Byte>, r4: seq<Byte>)
    requires r.SampleRecord? && ReadSample(s) == Got(r, [])
    ensures ReadU16(s) == Got(r.index, r0) && ReadText(r0, MAX_SIGNAL_ID) == Got(r.signalId, r1)
    ensures ReadCode(r1, 3) == Got(r.typeCode, r2) && ReadFlag(r2) == Got(present, r3)
    ensures Got(r.value, r4) == if present then ReadValue(r3, r.typeCode) else Got(NoValue, r3)
    ensures ReadTrailer(r4) == Got(r.trailer, [])
    ensures present ==> r.trailer.availability == AVAILABLE && r.trailer.quality != INVALID_OR_UNKNOWN
    ensures r.trailer.availability == AVAILABLE ==> r.typeCode != TYPE_NONE
  {
    r0 := ReadU16(s).rest;
    r1 := ReadText(r0, MAX_SIGNAL_ID).rest;
    r2 := ReadCode(r1, 3).rest;
    present, r3 := ReadFlag(r2).value, ReadFlag(r2).rest;
    r4 := if present then ReadValue(r3, r.typeCode).rest else r3;
  }

  lemma HeadBytesAreBack(s: seq<Byte>, r: Record, present: bool, r0: seq<Byte>, r1: seq<Byte>, r2: seq<Byte>,
                         r3: seq<Byte>)
    requires r.SampleRecord?
    requires ReadU16(s) == Got(r.index, r0) && ReadText(r0, MAX_SIGNAL_ID) == Got(r.signalId, r1)
    requires ReadCode(r1, 3) == Got(r.typeCode, r2) && ReadFlag(r2) == Got(present, r3)
    ensures TextOk(r.signalId, MAX_SIGNAL_ID) && ValidType(r.typeCode)
    ensures s == ToBigEndian(r.index, 2) + (Str(r.signalId) + ([r.typeCode] + ([Flag(present)] + r3)))
  {
    U16Is(s, r.index, r0);
    TextIs(r0, MAX_SIGNAL_ID, r.signalId, r1);
    CodeIs(r1, 3, r.typeCode, r2);
    FlagIs(r2, present, r3);
  }

  lemma OptionalValueIs(s: seq<Byte>, typeCode: Byte, present: bool, value: Value, rest: seq<Byte>)
    requires Got(value, rest) == if present then ReadValue(s, typeCode) else Got(NoValue, s)
    ensures present == (value != NoValue) && (present ==> GoodValue(value, typeCode))
    ensures s == ValueBytes(value) + rest
  {
    if present {
      ValueIs(s, typeCode, value, rest);
    } else {
      assert [] + rest == rest;
    }
  }

  lemma BodyIs(typeCode: Byte, s: seq<Byte>, r: Record)
    ensures ReadBody(typeCode, s) == Got(r, [])
       <==> typeCode == TypeOf(r) && Admissible(r) && s == Body(r)
  {
    match r
    case SnapshotRecord(_, _, _, _, _) => SnapshotIs(s, r);
    case CapabilityRecord(_, _) => CapabilityIs(s, r);
    case SampleRecord(_, _, _, _, _) => SampleIs(s, r);
  }

  /** The decoder yields r from s exactly when r is admissible and s is its bytes. */
  lemma DecodeIsExact(s: seq<Byte>, r: Record)
    ensures Decode(s) == Some(r) <==> Admissible(r) && s == Bytes(r)
  {
    if |s| >= 2 {
      BodyIs(s[1], s[2..], r);
      assert s == [s[0], s[1]] + s[2..];
    }
  }

  // A record tells everything about its input but a value that is not current knowledge.
  predicate Tells(r: Record, input: Input) {
    match input
    case SnapshotInput(s) =>
      && r.SnapshotRecord? && r.selection == s.selection && r.activeIdentity == s.activeIdentity
      && r.hasRegistry == s.hasRegistry && r.capabilityCount == s.capabilityCount && r.sampleCount == s.sampleCount
    case CapabilityInput(d, index) => r.CapabilityRecord? && r.index == index && r.descriptor == d
    case SampleInput(s, index) =>
      && r.SampleRecord? && r.index == index && r.signalId == s.signalId && r.typeCode == s.value.TypeCode()
      && r.value == (if s.availability == 0 && s.quality != 2 then s.value else NoValue)
      && r.trailer.unit == s.unit && r.trailer.source == s.source && r.trailer.quality == s.quality
      && r.trailer.availability == s.availability && r.trailer.timestampMs == s.timestampMs
  }

  /** What the encoder emits for an input built by the factories, the decoder reads back. */
  lemma RoundTrip(input: Input)
    requires input.Built() && Encodable(input)
    ensures Short(RecordOf(input)) && Decode(Bytes(RecordOf(input))) == Some(RecordOf(input))
    ensures Tells(RecordOf(input), input)
  {
    DecodeIsExact(Bytes(RecordOf(input)), RecordOf(input));
  }

  /**
   The decoder is more liberal than the encoder: a sample record is emitted for some input
   exactly when, besides, its value is present if and only if its state allows one, and its
   type is None if and only if it is not available.
   */
  lemma EmittedExactly(r: Record)
    requires Admissible(r)
    ensures (exists input: Input :: input.Built() && Encodable(input) && RecordOf(input) == r)
       <==> (r.SampleRecord? ==>
              && (r.trailer.availability == AVAILABLE <==> r.typeCode != TYPE_NONE)
              && (r.value != NoValue
                  <==> r.trailer.availability == AVAILABLE && r.trailer.quality != INVALID_OR_UNKNOWN))
  {
    match r
    case SnapshotRecord(selection, identity, hasRegistry, capabilityCount, sampleCount) =>
      var input := SnapshotInput(Snapshot(selection, identity, hasRegistry, capabilityCount, sampleCount));
      assert RecordOf(input) == r;
    case CapabilityRecord(index, d) =>
      assert RecordOf(CapabilityInput(d, index)) == r;
    case SampleRecord(index, signalId, typeCode, value, t) =>
      var hidden :=
        if value != NoValue then value
        else if typeCode == TYPE_NONE then NoValue
        else if typeCode == TYPE_NUMERIC then Numeric(0)
        else if typeCode == TYPE_BOOLEAN then Boolean(false)
        else Text([]);
      var s := Sample(signalId, t.unit, hidden, t.source, t.quality, t.availability, t.timestampMs);
      if (t.availability == AVAILABLE <==> typeCode != TYPE_NONE)
         && (value != NoValue <==> t.availability == AVAILABLE && t.quality != INVALID_OR_UNKNOWN) {
        assert RecordOf(SampleInput(s, index)) == r;
      }
  }

  /** Such a record: available, of good quality, numeric, and yet without its value. */
  lemma SomeDecodableRecordIsNeverEmitted()
    ensures var r := SampleRecord(0, [], TYPE_NUMERIC, NoValue, Trailer([], 0, 0, AVAILABLE, 0));
      && Short(r) && Decode(Bytes(r)) == Some(r)
      && !exists input: Input :: input.Built() && Encodable(input) && RecordOf(input) == r
  {
    var r := SampleRecord(0, [], TYPE_NUMERIC, NoValue, Trailer([], 0, 0, AVAILABLE, 0));
    DecodeIsExact(Bytes(r), r);
    EmittedExactly(r);
  }

  /** Of the samples the factories build, those with known codes whose shown numbers are finite are encoded. */
  lemma EncodedExactly(s: Sample, index: nat)
    requires FactoryBuilt(s)
    ensures Encodable(SampleInput(s, index))
       <==> index <= 0xFFFF && s.availability <= 4 && s.quality <= 2 && s.source <= 4
            && (s.value.Numeric? && s.quality != 2 ==> Finite(s.value.bits))
  {
  }

  // ---- Where every field lies ----

  function Bytes2(v: U16): seq<Byte> {
    [v / 256, v % 256]
  }

  function Bytes4(v: U32): seq<Byte> {
    [v / 0x100_0000, v / 0x1_0000 % 256, v / 256 % 256, v % 256]
  }

  lemma TwoBytes(v: U16)
    ensures ToBigEndian(v, 2) == Bytes2(v)
  {
    assert ToBigEndian(v / 256, 1) == ToBigEndian(v / 256 / 256, 0) + [v / 256 % 256];
  }

  lemma FourBytes(v: U32)
    ensures ToBigEndian(v, 4) == Bytes4(v)
  {
    TwoBytes(v / 0x1_0000);
    assert ToBigEndian(v, 4) == ToBigEndian(v / 256 / 256, 2) + [v / 256 % 256] + [v % 256];
    assert v / 256 / 256 == v / 0x1_0000;
  }

  lemma IdentityIsLaidOut(identity: Option<U32>)
    ensures [Flag(identity.Some?)] + IdentityBytes(identity)
         == if identity.Some? then [1] + Bytes4(identity.value) else [0]
  {
    if identity.Some? {
      FourBytes(identity.value);
    }
  }

  lemma SnapshotFlattens(a: seq<Byte>, b: seq<Byte>, c: seq<Byte>, d: seq<Byte>, e: seq<Byte>, f: seq<Byte>,
                         g: seq<Byte>)
    ensures a + (b + (c + (d + (e + (f + g))))) == a + b + (c + d) + e + f + g
  {
  }

  /** A snapshot is record 1: selection, identity if any, registry flag and two 16-bit counts. */
  lemma SnapshotIsLaidOut(selection: Byte, identity: Option<U32>, hasRegistry: bool, capabilities: U16, samples: U16)
    ensures Bytes(SnapshotRecord(selection, identity, hasRegistry, capabilities, samples))
         == [1, 1] + [selection] + (if identity.Some? then [1] + Bytes4(identity.value) else [0])
            + [if hasRegistry then 1 else 0] + Bytes2(capabilities) + Bytes2(samples)
  {
    TwoBytes(capabilities);
    TwoBytes(samples);
    IdentityIsLaidOut(identity);
    SnapshotFlattens([1, 1], [selection], [Flag(identity.Some?)], IdentityBytes(identity), [Flag(hasRegistry)],
                     Bytes2(capabilities), Bytes2(samples));
  }

  /** A capability is record 2: index, identity, type, unit and support. */
  lemma CapabilityIsLaidOut(index: U16, identity: seq<Byte>, expectedType: Byte, unit: seq<Byte>, support: Byte)
    requires |identity| < 0x100 && |unit| < 0x100
    ensures Bytes(CapabilityRecord(index, Descriptor(identity, expectedType, unit, support)))
         == [1, 2] + Bytes2(index) + [|identity|] + identity + [expectedType, |unit|] + unit + [support]
  {
    TwoBytes(index);
  }

  // A value with its flag.
  function FlaggedValue(value: Value): seq<Byte>
    requires value.Text? ==> |value.text| < 0x100
  {
    match value
    case NoValue => [0]
    case Numeric(bits) => [1] + ToBigEndian(bits, 8)
    case Boolean(flag) => [1, if flag then 1 else 0]
    case Text(text) => [1, |text|] + text
  }

  lemma ValueIsLaidOut(value: Value)
    requires value.Text? ==> |value.text| < 0x100
    ensures [Flag(value != NoValue)] + ValueBytes(value) == FlaggedValue(value)
  {
  }

  lemma TrailerIsLaidOut(t: Trailer)
    requires |t.unit| < 0x100
    ensures TrailerBytes(t)
         == [|t.unit|] + t.unit + [t.source, t.quality, t.availability] + ToBigEndian(t.timestampMs, 8)
  {
  }

  lemma SampleFlattens(a: seq<Byte>, b: seq<Byte>, c: seq<Byte>, d: seq<Byte>, e: seq<Byte>, f: seq<Byte>,
                       g: seq<Byte>)
    ensures a + (b + (c + (d + (e + (f + g))))) == a + b + c + d + (e + f) + g
  {
  }

  /**
   A sample is record 3: index, signal, type, the value if there is one, unit, source, quality,
   availability and the time in eight bytes.
   */
  lemma SampleIsLaidOut(index: U16, signalId: seq<Byte>, typeCode: Byte, value: Value, t: Trailer)
    requires |signalId| < 0x100 && |t.unit| < 0x100 && (value.Text? ==> |value.text| < 0x100)
    ensures Bytes(SampleRecord(index, signalId, typeCode, value, t))
         == [1, 3] + Bytes2(index) + ([|signalId|] + signalId) + [typeCode] + FlaggedValue(value)
            + ([|t.unit|] + t.unit + [t.source, t.quality, t.availability] + ToBigEndian(t.timestampMs, 8))
  {
    TwoBytes(index);
    ValueIsLaidOut(value);
    TrailerIsLaidOut(t);
    SampleFlattens([1, 3], Bytes2(index), Str(signalId), [typeCode], [Flag(value != NoValue)], ValueBytes(value),
                   TrailerBytes(t));
  }
}
