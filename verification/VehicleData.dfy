/**
 Normalized vehicle values and samples. Enumerations are their raw codes, because the
 codecs validate them; doubles are their 64-bit patterns.
 */
module VehicleData {
  import opened Types
  import opened Utf8
  import opened Buffers

  const MAX_TEXT := 17
  const MAX_SIGNAL_ID := 64
  const MAX_UNIT := 32

  const TYPE_NONE: Byte := 0
  const TYPE_NUMERIC: Byte := 1
  const TYPE_BOOLEAN: Byte := 2
  const TYPE_TEXT: Byte := 3

  const AVAILABLE: Byte := 0
  const UNKNOWN_AVAILABILITY: Byte := 4
  const INVALID_OR_UNKNOWN: Byte := 2
  const UNKNOWN_SOURCE: Byte := 4

  predicate ValidType(code: Byte) { code <= 3 }
  predicate ValidAvailability(code: Byte) { code <= 4 }
  predicate ValidQuality(code: Byte) { code <= 2 }
  predicate ValidSource(code: Byte) { code <= 4 }

  // What BoundedText<capacity> accepts: no terminator inside, well-formed, short enough.
  predicate TextOk(text: seq<Byte>, capacity: nat) {
    |text| <= capacity && 0 !in text && WellFormed(text)
  }

  /** So a bounded text of enough capacity holds every text without U+0000, and only such texts. */
  lemma TextHoldsScalars(text: seq<Scalar>, capacity: nat)
    ensures TextOk(Encode(text), capacity) <==> 0 !in text && |Encode(text)| <= capacity
  {
    ZeroBytes(text);
    EncodedIsWellFormed(text);
  }

  // IEEE 754 binary64: neither infinity nor NaN, by the exponent bits.
  predicate Finite(bits: U64) {
    bits / 0x10_0000_0000_0000 % 0x800 != 0x7FF
  }

  datatype Value = NoValue | Numeric(bits: U64) | Boolean(flag: bool) | Text(text: seq<Byte>) {
    function TypeCode(): (code: Byte)
      ensures ValidType(code)
    {
      match this
      case NoValue => TYPE_NONE
      case Numeric(_) => TYPE_NUMERIC
      case Boolean(_) => TYPE_BOOLEAN
      case Text(_) => TYPE_TEXT
    }
  }

  datatype Sample = Sample(
    signalId: seq<Byte>, unit: seq<Byte>, value: Value,
    source: Byte, quality: Byte, availability: Byte, timestampMs: U64)
  {
    predicate HasValue() {
      availability == AVAILABLE && value != NoValue && quality != INVALID_OR_UNKNOWN
    }
  }

  // ---- Factories: a C string is its bytes before the terminator, or null ----

  function TryNumeric(signalId: Option<seq<Byte>>, bits: U64, unit: Option<seq<Byte>>,
                      source: Byte, quality: Byte, timestampMs: U64): Option<Sample> {
    MakeAvailable(signalId, unit, source, quality, timestampMs, Numeric(bits))
  }

  function TryBoolean(signalId: Option<seq<Byte>>, flag: bool, unit: Option<seq<Byte>>,
                      source: Byte, quality: Byte, timestampMs: U64): Option<Sample> {
    MakeAvailable(signalId, unit, source, quality, timestampMs, Boolean(flag))
  }

  function TryText(signalId: Option<seq<Byte>>, text: Option<seq<Byte>>, unit: Option<seq<Byte>>,
                   source: Byte, quality: Byte, timestampMs: U64): Option<Sample> {
    if !Assignable(text, MAX_TEXT) then None
    else MakeAvailable(signalId, unit, source, quality, timestampMs, Text(text.value))
  }

  function TryStatus(signalId: Option<seq<Byte>>, availability: Byte, unit: Option<seq<Byte>>,
                     source: Byte, quality: Byte, timestampMs: U64): Option<Sample> {
    if availability == AVAILABLE then None
    else if !Assignable(signalId, MAX_SIGNAL_ID) || !Assignable(unit, MAX_UNIT) then None
    else Some(Sample(signalId.value, unit.value, NoValue, source, quality, availability, timestampMs))
  }

  function MakeAvailable(signalId: Option<seq<Byte>>, unit: Option<seq<Byte>>, source: Byte,
                         quality: Byte, timestampMs: U64, value: Value): Option<Sample> {
    if !Assignable(signalId, MAX_SIGNAL_ID) || !Assignable(unit, MAX_UNIT) || value == NoValue then None
    else Some(Sample(signalId.value, unit.value, value, source, quality, AVAILABLE, timestampMs))
  }

  predicate Assignable(text: Option<seq<Byte>>, capacity: nat) {
    text.Some? && TextOk(text.value, capacity)
  }

  /** What holds of every sample that came out of a factory. */
  predicate FactoryBuilt(s: Sample) {
    && TextOk(s.signalId, MAX_SIGNAL_ID) && TextOk(s.unit, MAX_UNIT)
    && (s.value.Text? ==> TextOk(s.value.text, MAX_TEXT))
    && (s.availability == AVAILABLE <==> s.value != NoValue)
  }

  datatype FactoryCall =
    | CallNumeric(bits: U64)
    | CallBoolean(flag: bool)
    | CallText(text: Option<seq<Byte>>)
    | CallStatus(availability: Byte)

  function Build(call: FactoryCall, signalId: Option<seq<Byte>>, unit: Option<seq<Byte>>,
                 source: Byte, quality: Byte, timestampMs: U64): Option<Sample> {
    match call
    case CallNumeric(bits) => TryNumeric(signalId, bits, unit, source, quality, timestampMs)
    case CallBoolean(flag) => TryBoolean(signalId, flag, unit, source, quality, timestampMs)
    case CallText(text) => TryText(signalId, text, unit, source, quality, timestampMs)
    case CallStatus(availability) => TryStatus(signalId, availability, unit, source, quality, timestampMs)
  }

  /** The invariant is exact: it describes just the samples some factory call produces. */
  lemma FactoriesBuildExactly(s: Sample)
    ensures FactoryBuilt(s) <==>
      exists call, id, unit :: Build(call, id, unit, s.source, s.quality, s.timestampMs) == Some(s)
  {
    if FactoryBuilt(s) {
      var call :=
        match s.value
        case NoValue => CallStatus(s.availability)
        case Numeric(bits) => CallNumeric(bits)
        case Boolean(flag) => CallBoolean(flag)
        case Text(text) => CallText(Some(text));
      assert Build(call, Some(s.signalId), Some(s.unit), s.source, s.quality, s.timestampMs) == Some(s);
    }
  }

  // ---- Bounded text ----

  // The bytes of a terminated buffer before its first zero.
  function CString(buffer: seq<Byte>): (text: seq<Byte>)
    requires 0 in buffer
    ensures |text| < |buffer| && text == buffer[..|text|] && buffer[|text|] == 0 && 0 !in text
  {
    if buffer[0] == 0 then [] else [buffer[0]] + CString(buffer[1..])
  }

  lemma {:induction false} CStringIs(buffer: seq<Byte>, n: nat)
    requires n < |buffer| && buffer[n] == 0 && 0 !in buffer[..n]
    ensures CString(buffer) == buffer[..n]
    decreases n
  {
    if n > 0 {
      assert buffer[0] in buffer[..n];
      assert buffer[1..][..n - 1] == buffer[..n][1..];
      CStringIs(buffer[1..], n - 1);
    }
  }

  class BoundedText {
    const data: array<Byte>
    var length: nat

    ghost predicate Valid()
      reads this, data
    {
      data.Length > 0 && length < data.Length && data[length] == 0 && TextOk(data[..length], data.Length - 1)
    }

    ghost function Contents(): seq<Byte>
      requires length <= data.Length
      reads this, data
    {
      data[..length]
    }

    constructor (capacity: nat)
      ensures Valid() && Contents() == [] && data.Length == capacity + 1 && fresh(data)
    {
      data := new Byte[capacity + 1](_ => 0);
      length := 0;
    }

    /** Takes the whole C string or, if it is null, malformed or too long, becomes empty. */
    method Assign(value: array?<Byte>) returns (ok: bool)
      requires Valid() && (value != null ==> value != data && 0 in value[..])
      modifies this, data
      ensures Valid()
      ensures ok <==> value != null && TextOk(CString(value[..]), data.Length - 1)
      ensures Contents() == if ok then CString(value[..]) else []
    {
      if value == null {
        Clear();
        return false;
      }
      var n := StrLen(value);
      ghost var text := CString(value[..]);
      var accepted := false;
      if n <= data.Length - 1 {
        accepted := IsWellFormedUtf8(value, n);
      }
      assert value[..n] == text;
      if !accepted {
        Clear();
        return false;
      }
      Copy(value[..n], data, 0);
      data[n] := 0;
      length := n;
      assert data[..n] == text;
      return true;
    }

    method Clear()
      requires data.Length > 0
      modifies this, data
      ensures Valid() && Contents() == []
    {
      data[0] := 0;
      length := 0;
    }
  }

  method StrLen(value: array<Byte>) returns (n: nat)
    requires 0 in value[..]
    ensures n < value.Length && value[..n] == CString(value[..])
  {
    n := 0;
    while value[n] != 0
      invariant n < value.Length && 0 !in value[..n]
      decreases value.Length - n
    {
      n := n + 1;
    }
    CStringIs(value[..], n);
  }
}
