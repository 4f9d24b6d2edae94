/** The host-side decoder of the BLE payload: a cursor over the received bytes. */
module BleReader {
  import opened Types
  import opened Endian
  import opened Buffers
  import opened VehicleData
  import opened ReadModel
  import opened Parsing
  import opened BleSpec

  class BlePayloadReader {
    const bytes: array<Byte>
    const length: nat
    var offset: nat

    ghost predicate Valid()
      reads this
    {
      offset <= length <= bytes.Length
    }

    // What is left to read.
    ghost function Rest(): seq<Byte>
      requires Valid()
      reads this, bytes
    {
      bytes[offset..length]
    }

    constructor (bytes: array<Byte>, length: nat)
      requires length <= bytes.Length
      ensures Valid() && Rest() == bytes[..length] && this.bytes == bytes && this.length == length
    {
      this.bytes := bytes;
      this.length := length;
      offset := 0;
    }

    method NextByte() returns (ok: bool, value: Byte)
      requires Valid()
      modifies this
      ensures Valid() && ok == (old(Rest()) != [])
      ensures ok ==> value == old(Rest())[0] && Rest() == old(Rest())[1..]
    {
      if offset >= length {
        return false, 0;
      }
      value := bytes[offset];
      offset := offset + 1;
      ok := true;
    }

    method NextCode(maximum: Byte) returns (ok: bool, value: Byte)
      requires Valid()
      modifies this
      ensures Valid()
      ensures ReadCode(old(Rest()), maximum) == if ok then Got(value, Rest()) else Fail
    {
      ok, value := NextByte();
      ok := ok && value <= maximum;
    }

    method NextFlag() returns (ok: bool, value: bool)
      requires Valid()
      modifies this
      ensures Valid()
      ensures ReadFlag(old(Rest())) == if ok then Got(value, Rest()) else Fail
    {
      var raw;
      ok, raw := NextByte();
      ok, value := ok && raw <= 1, raw != 0;
    }

    /** A big-endian integer of two, four or eight bytes. */
    method NextInt(width: nat) returns (ok: bool, value: nat)
      requires Valid()
      modifies this
      ensures Valid()
      ensures ReadInt(old(Rest()), width) == if ok then Got(value, Rest()) else Fail
    {
      ghost var was := Rest();
      value := 0;
      for index := 0 to width
        invariant Valid() && index <= |was| && Rest() == was[index..]
        invariant value == BigEndian(was[..index])
      {
        var part;
        ok, part := NextByte();
        if !ok { return; }
        assert was[..index + 1][..index] == was[..index];
        value := value * 0x100 + part;
      }
      ok := true;
    }

    /** A length-prefixed text, which must be admissible as a bounded text of this capacity. */
    method NextText(capacity: Byte) returns (ok: bool, value: seq<Byte>)
      requires Valid()
      modifies this
      ensures Valid()
      ensures ReadText(old(Rest()), capacity) == if ok then Got(value, Rest()) else Fail
    {
      ghost var was := Rest();
      var size;
      ok, size := NextByte();
      if !ok || size > capacity || size as int > length - offset {
        return false, [];
      }
      value := NextBytes(size);
      TextEnds(was, size);
      if 0 in value {
        return false, [];
      }
      ok := FitsText(value, capacity);
    }

    method NextBytes(n: nat) returns (value: seq<Byte>)
      requires Valid() && n <= length - offset
      modifies this
      ensures Valid() && value == old(Rest())[..n] && Rest() == old(Rest())[n..]
    {
      value := bytes[offset..offset + n];
      SplitsAt(bytes[..], offset, length, n);
      offset := offset + n;
    }

    lemma SplitsAt(s: seq<Byte>, from: nat, to: nat, n: nat)
      requires from + n <= to <= |s|
      ensures s[from..to][..n] == s[from..from + n] && s[from..to][n..] == s[from + n..to]
    {
    }

    // Where a length-delimited text ends.
    lemma TextEnds(s: seq<Byte>, n: nat)
      requires 1 + n <= |s|
      ensures s[1..][..n] == s[1..1 + n] && s[1..][n..] == s[1 + n..]
    {
    }

    method NextValue(typeCode: Byte) returns (ok: bool, value: Value)
      requires Valid()
      modifies this
      ensures Valid()
      ensures ReadValue(old(Rest()), typeCode) == if ok then Got(value, Rest()) else Fail
    {
      Widths();
      ok, value := false, NoValue;
      if typeCode == TYPE_NUMERIC {
        var bits;
        ok, bits := NextInt(8);
        ok := ok && Finite(bits);
        if ok {
          value := Numeric(bits);
        }
      } else if typeCode == TYPE_BOOLEAN {
        var flag;
        ok, flag := NextFlag();
        value := Boolean(flag);
      } else if typeCode == TYPE_TEXT {
        var text;
        ok, text := NextText(MAX_TEXT);
        value := Text(text);
      }
    }
  }

  // Whether a bounded text takes the bytes, handed over as a terminated copy.
  method FitsText(value: seq<Byte>, capacity: nat) returns (ok: bool)
    requires |value| <= capacity && 0 !in value
    ensures ok <==> TextOk(value, capacity)
  {
    var buffer := new Byte[capacity + 1](_ => 0);
    Copy(value, buffer, 0);
    assert buffer[..][..|value|] == value;
    CStringIs(buffer[..], |value|);
    var text := new BoundedText(capacity);
    ok := text.Assign(buffer);
  }

  method DecodeSnapshot(reader: BlePayloadReader) returns (decoded: Option<Record>)
    requires reader.Valid()
    modifies reader
    ensures reader.Valid()
    ensures ReadSnapshot(old(reader.Rest())) == if decoded.Some? then Got(decoded.value, reader.Rest()) else Fail
  {
    Widths();
    var ok, selection := reader.NextCode(SELECTED);
    if !ok { return None; }
    var hasIdentity;
    ok, hasIdentity := reader.NextFlag();
    if !ok { return None; }
    var identity: Option<U32> := None;
    if hasIdentity {
      var v;
      ok, v := reader.NextInt(4);
      if !ok { return None; }
      identity := Some(v);
    }
    var hasRegistry;
    ok, hasRegistry := reader.NextFlag();
    if !ok { return None; }
    var capabilityCount, sampleCount;
    ok, capabilityCount := reader.NextInt(2);
    if !ok { return None; }
    ok, sampleCount := reader.NextInt(2);
    if !ok || (selection == SELECTED) != hasIdentity || (!hasRegistry && capabilityCount != 0) {
      return None;
    }
    return Some(SnapshotRecord(selection, identity, hasRegistry, capabilityCount, sampleCount));
  }

  method DecodeCapability(reader: BlePayloadReader) returns (decoded: Option<Record>)
    requires reader.Valid()
    modifies reader
    ensures reader.Valid()
    ensures ReadCapability(old(reader.Rest())) == if decoded.Some? then Got(decoded.value, reader.Rest()) else Fail
  {
    Widths();
    var ok, index := reader.NextInt(2);
    if !ok { return None; }
    var identity, expectedType, unit, support;
    ok, identity := reader.NextText(MAX_SIGNAL_ID);
    if !ok { return None; }
    ok, expectedType := reader.NextCode(3);
    if !ok { return None; }
    ok, unit := reader.NextText(MAX_UNIT);
    if !ok { return None; }
    ok, support := reader.NextCode(3);
    if !ok { return None; }
    return Some(CapabilityRecord(index, Descriptor(identity, expectedType, unit, support)));
  }

  method DecodeTrailer(reader: BlePayloadReader) returns (decoded: Option<Trailer>)
    requires reader.Valid()
    modifies reader
    ensures reader.Valid()
    ensures ReadTrailer(old(reader.Rest())) == if decoded.Some? then Got(decoded.value, reader.Rest()) else Fail
  {
    Widths();
    var ok, unit := reader.NextText(MAX_UNIT);
    if !ok { return None; }
    var source, quality, availability, timestampMs;
    ok, source := reader.NextCode(4);
    if !ok { return None; }
    ok, quality := reader.NextCode(2);
    if !ok { return None; }
    ok, availability := reader.NextCode(4);
    if !ok { return None; }
    ok, timestampMs := reader.NextInt(8);
    if !ok { return None; }
    return Some(Trailer(unit, source, quality, availability, timestampMs));
  }

  method DecodeSample(reader: BlePayloadReader) returns (decoded: Option<Record>)
    requires reader.Valid()
    modifies reader
    ensures reader.Valid()
    ensures ReadSample(old(reader.Rest())) == if decoded.Some? then Got(decoded.value, reader.Rest()) else Fail
  {
    Widths();
    var ok, index := reader.NextInt(2);
    if !ok { return None; }
    var signalId, typeCode, present;
    ok, signalId := reader.NextText(MAX_SIGNAL_ID);
    if !ok { return None; }
    ok, typeCode := reader.NextCode(3);
    if !ok { return None; }
    ok, present := reader.NextFlag();
    if !ok { return None; }
    var value := NoValue;
    if present {
      ok, value := reader.NextValue(typeCode);
      if !ok { return None; }
    }
    var trailer := DecodeTrailer(reader);
    if trailer.None?
       || (trailer.value.availability != AVAILABLE && present)
       || (trailer.value.availability == AVAILABLE && typeCode == TYPE_NONE)
       || (present && trailer.value.quality == INVALID_OR_UNKNOWN) {
      return None;
    }
    return Some(SampleRecord(index, signalId, typeCode, value, trailer.value));
  }

  method DecodeBody(reader: BlePayloadReader, typeCode: Byte) returns (decoded: Option<Record>)
    requires reader.Valid()
    modifies reader
    ensures reader.Valid()
    ensures ReadBody(typeCode, old(reader.Rest())) == if decoded.Some? then Got(decoded.value, reader.Rest()) else Fail
  {
    if typeCode == SNAPSHOT {
      decoded := DecodeSnapshot(reader);
    } else if typeCode == CAPABILITY {
      decoded := DecodeCapability(reader);
    } else if typeCode == SAMPLE {
      decoded := DecodeSample(reader);
    } else {
      decoded := None;
    }
  }

  /** Accepts exactly what the parser accepts, which DecodeIsExact describes. */
  method DecodePayload(bytes: array?<Byte>, length: nat) returns (decoded: Option<Record>)
    requires bytes != null ==> length <= bytes.Length
    ensures decoded == if bytes == null then None else Decode(bytes[..length])
  {
    if bytes == null || length < 2 {
      return None;
    }
    var reader := new BlePayloadReader(bytes, length);
    decoded := DecodeRecord(reader);
  }

  method DecodeRecord(reader: BlePayloadReader) returns (decoded: Option<Record>)
    requires reader.Valid() && |reader.Rest()| >= 2
    modifies reader
    ensures reader.Valid() && decoded == Decode(old(reader.Rest()))
  {
    var _, version := reader.NextByte();
    if version != VERSION {
      return None;
    }
    var _, typeCode := reader.NextByte();
    assert reader.Rest() == old(reader.Rest())[2..];
    decoded := DecodeBody(reader, typeCode);
    if reader.offset != reader.length {
      assert reader.Rest() != [];
      decoded := None;
    }
  }
}
