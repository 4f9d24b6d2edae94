/** The BLE payload codec over caller buffers. */
module BleRecord {
  import opened Types
  import opened Endian
  import opened VehicleData
  import opened BoundedWriter
  import opened BleSpec

  datatype PayloadStatus = Encoded | InsufficientCapacity | InvalidInput

  /** Measures the record, then writes all of it or nothing. */
  method Encode(input: Input, output: array?<Byte>, capacity: nat) returns (status: PayloadStatus, required: nat)
    requires input.Built() && (output != null ==> capacity <= output.Length) && capacity <= SIZE_MAX
    modifies output
    ensures !Encodable(input) ==> status == InvalidInput && required == 0
    ensures Encodable(input) ==> required == |Bytes(RecordOf(input))|
    ensures Encodable(input) ==>
      (status == if capacity < required then InsufficientCapacity
                 else if output == null then InvalidInput else Encoded)
    ensures status == Encoded ==> output[..] == Bytes(RecordOf(input)) + old(output[required..])
    ensures status != Encoded && output != null ==> output[..] == old(output[..])
  {
    var sizing := new Writer(null, 0);
    var ok := Write(sizing, input);
    if !ok {
      return InvalidInput, 0;
    }
    required := sizing.size;
    if capacity < required {
      return InsufficientCapacity, required;
    }
    if output == null {
      return InvalidInput, required;
    }
    var writer := new Writer(output, capacity);
    ok := Write(writer, input);
    status := if !ok || writer.size != required then InvalidInput else Encoded;
  }

  // Whether the input is encodable and fits; if so its bytes have been appended.
  method Write(w: Writer, input: Input) returns (ok: bool)
    requires w.Valid() && input.Built() && w.written == []
    modifies w, w.output
    ensures w.Valid()
    ensures ok <==> Encodable(input) && |Bytes(RecordOf(input))| <= w.Limit()
    ensures ok ==> w.written == Bytes(RecordOf(input))
  {
    if !Encodable(input) {
      return false;
    }
    var r := RecordOf(input);
    ok := AppendByte(w, VERSION);
    if !ok { return; }
    ok := AppendByte(w, TypeOf(r));
    if !ok { return; }
    match input {
      case SnapshotInput(_) => ok := WriteSnapshot(w, r);
      case CapabilityInput(_, _) => ok := WriteCapability(w, r);
      case SampleInput(_, _) => ok := WriteSample(w, r);
    }
  }

  // Appending six pieces one after the other is appending their concatenation.
  lemma Regroup(base: seq<Byte>, a: seq<Byte>, b: seq<Byte>, c: seq<Byte>, d: seq<Byte>, e: seq<Byte>, f: seq<Byte>)
    ensures base + a + b + c + d + e + f == base + (a + (b + (c + (d + (e + f)))))
  {
  }

  // The same for five.
  lemma RegroupFive(base: seq<Byte>, a: seq<Byte>, b: seq<Byte>, c: seq<Byte>, d: seq<Byte>, e: seq<Byte>)
    ensures base + a + b + c + d + e == base + (a + (b + (c + (d + e))))
  {
  }

  method WriteSnapshot(w: Writer, r: Record) returns (ok: bool)
    requires w.Valid() && r.SnapshotRecord?
    modifies w, w.output
    ensures w.Valid() && ok == (|old(w.written)| + |Body(r)| <= w.Limit())
    ensures ok ==> w.written == old(w.written) + Body(r)
  {
    ok := AppendByte(w, r.selection);
    if !ok { return; }
    ok := AppendByte(w, Flag(r.activeIdentity.Some?));
    if !ok { return; }
    ok := WriteIdentity(w, r.activeIdentity);
    if !ok { return; }
    ok := AppendByte(w, Flag(r.hasRegistry));
    if !ok { return; }
    ok := AppendBigEndian(w, r.capabilityCount, 2);
    if !ok { return; }
    ok := AppendBigEndian(w, r.sampleCount, 2);
    Regroup(old(w.written), [r.selection], [Flag(r.activeIdentity.Some?)], IdentityBytes(r.activeIdentity),
            [Flag(r.hasRegistry)], ToBigEndian(r.capabilityCount, 2), ToBigEndian(r.sampleCount, 2));
  }

  method WriteIdentity(w: Writer, identity: Option<U32>) returns (ok: bool)
    requires w.Valid()
    modifies w, w.output
    ensures w.Valid() && ok == (|old(w.written)| + |IdentityBytes(identity)| <= w.Limit())
    ensures ok ==> w.written == old(w.written) + IdentityBytes(identity)
  {
    ok := true;
    if identity.Some? {
      ok := AppendBigEndian(w, identity.value, 4);
    }
  }

  method WriteCapability(w: Writer, r: Record) returns (ok: bool)
    requires w.Valid() && r.CapabilityRecord? && Short(r)
    modifies w, w.output
    ensures w.Valid() && ok == (|old(w.written)| + |Body(r)| <= w.Limit())
    ensures ok ==> w.written == old(w.written) + Body(r)
  {
    ok := AppendBigEndian(w, r.index, 2);
    if !ok { return; }
    ok := AppendString(w, r.descriptor.identity);
    if !ok { return; }
    ok := AppendByte(w, r.descriptor.expectedType);
    if !ok { return; }
    ok := AppendString(w, r.descriptor.unit);
    if !ok { return; }
    ok := AppendByte(w, r.descriptor.support);
    RegroupFive(old(w.written), ToBigEndian(r.index, 2), Str(r.descriptor.identity), [r.descriptor.expectedType],
                Str(r.descriptor.unit), [r.descriptor.support]);
  }

  method WriteSample(w: Writer, r: Record) returns (ok: bool)
    requires w.Valid() && r.SampleRecord? && Short(r)
    modifies w, w.output
    ensures w.Valid() && ok == (|old(w.written)| + |Body(r)| <= w.Limit())
    ensures ok ==> w.written == old(w.written) + Body(r)
  {
    ok := AppendBigEndian(w, r.index, 2);
    if !ok { return; }
    ok := AppendString(w, r.signalId);
    if !ok { return; }
    ok := AppendByte(w, r.typeCode);
    if !ok { return; }
    ok := AppendByte(w, Flag(r.value != NoValue));
    if !ok { return; }
    ok := WriteValue(w, r.value);
    if !ok { return; }
    ok := WriteTrailer(w, r.trailer);
    Regroup(old(w.written), ToBigEndian(r.index, 2), Str(r.signalId), [r.typeCode], [Flag(r.value != NoValue)],
            ValueBytes(r.value), TrailerBytes(r.trailer));
  }

  method WriteValue(w: Writer, value: Value) returns (ok: bool)
    requires w.Valid() && (value.Text? ==> |value.text| < 0x100)
    modifies w, w.output
    ensures w.Valid() && ok == (|old(w.written)| + |ValueBytes(value)| <= w.Limit())
    ensures ok ==> w.written == old(w.written) + ValueBytes(value)
  {
    match value {
      case NoValue => ok := true;
      case Numeric(bits) => ok := AppendBigEndian(w, bits, 8);
      case Boolean(flag) => ok := AppendByte(w, Flag(flag));
      case Text(text) => ok := AppendString(w, text);
    }
  }

  method WriteTrailer(w: Writer, t: Trailer) returns (ok: bool)
    requires w.Valid() && |t.unit| < 0x100
    modifies w, w.output
    ensures w.Valid() && ok == (|old(w.written)| + |TrailerBytes(t)| <= w.Limit())
    ensures ok ==> w.written == old(w.written) + TrailerBytes(t)
  {
    ok := AppendString(w, t.unit);
    if !ok { return; }
    ok := AppendByte(w, t.source);
    if !ok { return; }
    ok := AppendByte(w, t.quality);
    if !ok { return; }
    ok := AppendByte(w, t.availability);
    if !ok { return; }
    ok := AppendBigEndian(w, t.timestampMs, 8);
    RegroupFive(old(w.written), Str(t.unit), [t.source], [t.quality], [t.availability],
                ToBigEndian(t.timestampMs, 8));
  }

  method AppendByte(w: Writer, value: Byte) returns (ok: bool)
    requires w.Valid()
    modifies w, w.output
    ensures w.Valid() && ok == (|old(w.written)| + 1 <= w.Limit())
    ensures ok ==> w.written == old(w.written) + [value]
  {
    ok := w.Append([value]);
  }

  // Most significant byte first; the width is two, four or eight bytes.
  method AppendBigEndian(w: Writer, value: nat, width: nat) returns (ok: bool)
    requires w.Valid()
    modifies w, w.output
    ensures w.Valid() && ok == (|old(w.written)| + width <= w.Limit())
    ensures ok ==> w.written == old(w.written) + ToBigEndian(value, width)
  {
    ghost var bytes := ToBigEndian(value, width);
    for index := 0 to width
      invariant w.Valid() && w.written == old(w.written) + bytes[..index]
    {
      BigEndianAt(value, width, index);
      ok := AppendByte(w, Shifted(value, width - 1 - index) % 0x100);
      if !ok { return; }
    }
    ok := true;
  }

  method AppendString(w: Writer, text: seq<Byte>) returns (ok: bool)
    requires w.Valid()
    modifies w, w.output
    ensures w.Valid() && ok == (|text| < 0x100 && |old(w.written)| + 1 + |text| <= w.Limit())
    ensures ok ==> w.written == old(w.written) + Str(text)
  {
    if |text| > 0xFF {
      return false;
    }
    ok := AppendByte(w, |text|);
    if !ok { return; }
    ok := w.Append(text);
  }
}
