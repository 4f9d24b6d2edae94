/** The web response serializer: measure first, then write all of the text or none of it. */
module WebResponse {
  import opened Types
  import opened VehicleData
  import opened ReadModel
  import opened Decimal
  import opened Buffers
  import opened BoundedWriter
  import opened JsonText
  import opened WebResponseSpec
  import opened WebResponseText

  datatype SerializationStatus = Serialized | InsufficientCapacity | InvalidInput

  // ---- Tokens ----

  method AppendLiteral(w: Writer, text: string) returns (ok: bool)
    requires w.Valid()
    modifies w, w.output
    ensures w.Valid() && ok == (|old(w.written)| + |text| <= w.Limit())
    ensures ok ==> w.written == old(w.written) + Ascii(text)
  {
    ok := w.Append(Ascii(text));
  }

  /** The bytes of a C string before its terminator, escaped and quoted. */
  method AppendQuoted(w: Writer, text: seq<Byte>) returns (ok: bool)
    requires w.Valid()
    modifies w, w.output
    ensures w.Valid() && ok == (|old(w.written)| + |Quoted(text)| <= w.Limit())
    ensures ok ==> w.written == old(w.written) + Quoted(text)
  {
    ok := w.Append([QUOTE]);
    if !ok { return; }
    for cursor := 0 to |text|
      invariant w.Valid() && w.written == old(w.written) + [QUOTE] + EscapeAll(text[..cursor])
      invariant |old(w.written)| + 1 + |EscapeAll(text[..cursor])| <= w.Limit()
    {
      OneMoreByte(text, cursor);
      Regroup(old(w.written) + [QUOTE], EscapeAll(text[..cursor]), Escape(text[cursor]));
      ok := w.Append(Escape(text[cursor]));
      if !ok { return; }
    }
    assert text[..|text|] == text;
    InTurn(old(w.written), [QUOTE], EscapeAll(text), [QUOTE]);
    ok := w.Append([QUOTE]);
  }

  lemma OneMoreByte(text: seq<Byte>, k: nat)
    requires k < |text|
    ensures EscapeAll(text[..k + 1]) == EscapeAll(text[..k]) + Escape(text[k])
    ensures |EscapeAll(text[..k + 1])| <= |EscapeAll(text)|
  {
    EscapeJoin(text[..k], [text[k]]);
    assert text[..k] + [text[k]] == text[..k + 1];
    EscapeJoin(text[..k + 1], text[k + 1..]);
    assert text[..k + 1] + text[k + 1..] == text;
  }

  method AppendUnsigned(w: Writer, value: U64) returns (ok: bool)
    requires w.Valid()
    modifies w, w.output
    ensures w.Valid() && ok == (|old(w.written)| + |Digits(value)| <= w.Limit())
    ensures ok ==> w.written == old(w.written) + Digits(value)
  {
    var digits := Digits(value);
    TwentyDigits(value);
    ok := w.Append(digits);
  }

  // A token longer than the conversion buffer would be refused; Sound says there is none.
  method AppendNumber(w: Writer, bits: U64, f: NumberFormat) returns (ok: bool)
    requires w.Valid() && f.Sound()
    modifies w, w.output
    ensures w.Valid()
    ensures ok <==> Finite(bits) && |old(w.written)| + |f.show(bits)| <= w.Limit()
    ensures ok ==> w.written == old(w.written) + f.show(bits)
  {
    if !Finite(bits) {
      return false;
    }
    ok := w.Append(f.show(bits));
  }

  method AppendLabel(w: Writer, lead: Byte, name: string) returns (ok: bool)
    requires w.Valid() && lead < 0x80 && PlainName(name)
    modifies w, w.output
    ensures w.Valid() && ok == (|old(w.written)| + |Key(lead, name)| <= w.Limit())
    ensures ok ==> w.written == old(w.written) + Key(lead, name)
  {
    LabelIsKey(lead, name);
    ok := AppendLiteral(w, [lead as char] + Label(name));
  }

  method AppendTextMember(w: Writer, lead: Byte, name: string, text: seq<Byte>) returns (ok: bool)
    requires w.Valid() && lead < 0x80 && PlainName(name)
    modifies w, w.output
    ensures w.Valid()
    ensures ok == (|old(w.written)| + |Led(lead, TextMember(name, text))| <= w.Limit())
    ensures ok ==> w.written == old(w.written) + Led(lead, TextMember(name, text))
  {
    LedIsKeyed(lead, name, Json.Text(text));
    ok := AppendLabel(w, lead, name);
    if !ok { return; }
    ok := AppendQuoted(w, text);
    Regroup(old(w.written), Key(lead, name), Quoted(text));
  }

  // ---- Capabilities ----

  method WriteCapability(w: Writer, d: Descriptor) returns (ok: bool)
    requires w.Valid() && ProperDescriptor(d)
    modifies w, w.output
    ensures w.Valid() && ok == (|old(w.written)| + |Print(CapabilityDoc(d))| <= w.Limit())
    ensures ok ==> w.written == old(w.written) + Print(CapabilityDoc(d))
  {
    CapabilityText(d);
    NamesArePlain();
    ok := AppendTextMember(w, LBRACE, "signalId", d.identity);
    if !ok { return; }
    ok := AppendTextMember(w, COMMA, "valueType", Ascii(VALUE_TYPES[d.expectedType]));
    if !ok { return; }
    ok := AppendTextMember(w, COMMA, "unit", d.unit);
    if !ok { return; }
    ok := AppendTextMember(w, COMMA, "support", Ascii(SUPPORTS[d.support]));
    if !ok { return; }
    ok := AppendLiteral(w, "}");
    ghost var first := Led(LBRACE, TextMember("signalId", d.identity));
    ghost var second := Led(COMMA, NamedMember("valueType", VALUE_TYPES, d.expectedType));
    ghost var third := Led(COMMA, TextMember("unit", d.unit));
    ghost var fourth := Led(COMMA, NamedMember("support", SUPPORTS, d.support));
    InTurn(old(w.written), first, second, third);
    InTurn(old(w.written), first + second + third, fourth, [RBRACE]);
  }

  // ---- Samples ----

  method WriteTexts(w: Writer, s: WebSample) returns (ok: bool)
    requires w.Valid()
    modifies w, w.output
    ensures w.Valid() && ok == (|old(w.written)| + 1 + |PrintMembers(TextMembers(s))| <= w.Limit())
    ensures ok ==> w.written == old(w.written) + ([LBRACE] + PrintMembers(TextMembers(s)))
  {
    TextsText(s);
    NamesArePlain();
    ok := AppendTextMember(w, LBRACE, "signalId", s.signalId);
    if !ok { return; }
    ok := AppendTextMember(w, COMMA, "unit", s.unit);
  }

  method WriteValue(w: Writer, value: Value, f: NumberFormat) returns (ok: bool)
    requires w.Valid() && f.Sound() && (value.Numeric? ==> Finite(value.bits))
    modifies w, w.output
    ensures w.Valid() && ok == (|old(w.written)| + |More(ValueMembers(value, f))| <= w.Limit())
    ensures ok ==> w.written == old(w.written) + More(ValueMembers(value, f))
  {
    if value == NoValue {
      return true;
    }
    ValueText(value, f);
    NamesArePlain();
    ok := AppendTextMember(w, COMMA, "valueType", Ascii(VALUE_TYPES[value.TypeCode()]));
    if !ok { return; }
    ok := AppendLabel(w, COMMA, "value");
    if !ok { return; }
    ok := AppendValue(w, value, f);
    InTurn(old(w.written), Led(COMMA, NamedMember("valueType", VALUE_TYPES, value.TypeCode())),
           Key(COMMA, "value"), Print(ValueDoc(value, f)));
  }

  method AppendValue(w: Writer, value: Value, f: NumberFormat) returns (ok: bool)
    requires w.Valid() && f.Sound() && value != NoValue && (value.Numeric? ==> Finite(value.bits))
    modifies w, w.output
    ensures w.Valid() && ok == (|old(w.written)| + |Print(ValueDoc(value, f))| <= w.Limit())
    ensures ok ==> w.written == old(w.written) + Print(ValueDoc(value, f))
  {
    match value {
      case Numeric(bits) => ok := AppendNumber(w, bits, f);
      case Boolean(flag) => ok := AppendLiteral(w, if flag then "true" else "false");
      case Text(text) => ok := AppendQuoted(w, text);
    }
  }

  method WriteState(w: Writer, s: WebSample) returns (ok: bool)
    requires w.Valid() && ProperSample(s)
    modifies w, w.output
    ensures w.Valid() && ok == (|old(w.written)| + |More(StateMembers(s))| + 1 <= w.Limit())
    ensures ok ==> w.written == old(w.written) + More(StateMembers(s)) + [RBRACE]
  {
    StateText(s);
    NamesArePlain();
    ok := AppendTextMember(w, COMMA, "source", Ascii(SOURCES[s.source]));
    if !ok { return; }
    ok := AppendTextMember(w, COMMA, "quality", Ascii(QUALITIES[s.quality]));
    if !ok { return; }
    ok := AppendTextMember(w, COMMA, "availability", Ascii(AVAILABILITIES[s.availability]));
    if !ok { return; }
    ok := WriteTime(w, s.timestampMs);
    ghost var first := Led(COMMA, NamedMember("source", SOURCES, s.source));
    ghost var second := Led(COMMA, NamedMember("quality", QUALITIES, s.quality));
    ghost var third := Led(COMMA, NamedMember("availability", AVAILABILITIES, s.availability));
    InTurn(old(w.written), first, second, third);
    Regroup(old(w.written), first + second + third, Led(COMMA, TextMember("timestampMs", Digits(s.timestampMs))));
  }

  // The quotes around the digits are part of the neighbouring literals.
  method WriteTime(w: Writer, timestampMs: U64) returns (ok: bool)
    requires w.Valid()
    modifies w, w.output
    ensures w.Valid()
    ensures ok == (|old(w.written)| + |Led(COMMA, TextMember("timestampMs", Digits(timestampMs)))| + 1 <= w.Limit())
    ensures ok ==> w.written == old(w.written) + Led(COMMA, TextMember("timestampMs", Digits(timestampMs))) + [RBRACE]
  {
    TimeText(timestampMs);
    ok := AppendLiteral(w, [COMMA as char] + Label("timestampMs") + "\"");
    if !ok { return; }
    ok := AppendUnsigned(w, timestampMs);
    if !ok { return; }
    ok := AppendLiteral(w, "\"}");
    InTurn(old(w.written), Ascii([COMMA as char] + Label("timestampMs") + "\""), Digits(timestampMs), Ascii("\"}"));
    Regroup(old(w.written), Led(COMMA, TextMember("timestampMs", Digits(timestampMs))), [RBRACE]);
  }

  method WriteSample(w: Writer, s: WebSample, f: NumberFormat) returns (ok: bool)
    requires w.Valid() && f.Sound() && ProperSample(s)
    modifies w, w.output
    ensures w.Valid() && ok == (|old(w.written)| + |Print(SampleDoc(s, f))| <= w.Limit())
    ensures ok ==> w.written == old(w.written) + Print(SampleDoc(s, f))
  {
    SampleText(s, f);
    ok := WriteTexts(w, s);
    if !ok { return; }
    ok := WriteValue(w, s.value, f);
    if !ok { return; }
    ok := WriteState(w, s);
    ghost var texts, value := [LBRACE] + PrintMembers(TextMembers(s)), More(ValueMembers(s.value, f));
    InTurn(old(w.written), texts, value, More(StateMembers(s)));
    Regroup(old(w.written), texts + value + More(StateMembers(s)), [RBRACE]);
  }

  // ---- Lists ----

  // The text grows by one more item of a list.
  lemma OneMoreItem(base: seq<Byte>, items: seq<Json>, k: nat)
    requires k < |items|
    ensures PrintItems(items[..k + 1])
         == PrintItems(items[..k]) + (if k == 0 then [] else [COMMA]) + Print(items[k])
    ensures base + PrintItems(items[..k + 1])
         == base + PrintItems(items[..k]) + (if k == 0 then [] else [COMMA]) + Print(items[k])
    ensures |PrintItems(items[..k + 1])| <= |PrintItems(items)|
  {
    assert items[..k + 1] == items[..k] + [items[k]];
    ItemsSnoc(items[..k], items[k]);
    InTurn(base, PrintItems(items[..k]), if k == 0 then [] else [COMMA], Print(items[k]));
    ItemsGrow(items, k + 1);
  }

  method AppendComma(w: Writer, index: nat) returns (ok: bool)
    requires w.Valid()
    modifies w, w.output
    ensures w.Valid() && ok == (|old(w.written)| + (if index == 0 then 0 else 1) <= w.Limit())
    ensures ok ==> w.written == old(w.written) + (if index == 0 then [] else [COMMA])
  {
    ok := true;
    if index != 0 {
      ok := w.Append([COMMA]);
    }
  }

  method WriteCapabilities(w: Writer, capabilities: array?<Descriptor>, count: nat, ghost ds: seq<Descriptor>)
    returns (ok: bool)
    requires w.Valid() && Holds(capabilities, count, ds)
    requires forall i :: 0 <= i < |ds| ==> ProperDescriptor(ds[i])
    modifies w, w.output
    ensures w.Valid() && ok == (|old(w.written)| + |PrintItems(CapabilityDocs(ds))| <= w.Limit())
    ensures ok ==> w.written == old(w.written) + PrintItems(CapabilityDocs(ds))
  {
    ghost var base, docs := w.written, CapabilityDocs(ds);
    for index := 0 to count
      invariant w.Valid() && w.written == base + PrintItems(docs[..index])
    {
      OneMoreItem(base, docs, index);
      ok := AppendComma(w, index);
      if !ok { return; }
      ok := WriteCapability(w, capabilities[index]);
      if !ok { return; }
    }
    assert docs[..count] == docs;
    ok := true;
  }

  method WriteSamples(w: Writer, samples: array?<Sample>, count: nat, f: NumberFormat, ghost ss: seq<Sample>)
    returns (ok: bool)
    requires w.Valid() && f.Sound() && Holds(samples, count, ss)
    requires forall i :: 0 <= i < |ss| ==> ProperSample(ShownAll(ss)[i])
    modifies w, w.output
    ensures w.Valid() && ok == (|old(w.written)| + |PrintItems(SampleDocs(ShownAll(ss), f))| <= w.Limit())
    ensures ok ==> w.written == old(w.written) + PrintItems(SampleDocs(ShownAll(ss), f))
  {
    ghost var base, docs := w.written, SampleDocs(ShownAll(ss), f);
    for index := 0 to count
      invariant w.Valid() && w.written == base + PrintItems(docs[..index])
    {
      OneMoreItem(base, docs, index);
      ok := AppendComma(w, index);
      if !ok { return; }
      ok := WriteSample(w, Shown(samples[index]), f);
      if !ok { return; }
    }
    assert docs[..count] == docs;
    ok := true;
  }

  // ---- The response ----

  method WriteIdentity(w: Writer, identity: Option<U32>) returns (ok: bool)
    requires w.Valid()
    modifies w, w.output
    ensures w.Valid() && ok == (|old(w.written)| + |More(IdentityMembers(identity))| <= w.Limit())
    ensures ok ==> w.written == old(w.written) + More(IdentityMembers(identity))
  {
    if identity.None? {
      return true;
    }
    LongNamesArePlain();
    LedIsKeyed(COMMA, "activeProfileId", Number(Digits(identity.value)));
    Regroup(old(w.written), Key(COMMA, "activeProfileId"), Digits(identity.value));
    ok := AppendLabel(w, COMMA, "activeProfileId");
    if !ok { return; }
    ok := AppendUnsigned(w, identity.value);
  }

  method WriteRegistry(w: Writer, hasRegistry: bool, capabilities: array?<Descriptor>, count: nat,
                       ghost ds: seq<Descriptor>) returns (ok: bool)
    requires w.Valid() && Holds(capabilities, count, ds)
    requires forall i :: 0 <= i < |ds| ==> ProperDescriptor(ds[i])
    modifies w, w.output
    ensures w.Valid()
    ensures var doc := CapabilitiesDoc(if hasRegistry then Some(ds) else None);
      && ok == (|old(w.written)| + |Led(COMMA, Member(Ascii("capabilities"), doc))| <= w.Limit())
      && (ok ==> w.written == old(w.written) + Led(COMMA, Member(Ascii("capabilities"), doc)))
  {
    ghost var doc := CapabilitiesDoc(if hasRegistry then Some(ds) else None);
    LongNamesArePlain();
    LedIsKeyed(COMMA, "capabilities", doc);
    Regroup(old(w.written), Key(COMMA, "capabilities"), Print(doc));
    ok := AppendLabel(w, COMMA, "capabilities");
    if !ok { return; }
    if !hasRegistry {
      ok := AppendLiteral(w, "null");
      return;
    }
    ok := WriteCapabilityArray(w, capabilities, count, ds);
  }

  method WriteCapabilityArray(w: Writer, capabilities: array?<Descriptor>, count: nat, ghost ds: seq<Descriptor>)
    returns (ok: bool)
    requires w.Valid() && Holds(capabilities, count, ds)
    requires forall i :: 0 <= i < |ds| ==> ProperDescriptor(ds[i])
    modifies w, w.output
    ensures w.Valid() && ok == (|old(w.written)| + |Print(Array(CapabilityDocs(ds)))| <= w.Limit())
    ensures ok ==> w.written == old(w.written) + Print(Array(CapabilityDocs(ds)))
  {
    ok := AppendLiteral(w, "[");
    if !ok { return; }
    ok := WriteCapabilities(w, capabilities, count, ds);
    if !ok { return; }
    ok := AppendLiteral(w, "]");
    Brackets();
    InTurn(old(w.written), [LBRACKET], PrintItems(CapabilityDocs(ds)), [RBRACKET]);
  }

  lemma Brackets()
    ensures Ascii("[") == [LBRACKET] && Ascii("]") == [RBRACKET] && Ascii("}") == [RBRACE]
  {
  }

  method WriteSampleArray(w: Writer, samples: array?<Sample>, count: nat, f: NumberFormat, ghost ss: seq<Sample>)
    returns (ok: bool)
    requires w.Valid() && f.Sound() && Holds(samples, count, ss)
    requires forall i :: 0 <= i < |ss| ==> ProperSample(ShownAll(ss)[i])
    modifies w, w.output
    ensures w.Valid() && ok == (|old(w.written)| + |Print(Array(SampleDocs(ShownAll(ss), f)))| <= w.Limit())
    ensures ok ==> w.written == old(w.written) + Print(Array(SampleDocs(ShownAll(ss), f)))
  {
    ok := AppendLiteral(w, "[");
    if !ok { return; }
    ok := WriteSamples(w, samples, count, f, ss);
    if !ok { return; }
    ok := AppendLiteral(w, "]");
    Brackets();
    InTurn(old(w.written), [LBRACKET], PrintItems(SampleDocs(ShownAll(ss), f)), [RBRACKET]);
  }

  method WriteSampleList(w: Writer, samples: array?<Sample>, count: nat, f: NumberFormat, ghost ss: seq<Sample>)
    returns (ok: bool)
    requires w.Valid() && f.Sound() && Holds(samples, count, ss)
    requires forall i :: 0 <= i < |ss| ==> ProperSample(ShownAll(ss)[i])
    modifies w, w.output
    ensures w.Valid()
    ensures var doc := Array(SampleDocs(ShownAll(ss), f));
      && ok == (|old(w.written)| + |Led(COMMA, Member(Ascii("samples"), doc))| <= w.Limit())
      && (ok ==> w.written == old(w.written) + Led(COMMA, Member(Ascii("samples"), doc)))
  {
    ghost var doc := Array(SampleDocs(ShownAll(ss), f));
    LongNamesArePlain();
    LedIsKeyed(COMMA, "samples", doc);
    Regroup(old(w.written), Key(COMMA, "samples"), Print(doc));
    ok := AppendLabel(w, COMMA, "samples");
    if !ok { return; }
    ok := WriteSampleArray(w, samples, count, f, ss);
  }

  method WriteHead(w: Writer, selection: Byte, identity: Option<U32>) returns (ok: bool)
    requires w.Valid() && ValidSelection(selection)
    modifies w, w.output
    ensures w.Valid() && ok == (|old(w.written)| + |Head(selection, identity)| <= w.Limit())
    ensures ok ==> w.written == old(w.written) + Head(selection, identity)
  {
    LongNamesArePlain();
    ok := AppendTextMember(w, LBRACE, "profileSelection", Ascii(SELECTIONS[selection]));
    if !ok { return; }
    ok := WriteIdentity(w, identity);
    Regroup(old(w.written), Led(LBRACE, NamedMember("profileSelection", SELECTIONS, selection)),
            More(IdentityMembers(identity)));
  }

  method WriteResponse(w: Writer, m: Snapshot, capabilities: array?<Descriptor>, samples: array?<Sample>,
                       f: NumberFormat, ghost ds: seq<Descriptor>, ghost ss: seq<Sample>) returns (ok: bool)
    requires w.Valid() && f.Sound() && Proper(ResponseOf(m, ds, ss))
    requires Holds(capabilities, m.capabilityCount, ds) && Holds(samples, m.sampleCount, ss)
    requires m.hasRegistry || ds == []
    modifies w, w.output
    ensures w.Valid() && ok == (|old(w.written)| + |Print(Doc(ResponseOf(m, ds, ss), f))| <= w.Limit())
    ensures ok ==> w.written == old(w.written) + Print(Doc(ResponseOf(m, ds, ss), f))
  {
    ghost var r := ResponseOf(m, ds, ss);
    ResponseText(r, f);
    Brackets();
    ok := WriteMembers(w, m, capabilities, samples, f, ds, ss);
    if !ok { return; }
    ok := AppendLiteral(w, "}");
    Regroup(old(w.written), Head(r.selection, r.activeIdentity) + ListsText(r, f), [RBRACE]);
  }

  method WriteMembers(w: Writer, m: Snapshot, capabilities: array?<Descriptor>, samples: array?<Sample>,
                      f: NumberFormat, ghost ds: seq<Descriptor>, ghost ss: seq<Sample>) returns (ok: bool)
    requires w.Valid() && f.Sound() && Proper(ResponseOf(m, ds, ss))
    requires Holds(capabilities, m.capabilityCount, ds) && Holds(samples, m.sampleCount, ss)
    requires m.hasRegistry || ds == []
    modifies w, w.output
    ensures w.Valid()
    ensures var r := ResponseOf(m, ds, ss); var text := Head(r.selection, r.activeIdentity) + ListsText(r, f);
      ok == (|old(w.written)| + |text| <= w.Limit()) && (ok ==> w.written == old(w.written) + text)
  {
    ghost var r := ResponseOf(m, ds, ss);
    ok := WriteHead(w, m.selection, m.activeIdentity);
    if !ok { return; }
    ok := WriteLists(w, m, capabilities, samples, f, ds, ss);
    Regroup(old(w.written), Head(r.selection, r.activeIdentity), ListsText(r, f));
  }

  method WriteLists(w: Writer, m: Snapshot, capabilities: array?<Descriptor>, samples: array?<Sample>,
                    f: NumberFormat, ghost ds: seq<Descriptor>, ghost ss: seq<Sample>) returns (ok: bool)
    requires w.Valid() && f.Sound() && Proper(ResponseOf(m, ds, ss))
    requires Holds(capabilities, m.capabilityCount, ds) && Holds(samples, m.sampleCount, ss)
    requires m.hasRegistry || ds == []
    modifies w, w.output
    ensures w.Valid() && ok == (|old(w.written)| + |ListsText(ResponseOf(m, ds, ss), f)| <= w.Limit())
    ensures ok ==> w.written == old(w.written) + ListsText(ResponseOf(m, ds, ss), f)
  {
    ghost var r := ResponseOf(m, ds, ss);
    ok := WriteRegistry(w, m.hasRegistry, capabilities, m.capabilityCount, ds);
    if !ok { return; }
    ok := WriteSampleList(w, samples, m.sampleCount, f, ss);
    Regroup(old(w.written), Led(COMMA, Member(Ascii("capabilities"), CapabilitiesDoc(r.capabilities))),
            Led(COMMA, Member(Ascii("samples"), Array(SampleDocs(r.samples, f)))));
  }

  method ValidateInput(m: Snapshot, capabilities: array?<Descriptor>, samples: array?<Sample>) returns (ok: bool)
    requires capabilities != null ==> m.capabilityCount <= capabilities.Length
    requires samples != null ==> m.sampleCount <= samples.Length
    ensures ok <==>
      && (m.capabilityCount > 0 ==> capabilities != null) && (m.sampleCount > 0 ==> samples != null)
      && ValidInput(m, Prefix(capabilities, m.capabilityCount), Prefix(samples, m.sampleCount))
  {
    if !ValidMetadata(m) || (m.capabilityCount != 0 && capabilities == null)
       || (m.sampleCount != 0 && samples == null) {
      return false;
    }
    for index := 0 to m.capabilityCount
      invariant forall i :: 0 <= i < index ==> ProperDescriptor(Prefix(capabilities, m.capabilityCount)[i])
    {
      assert Prefix(capabilities, m.capabilityCount)[index] == capabilities[index];
      if !ProperDescriptor(capabilities[index]) {
        return false;
      }
    }
    for index := 0 to m.sampleCount
      invariant forall i :: 0 <= i < index ==> ValidSample(Prefix(samples, m.sampleCount)[i])
    {
      assert Prefix(samples, m.sampleCount)[index] == samples[index];
      if !ValidSample(samples[index]) {
        return false;
      }
    }
    return true;
  }

  // The text of the response to a call, if the call is valid.
  ghost function ResponseBytes(m: Snapshot, capabilities: array?<Descriptor>, samples: array?<Sample>,
                               f: NumberFormat): Option<seq<Byte>>
    requires capabilities != null ==> m.capabilityCount <= capabilities.Length
    requires samples != null ==> m.sampleCount <= samples.Length
    reads capabilities, samples
  {
    if (m.capabilityCount > 0 ==> capabilities != null) && (m.sampleCount > 0 ==> samples != null)
       && ValidInput(m, Prefix(capabilities, m.capabilityCount), Prefix(samples, m.sampleCount)) then
      TextOf(m, Prefix(capabilities, m.capabilityCount), Prefix(samples, m.sampleCount), f)
    else None
  }

  function TextOf(m: Snapshot, ds: seq<Descriptor>, ss: seq<Sample>, f: NumberFormat): Option<seq<Byte>>
    requires ValidInput(m, ds, ss)
  {
    ValidIsProper(m, ds, ss);
    Some(Print(Doc(ResponseOf(m, ds, ss), f)))
  }

  /** Either the whole terminated text is in the buffer, or the buffer is untouched. */
  method Serialize(m: Snapshot, capabilities: array?<Descriptor>, samples: array?<Sample>, f: NumberFormat,
                   output: array?<Byte>, capacity: nat) returns (status: SerializationStatus, required: nat)
    requires f.Sound()
    requires capabilities != null ==> m.capabilityCount <= capabilities.Length
    requires samples != null ==> m.sampleCount <= samples.Length
    requires capacity <= SIZE_MAX && (output != null ==> capacity <= output.Length)
    modifies output
    ensures match old(ResponseBytes(m, capabilities, samples, f))
      case None => status == InvalidInput && required == 0
      case Some(text) =>
        if |text| >= SIZE_MAX then status == InvalidInput && required == 0
        else
          && required == |text| + 1
          && status == (if capacity < required then InsufficientCapacity
                        else if output == null then InvalidInput else Serialized)
          && (status == Serialized ==> output[..] == text + [0] + old(output[|text| + 1..]))
    ensures status != Serialized && output != null ==> output[..] == old(output[..])
  {
    var ok := ValidateInput(m, capabilities, samples);
    if !ok {
      return InvalidInput, 0;
    }
    ghost var ds, ss := Prefix(capabilities, m.capabilityCount), Prefix(samples, m.sampleCount);
    ghost var text := TextOf(m, ds, ss, f).value;
    assert ResponseBytes(m, capabilities, samples, f) == Some(text);
    var size;
    ok, size := Measure(m, capabilities, samples, f, ds, ss);
    if !ok || size == SIZE_MAX {
      return InvalidInput, 0;
    }
    required := size + 1;
    if capacity < required {
      return InsufficientCapacity, required;
    }
    if output == null {
      return InvalidInput, required;
    }
    status := Deliver(m, capabilities, samples, f, ds, ss, output, capacity, size);
  }

  method Measure(m: Snapshot, capabilities: array?<Descriptor>, samples: array?<Sample>, f: NumberFormat,
                 ghost ds: seq<Descriptor>, ghost ss: seq<Sample>) returns (ok: bool, size: nat)
    requires f.Sound() && ValidInput(m, ds, ss)
    requires Holds(capabilities, m.capabilityCount, ds) && Holds(samples, m.sampleCount, ss)
    ensures ok <==> |TextOf(m, ds, ss, f).value| <= SIZE_MAX
    ensures ok ==> size == |TextOf(m, ds, ss, f).value|
  {
    ValidIsProper(m, ds, ss);
    var sizing := new Writer(null, 0);
    ok := WriteResponse(sizing, m, capabilities, samples, f, ds, ss);
    size := sizing.size;
  }

  method WriteText(m: Snapshot, capabilities: array?<Descriptor>, samples: array?<Sample>, f: NumberFormat,
                   ghost ds: seq<Descriptor>, ghost ss: seq<Sample>, output: array<Byte>, capacity: nat, size: nat)
    returns (ok: bool)
    requires f.Sound() && ValidInput(m, ds, ss)
    requires Holds(capabilities, m.capabilityCount, ds) && Holds(samples, m.sampleCount, ss)
    requires size == |TextOf(m, ds, ss, f).value| <= capacity <= output.Length && capacity <= SIZE_MAX
    modifies output
    ensures ok && Written(output[..], TextOf(m, ds, ss, f).value, old(output[..]))
  {
    ValidIsProper(m, ds, ss);
    ghost var text := TextOf(m, ds, ss, f).value;
    var writer := new Writer(output, capacity);
    ok := WriteResponse(writer, m, capabilities, samples, f, ds, ss);
    assert ok && writer.written == text by {
      assert [] + text == text;
    }
    ok := ok && writer.size == size;
  }

  method Deliver(m: Snapshot, capabilities: array?<Descriptor>, samples: array?<Sample>, f: NumberFormat,
                 ghost ds: seq<Descriptor>, ghost ss: seq<Sample>, output: array<Byte>, capacity: nat, size: nat)
    returns (status: SerializationStatus)
    requires f.Sound() && ValidInput(m, ds, ss)
    requires Holds(capabilities, m.capabilityCount, ds) && Holds(samples, m.sampleCount, ss)
    requires size == |TextOf(m, ds, ss, f).value| < capacity <= output.Length && capacity <= SIZE_MAX
    modifies output
    ensures status == Serialized
    ensures output[..] == TextOf(m, ds, ss, f).value + [0] + old(output[size + 1..])
  {
    ghost var text := TextOf(m, ds, ss, f).value;
    var ok := WriteText(m, capabilities, samples, f, ds, ss, output, capacity, size);
    status := if ok then Serialized else InvalidInput;
    Terminated(output[..], text, old(output[..]));
    output[size] := 0;
  }

  lemma Terminated(before: seq<Byte>, text: seq<Byte>, was: seq<Byte>)
    requires Written(before, text, was) && |text| < |was|
    ensures before[|text| := 0] == text + [0] + was[|text| + 1..]
  {
  }
}
