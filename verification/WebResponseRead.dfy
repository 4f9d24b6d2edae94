/** The client reads back from the document exactly what the response shows. */
module WebResponseRead {
  import opened Types
  import opened Utf8
  import opened VehicleData
  import opened ReadModel
  import opened Decimal
  import opened JsonText
  import opened JsonUtf8
  import opened WebResponseSpec
  import opened WebResponseText

  /** What is relied on about numbers can be had: their bit patterns in decimal digits, for one. */
  lemma SoundFormatExists()
    ensures exists f: NumberFormat :: f.Sound()
  {
    var f := NumberFormat(bits => Digits(bits), BitsOf);
    forall bits: U64 | Finite(bits)
      ensures NumberToken(f.show(bits)) && |f.show(bits)| <= 32 && f.read(f.show(bits)) == Some(bits)
    {
      TwentyDigits(bits);
      DigitsAreRead(bits);
    }
    assert f.Sound();
  }

  function BitsOf(token: seq<Byte>): Option<U64> {
    var v := ReadDigits(token);
    if v.Some? && v.value <= MAX_U64 then Some(v.value) else None
  }

  // ---- Names ----

  // The client knows every name the writer uses, by the same code.
  predicate Known(names: seq<string>, codes: map<string, Byte>) {
    forall i :: 0 <= i < |names| ==> names[i] in codes && codes[names[i]] == i
  }

  lemma CharactersOfAscii(name: string)
    requires forall i :: 0 <= i < |name| ==> name[i] < 128 as char
    ensures Characters(Ascii(name)) == name
  {
  }

  predicate Plain(names: seq<string>) {
    forall i :: 0 <= i < |names| ==> forall k :: 0 <= k < |names[i]| ==> names[i][k] < 128 as char
  }

  lemma SelectionsAreKnown()
    ensures Known(SELECTIONS, SELECTION_CODES) && Plain(SELECTIONS)
  {
  }

  lemma ValueTypesAreKnown()
    ensures Known(VALUE_TYPES, VALUE_TYPE_CODES) && Plain(VALUE_TYPES)
  {
    assert "none"[0] != "text"[0];
    assert "numeric"[0] != "boolean"[0];
  }

  lemma SupportsAreKnown()
    ensures Known(SUPPORTS, SUPPORT_CODES) && Plain(SUPPORTS)
  {
    assert "pending"[0] != "unknown"[0];
  }

  lemma AvailabilitiesAreKnown()
    ensures Known(AVAILABILITIES, AVAILABILITY_CODES) && Plain(AVAILABILITIES)
  {
    assert "unsupported"[2] != "unavailable"[2];
    assert "pending"[0] != "unknown"[0];
  }

  lemma QualitiesAreKnown()
    ensures Known(QUALITIES, QUALITY_CODES) && Plain(QUALITIES)
  {
  }

  lemma SourcesAreKnown()
    ensures Known(SOURCES, SOURCE_CODES) && Plain(SOURCES)
  {
    assert "obd"[0] != "uds"[0];
    assert "derived"[0] != "unknown"[0];
  }

  // ---- Members ----

  lemma {:induction false} LookupIs(members: seq<Member>, k: nat)
    requires k < |members| && forall i :: 0 <= i < k ==> members[i].key != members[k].key
    ensures Lookup(members, members[k].key) == Some(members[k].value)
  {
    if k > 0 {
      LookupIs(members[1..], k - 1);
    }
  }

  lemma {:induction false} LookupMisses(members: seq<Member>, key: seq<Byte>)
    requires forall i :: 0 <= i < |members| ==> members[i].key != key
    ensures Lookup(members, key) == None
  {
    if members != [] {
      LookupMisses(members[1..], key);
    }
  }

  // The name of member k has its own length among the members before it.
  predicate FirstOfItsLength(members: seq<Member>, k: nat) {
    k < |members| && forall i :: 0 <= i < k ==> |members[i].key| != |members[k].key|
  }

  lemma TextAtIs(members: seq<Member>, k: nat, name: string, text: seq<Byte>)
    requires FirstOfItsLength(members, k) && members[k] == TextMember(name, text)
    ensures TextAt(members, name) == Some(text)
  {
    LookupIs(members, k);
  }

  lemma CodeAtIs(members: seq<Member>, k: nat, name: string, names: seq<string>, codes: map<string, Byte>, code: Byte)
    requires code < |names| < 0x100 && Known(names, codes) && Plain(names)
    requires FirstOfItsLength(members, k) && members[k] == NamedMember(name, names, code)
    ensures CodeAt(members, name, codes) == Some(code)
  {
    LookupIs(members, k);
    CharactersOfAscii(names[code]);
  }

  // ---- Capabilities and samples ----

  lemma CapabilityIsRead(d: Descriptor)
    requires ProperDescriptor(d)
    ensures ReadCapability(CapabilityDoc(d)) == Some(d)
  {
    var ms := CapabilityDoc(d).members;
    ValueTypesAreKnown();
    SupportsAreKnown();
    TextAtIs(ms, 0, "signalId", d.identity);
    CodeAtIs(ms, 1, "valueType", VALUE_TYPES, VALUE_TYPE_CODES, d.expectedType);
    TextAtIs(ms, 2, "unit", d.unit);
    CodeAtIs(ms, 3, "support", SUPPORTS, SUPPORT_CODES, d.support);
  }

  lemma SampleIsRead(s: WebSample, f: NumberFormat)
    requires ProperSample(s) && f.Sound()
    ensures ReadSample(SampleDoc(s, f), f) == Some(s)
  {
    var ms := SampleDoc(s, f).members;
    TextsAreRead(s, f);
    StateIsRead(s, f);
    DigitsAreRead(s.timestampMs);
    ValueIsRead(s, f);
  }

  lemma TextsAreRead(s: WebSample, f: NumberFormat)
    requires ProperSample(s)
    ensures var ms := SampleDoc(s, f).members;
      && TextAt(ms, "signalId") == Some(s.signalId) && TextAt(ms, "unit") == Some(s.unit)
      && TextAt(ms, "timestampMs") == Some(Digits(s.timestampMs))
  {
    var ms := SampleDoc(s, f).members;
    TextAtIs(ms, 0, "signalId", s.signalId);
    TextAtIs(ms, 1, "unit", s.unit);
    TextAtIs(ms, |ms| - 1, "timestampMs", Digits(s.timestampMs));
  }

  lemma StateIsRead(s: WebSample, f: NumberFormat)
    requires ProperSample(s)
    ensures var ms := SampleDoc(s, f).members;
      && CodeAt(ms, "source", SOURCE_CODES) == Some(s.source)
      && CodeAt(ms, "quality", QUALITY_CODES) == Some(s.quality)
      && CodeAt(ms, "availability", AVAILABILITY_CODES) == Some(s.availability)
  {
    var ms := SampleDoc(s, f).members;
    var n := |ms| - 4;
    SourcesAreKnown();
    QualitiesAreKnown();
    AvailabilitiesAreKnown();
    CodeAtIs(ms, n, "source", SOURCES, SOURCE_CODES, s.source);
    CodeAtIs(ms, n + 1, "quality", QUALITIES, QUALITY_CODES, s.quality);
    CodeAtIs(ms, n + 2, "availability", AVAILABILITIES, AVAILABILITY_CODES, s.availability);
  }

  lemma ValueIsRead(s: WebSample, f: NumberFormat)
    requires ProperSample(s) && f.Sound()
    ensures ReadValue(SampleDoc(s, f).members, f) == Some(s.value)
  {
    var ms := SampleDoc(s, f).members;
    if s.value == NoValue {
      LookupMisses(ms, Ascii("value"));
      LookupMisses(ms, Ascii("valueType"));
    } else {
      ValueTypesAreKnown();
      CodeAtIs(ms, 2, "valueType", VALUE_TYPES, VALUE_TYPE_CODES, s.value.TypeCode());
      LookupIs(ms, 3);
    }
  }

  lemma {:induction false} CapabilitiesAreRead(items: seq<Json>, ds: seq<Descriptor>)
    requires |items| == |ds| && forall i :: 0 <= i < |ds| ==> ReadCapability(items[i]) == Some(ds[i])
    ensures ReadCapabilities(items) == Some(ds)
  {
    if ds != [] {
      CapabilitiesAreRead(items[1..], ds[1..]);
      assert [ds[0]] + ds[1..] == ds;
    }
  }

  lemma {:induction false} SamplesAreRead(items: seq<Json>, ss: seq<WebSample>, f: NumberFormat)
    requires |items| == |ss| && forall i :: 0 <= i < |ss| ==> ReadSample(items[i], f) == Some(ss[i])
    ensures ReadSamples(items, f) == Some(ss)
  {
    if ss != [] {
      SamplesAreRead(items[1..], ss[1..], f);
      assert [ss[0]] + ss[1..] == ss;
    }
  }

  // ---- The response ----

  lemma DocIsRead(r: Response, f: NumberFormat)
    requires Proper(r) && f.Sound()
    ensures ReadResponse(Doc(r, f), f) == Some(r)
  {
    var ms := Doc(r, f).members;
    SelectionsAreKnown();
    CodeAtIs(ms, 0, "profileSelection", SELECTIONS, SELECTION_CODES, r.selection);
    IdentityIsRead(r, f);
    ListsAreRead(r, f);
  }

  lemma ListsAreRead(r: Response, f: NumberFormat)
    requires Proper(r) && f.Sound()
    ensures ReadRegistry(Doc(r, f).members) == Some(r.capabilities)
    ensures ReadSampleList(Doc(r, f).members, f) == Some(r.samples)
  {
    ListsAreFound(r, f);
    if r.capabilities.Some? {
      var ds := r.capabilities.value;
      forall i | 0 <= i < |ds| ensures ReadCapability(CapabilityDocs(ds)[i]) == Some(ds[i]) {
        CapabilityIsRead(ds[i]);
      }
      CapabilitiesAreRead(CapabilityDocs(ds), ds);
    }
    SampleDocsAreRead(r.samples, f);
  }

  lemma SampleDocsAreRead(ss: seq<WebSample>, f: NumberFormat)
    requires f.Sound() && forall i :: 0 <= i < |ss| ==> ProperSample(ss[i])
    ensures ReadSamples(SampleDocs(ss, f), f) == Some(ss)
  {
    forall i | 0 <= i < |ss| ensures ReadSample(SampleDocs(ss, f)[i], f) == Some(ss[i]) {
      SampleIsRead(ss[i], f);
    }
    SamplesAreRead(SampleDocs(ss, f), ss, f);
  }

  lemma IdentityIsRead(r: Response, f: NumberFormat)
    requires Proper(r)
    ensures ReadIdentity(Doc(r, f).members) == Some(r.activeIdentity)
  {
    var ms := Doc(r, f).members;
    if r.activeIdentity.Some? {
      assert ms[1] == Member(Ascii("activeProfileId"), Number(Digits(r.activeIdentity.value)));
      LookupIs(ms, 1);
      DigitsAreRead(r.activeIdentity.value);
      assert Lookup(ms, Ascii("activeProfileId")) == Some(Number(Digits(r.activeIdentity.value)));
      assert ReadIdentity(ms) == Some(r.activeIdentity);
    } else {
      LookupMisses(ms, Ascii("activeProfileId"));
      assert ReadIdentity(ms) == Some(None);
    }
  }

  lemma ListsAreFound(r: Response, f: NumberFormat)
    requires Proper(r)
    ensures Lookup(Doc(r, f).members, Ascii("capabilities")) == Some(CapabilitiesDoc(r.capabilities))
    ensures Lookup(Doc(r, f).members, Ascii("samples")) == Some(Array(SampleDocs(r.samples, f)))
  {
    var ms := Doc(r, f).members;
    var n := |ms| - 2;
    LookupIs(ms, n);
    LookupIs(ms, n + 1);
  }

  lemma DocIsPrintable(r: Response, f: NumberFormat)
    requires Proper(r) && f.Sound()
    ensures Printable(Doc(r, f))
  {
    var ms := Doc(r, f).members;
    ListsArePrintable(r, f);
    forall i | 0 <= i < |ms| ensures Printable(ms[i].value) {
      if i == 0 {
        assert ms[i] == NamedMember("profileSelection", SELECTIONS, r.selection);
      } else if i < |ms| - 2 {
        assert ms[i].value == Number(Digits(r.activeIdentity.value));
      }
    }
  }

  lemma ListsArePrintable(r: Response, f: NumberFormat)
    requires Proper(r) && f.Sound()
    ensures Printable(CapabilitiesDoc(r.capabilities)) && Printable(Array(SampleDocs(r.samples, f)))
  {
    forall i | 0 <= i < |r.samples| ensures Printable(SampleDocs(r.samples, f)[i]) {
      SampleIsPrintable(r.samples[i], f);
    }
    if r.capabilities.Some? {
      var ds := r.capabilities.value;
      forall i | 0 <= i < |ds| ensures Printable(CapabilityDocs(ds)[i]) {
        assert CapabilityDocs(ds)[i] == CapabilityDoc(ds[i]);
      }
    }
  }

  lemma SampleIsPrintable(s: WebSample, f: NumberFormat)
    requires ProperSample(s) && f.Sound()
    ensures Printable(SampleDoc(s, f))
  {
  }

  /** Parsing the text of a response and reading the document gives the response back. */
  lemma ResponseIsRead(r: Response, f: NumberFormat)
    requires Proper(r) && f.Sound()
    ensures Parse(Print(Doc(r, f))).Some?
    ensures ReadResponse(Parse(Print(Doc(r, f))).value, f) == Some(r)
  {
    DocIsPrintable(r, f);
    ParseInvertsPrint(Doc(r, f));
    DocIsRead(r, f);
  }

  // What the client sees of a sample: everything but a value that is not current knowledge.
  predicate Shows(seen: WebSample, s: Sample) {
    && seen.signalId == s.signalId && seen.unit == s.unit && seen.timestampMs == s.timestampMs
    && seen.source == s.source && seen.quality == s.quality && seen.availability == s.availability
    && seen.value == if s.availability == 0 && s.quality != 2 then s.value else NoValue
  }

  /**
   The same for the text of a valid call: the client reads the selection, the identity exactly
   of a selected profile, the capabilities of a registry and every sample, in order.
   */
  lemma ValidCallIsRead(m: Snapshot, ds: seq<Descriptor>, ss: seq<Sample>, f: NumberFormat)
    requires ValidInput(m, ds, ss) && f.Sound()
    ensures Proper(ResponseOf(m, ds, ss))
    ensures var parsed := Parse(Print(Doc(ResponseOf(m, ds, ss), f)));
      && parsed.Some? && ReadResponse(parsed.value, f).Some?
      && var r := ReadResponse(parsed.value, f).value;
         && r.selection == m.selection && r.activeIdentity == m.activeIdentity
         && (r.selection == 3 <==> r.activeIdentity.Some?)
         && r.capabilities == (if m.hasRegistry then Some(ds) else None)
         && |r.samples| == |ss| && forall i :: 0 <= i < |ss| ==> Shows(r.samples[i], ss[i])
  {
    ValidIsProper(m, ds, ss);
    ResponseIsRead(ResponseOf(m, ds, ss), f);
  }

  // The codes of a sample are known, and a number that is shown is finite.
  predicate Presentable(s: Sample) {
    && s.availability <= 4 && s.quality <= 2 && s.source <= 4
    && (s.value.Numeric? && s.quality != 2 ==> Finite(s.value.bits))
  }

  /** With samples the factories build, these inputs are accepted, and no others. */
  lemma AcceptedExactly(m: Snapshot, ds: seq<Descriptor>, ss: seq<Sample>)
    requires forall i :: 0 <= i < |ss| ==> FactoryBuilt(ss[i])
    ensures ValidInput(m, ds, ss)
       <==> && m.selection <= 3 && (m.selection == 3 <==> m.activeIdentity.Some?)
            && (m.hasRegistry || m.capabilityCount == 0)
            && (forall i :: 0 <= i < |ds| ==> ds[i].expectedType <= 3 && ds[i].support <= 3)
            && forall i :: 0 <= i < |ss| ==> Presentable(ss[i])
  {
    forall i | 0 <= i < |ss| ensures ValidSample(ss[i]) <==> Presentable(ss[i]) {
      PresentableIsValid(ss[i]);
    }
  }

  lemma PresentableIsValid(s: Sample)
    requires FactoryBuilt(s)
    ensures ValidSample(s) <==> Presentable(s)
  {
  }

  // ---- Encoding ----

  lemma NameIsUtf8(name: string)
    ensures WellFormed(Ascii(name))
  {
    AsciiIsWellFormed(Ascii(name));
  }

  lemma MemberIsUtf8(name: string, text: seq<Byte>)
    requires WellFormed(text)
    ensures WellFormed(TextMember(name, text).key) && Utf8Json(TextMember(name, text).value)
  {
    NameIsUtf8(name);
  }

  lemma NamedIsUtf8(name: string, names: seq<string>, code: Byte)
    requires code < |names|
    ensures WellFormed(NamedMember(name, names, code).key) && Utf8Json(NamedMember(name, names, code).value)
  {
    NameIsUtf8(names[code]);
    MemberIsUtf8(name, Ascii(names[code]));
  }

  lemma CapabilityIsUtf8(d: Descriptor)
    requires ProperDescriptor(d) && d.Bounded()
    ensures Utf8Json(CapabilityDoc(d))
  {
    MemberIsUtf8("signalId", d.identity);
    NamedIsUtf8("valueType", VALUE_TYPES, d.expectedType);
    MemberIsUtf8("unit", d.unit);
    NamedIsUtf8("support", SUPPORTS, d.support);
  }

  lemma StateIsUtf8(s: WebSample)
    requires ProperSample(s)
    ensures Utf8Members(StateMembers(s))
  {
    NamedIsUtf8("source", SOURCES, s.source);
    NamedIsUtf8("quality", QUALITIES, s.quality);
    NamedIsUtf8("availability", AVAILABILITIES, s.availability);
    AsciiIsWellFormed(Digits(s.timestampMs));
    MemberIsUtf8("timestampMs", Digits(s.timestampMs));
  }

  lemma ValueIsUtf8(value: Value, f: NumberFormat)
    requires value.Text? ==> WellFormed(value.text)
    ensures Utf8Members(ValueMembers(value, f))
  {
    if value != NoValue {
      NamedIsUtf8("valueType", VALUE_TYPES, value.TypeCode());
      NameIsUtf8("value");
    }
  }

  lemma SampleIsUtf8(s: Sample, f: NumberFormat)
    requires ValidSample(s) && FactoryBuilt(s)
    ensures Utf8Json(SampleDoc(Shown(s), f))
  {
    var shown := Shown(s);
    MemberIsUtf8("signalId", s.signalId);
    MemberIsUtf8("unit", s.unit);
    ValueIsUtf8(shown.value, f);
    StateIsUtf8(shown);
    ThreeGroups(TextMembers(shown), ValueMembers(shown.value, f), StateMembers(shown));
  }

  lemma ListsAreUtf8(ds: seq<Descriptor>, ss: seq<Sample>, f: NumberFormat)
    requires forall i :: 0 <= i < |ds| ==> ProperDescriptor(ds[i]) && ds[i].Bounded()
    requires forall i :: 0 <= i < |ss| ==> ValidSample(ss[i]) && FactoryBuilt(ss[i])
    requires forall i :: 0 <= i < |ss| ==> ProperSample(ShownAll(ss)[i])
    ensures Utf8Json(Array(CapabilityDocs(ds))) && Utf8Json(Array(SampleDocs(ShownAll(ss), f)))
  {
    forall i | 0 <= i < |ds| ensures Utf8Json(CapabilityDocs(ds)[i]) {
      CapabilityIsUtf8(ds[i]);
    }
    forall i | 0 <= i < |ss| ensures Utf8Json(SampleDocs(ShownAll(ss), f)[i]) {
      SampleIsUtf8(ss[i], f);
    }
  }

  lemma HeadIsUtf8(selection: Byte, identity: Option<U32>)
    requires ValidSelection(selection)
    ensures Utf8Members([NamedMember("profileSelection", SELECTIONS, selection)])
    ensures Utf8Members(IdentityMembers(identity))
  {
    NamedIsUtf8("profileSelection", SELECTIONS, selection);
    NameIsUtf8("activeProfileId");
  }

  lemma TwoAreUtf8(a: Member, b: Member)
    requires WellFormed(a.key) && Utf8Json(a.value) && WellFormed(b.key) && Utf8Json(b.value)
    ensures Utf8Members([a, b])
  {
  }

  lemma DocIsUtf8(r: Response, f: NumberFormat)
    requires Proper(r)
    requires Utf8Json(CapabilitiesDoc(r.capabilities)) && Utf8Json(Array(SampleDocs(r.samples, f)))
    ensures Utf8Json(Doc(r, f))
  {
    HeadIsUtf8(r.selection, r.activeIdentity);
    NameIsUtf8("capabilities");
    NameIsUtf8("samples");
    TwoAreUtf8(Member(Ascii("capabilities"), CapabilitiesDoc(r.capabilities)),
               Member(Ascii("samples"), Array(SampleDocs(r.samples, f))));
    ThreeGroups([NamedMember("profileSelection", SELECTIONS, r.selection)], IdentityMembers(r.activeIdentity),
                [Member(Ascii("capabilities"), CapabilitiesDoc(r.capabilities)),
                 Member(Ascii("samples"), Array(SampleDocs(r.samples, f)))]);
  }

  /** The response to a call over factory-built samples is well-formed UTF-8. */
  lemma ResponseIsUtf8(m: Snapshot, ds: seq<Descriptor>, ss: seq<Sample>, f: NumberFormat)
    requires ValidInput(m, ds, ss) && f.Sound()
    requires forall i :: 0 <= i < |ds| ==> ds[i].Bounded()
    requires forall i :: 0 <= i < |ss| ==> FactoryBuilt(ss[i])
    ensures Proper(ResponseOf(m, ds, ss)) && WellFormed(Print(Doc(ResponseOf(m, ds, ss), f)))
  {
    ValidIsProper(m, ds, ss);
    var r := ResponseOf(m, ds, ss);
    ListsAreUtf8(ds, ss, f);
    DocIsUtf8(r, f);
    DocIsPrintable(r, f);
    PrintIsUtf8(Doc(r, f));
  }
}
