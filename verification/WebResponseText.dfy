/** The text of a response cut into the pieces in which the serializer writes it. */
module WebResponseText {
  import opened Types
  import opened VehicleData
  import opened ReadModel
  import opened Decimal
  import opened JsonText
  import opened WebResponseSpec

  // ---- From the read projection to the response ----

  function Shown(s: Sample): WebSample {
    WebSample(s.signalId, s.unit, if s.HasValue() then s.value else NoValue,
              s.source, s.quality, s.availability, s.timestampMs)
  }

  function ShownAll(ss: seq<Sample>): seq<WebSample> {
    seq(|ss|, i requires 0 <= i < |ss| => Shown(ss[i]))
  }

  function ResponseOf(m: Snapshot, ds: seq<Descriptor>, ss: seq<Sample>): Response {
    Response(m.selection, m.activeIdentity, if m.hasRegistry then Some(ds) else None, ShownAll(ss))
  }

  predicate ValidMetadata(m: Snapshot) {
    && ValidSelection(m.selection) && (m.selection == SELECTED <==> m.activeIdentity.Some?)
    && (m.hasRegistry || m.capabilityCount == 0)
  }

  predicate ValidSample(s: Sample) {
    && ValidAvailability(s.availability) && ValidQuality(s.quality) && ValidSource(s.source)
    && ValidType(s.value.TypeCode())
    && !(s.HasValue() && s.value.Numeric? && !Finite(s.value.bits))
  }

  predicate ValidInput(m: Snapshot, ds: seq<Descriptor>, ss: seq<Sample>) {
    && ValidMetadata(m)
    && (forall i :: 0 <= i < |ds| ==> ProperDescriptor(ds[i]))
    && forall i :: 0 <= i < |ss| ==> ValidSample(ss[i])
  }

  lemma ValidIsProper(m: Snapshot, ds: seq<Descriptor>, ss: seq<Sample>)
    requires ValidInput(m, ds, ss)
    ensures Proper(ResponseOf(m, ds, ss))
  {
    forall i | 0 <= i < |ss| ensures ProperSample(ShownAll(ss)[i]) {
      assert ValidSample(ss[i]);
    }
  }

  // ---- Labels ----

  // A member's name as the program spells it, with its quotes and colon.
  function Label(name: string): string {
    "\"" + name + "\":"
  }

  // Printable ASCII without quotes and backslashes.
  predicate PlainName(name: string) {
    forall i :: 0 <= i < |name| ==> ' ' <= name[i] < '~' && name[i] != '"' && name[i] != '\\'
  }

  lemma PlainText(name: string)
    requires PlainName(name)
    ensures EscapeAll(Ascii(name)) == Ascii(name)
  {
    PlainIsItself(Ascii(name));
  }

  // A label as the bytes of a text: the brace or comma before it, the quoted name, the colon.
  function Key(lead: Byte, name: string): seq<Byte> {
    [lead] + (Quoted(Ascii(name)) + [COLON])
  }

  lemma LabelIsKey(lead: Byte, name: string)
    requires PlainName(name) && lead < 0x80
    ensures Ascii([lead as char] + Label(name)) == Key(lead, name)
  {
    PlainText(name);
  }

  lemma NamesArePlain()
    ensures PlainName("signalId") && PlainName("valueType") && PlainName("unit") && PlainName("support")
    ensures PlainName("value") && PlainName("source") && PlainName("quality") && PlainName("availability")
  {
  }

  lemma LongNamesArePlain()
    ensures PlainName("timestampMs") && PlainName("profileSelection") && PlainName("activeProfileId")
    ensures PlainName("capabilities") && PlainName("samples")
  {
  }

  lemma DigitsArePlain(v: nat)
    ensures Quoted(Digits(v)) == [QUOTE] + Digits(v) + [QUOTE]
  {
    PlainIsItself(Digits(v));
  }

  // ---- Objects ----

  // A member with the brace or comma that precedes it.
  function Led(lead: Byte, m: Member): seq<Byte> {
    [lead] + PrintMember(m)
  }

  lemma LedIsKeyed(lead: Byte, name: string, value: Json)
    ensures Led(lead, Member(Ascii(name), value)) == Key(lead, name) + Print(value)
  {
  }

  lemma TimeText(v: U64)
    ensures Led(COMMA, TextMember("timestampMs", Digits(v))) + [RBRACE]
         == Ascii([COMMA as char] + Label("timestampMs") + "\"") + Digits(v) + Ascii("\"}")
  {
    LongNamesArePlain();
    LabelIsKey(COMMA, "timestampMs");
    AsciiJoin([COMMA as char] + Label("timestampMs"), "\"");
    LedIsKeyed(COMMA, "timestampMs", Json.Text(Digits(v)));
    DigitsArePlain(v);
    QuoteLiterals();
    QuotesMove(Key(COMMA, "timestampMs"), Digits(v), [RBRACE]);
  }

  lemma QuoteLiterals()
    ensures Ascii("\"") == [QUOTE] && Ascii("\"}") == [QUOTE] + [RBRACE]
  {
  }

  lemma QuotesMove(key: seq<Byte>, digits: seq<Byte>, end: seq<Byte>)
    ensures key + ([QUOTE] + digits + [QUOTE]) + end == key + [QUOTE] + digits + ([QUOTE] + end)
  {
  }

  lemma TwoMembers(a: Member, b: Member)
    ensures [LBRACE] + PrintMembers([a, b]) == Led(LBRACE, a) + Led(COMMA, b)
    ensures More([a, b]) == Led(COMMA, a) + Led(COMMA, b)
  {
    assert [a, b][1..] == [b];
    Regroup([LBRACE], PrintMember(a), [COMMA] + PrintMember(b));
    Regroup([COMMA], PrintMember(a), [COMMA] + PrintMember(b));
  }

  lemma FourMembers(a: Member, b: Member, c: Member, d: Member)
    ensures [LBRACE] + PrintMembers([a, b, c, d]) == Led(LBRACE, a) + Led(COMMA, b) + Led(COMMA, c) + Led(COMMA, d)
    ensures More([a, b, c, d]) == Led(COMMA, a) + Led(COMMA, b) + Led(COMMA, c) + Led(COMMA, d)
  {
    MembersJoin([a, b], [c, d]);
    assert [a, b] + [c, d] == [a, b, c, d];
    TwoMembers(a, b);
    TwoMembers(c, d);
    var ab, cd := PrintMembers([a, b]), More([c, d]);
    Regroup([LBRACE], ab, cd);
    Regroup([COMMA], ab, cd);
    Regroup(Led(LBRACE, a) + Led(COMMA, b), Led(COMMA, c), Led(COMMA, d));
    Regroup(Led(COMMA, a) + Led(COMMA, b), Led(COMMA, c), Led(COMMA, d));
  }

  lemma CapabilityText(d: Descriptor)
    requires ProperDescriptor(d)
    ensures Print(CapabilityDoc(d))
         == Led(LBRACE, TextMember("signalId", d.identity))
            + Led(COMMA, NamedMember("valueType", VALUE_TYPES, d.expectedType))
            + Led(COMMA, TextMember("unit", d.unit))
            + Led(COMMA, NamedMember("support", SUPPORTS, d.support)) + [RBRACE]
  {
    FourMembers(TextMember("signalId", d.identity), NamedMember("valueType", VALUE_TYPES, d.expectedType),
                TextMember("unit", d.unit), NamedMember("support", SUPPORTS, d.support));
  }

  lemma TextsText(s: WebSample)
    ensures [LBRACE] + PrintMembers(TextMembers(s))
         == Led(LBRACE, TextMember("signalId", s.signalId)) + Led(COMMA, TextMember("unit", s.unit))
  {
    TwoMembers(TextMember("signalId", s.signalId), TextMember("unit", s.unit));
  }

  lemma ValueText(value: Value, f: NumberFormat)
    requires value != NoValue
    ensures More(ValueMembers(value, f))
         == Led(COMMA, NamedMember("valueType", VALUE_TYPES, value.TypeCode()))
            + Key(COMMA, "value") + Print(ValueDoc(value, f))
  {
    var shown := Member(Ascii("value"), ValueDoc(value, f));
    TwoMembers(NamedMember("valueType", VALUE_TYPES, value.TypeCode()), shown);
    LedIsKeyed(COMMA, "value", ValueDoc(value, f));
    Regroup(Led(COMMA, NamedMember("valueType", VALUE_TYPES, value.TypeCode())),
            Key(COMMA, "value"), Print(ValueDoc(value, f)));
  }

  lemma StateText(s: WebSample)
    requires ProperSample(s)
    ensures More(StateMembers(s))
         == Led(COMMA, NamedMember("source", SOURCES, s.source))
            + Led(COMMA, NamedMember("quality", QUALITIES, s.quality))
            + Led(COMMA, NamedMember("availability", AVAILABILITIES, s.availability))
            + Led(COMMA, TextMember("timestampMs", Digits(s.timestampMs)))
  {
    FourMembers(NamedMember("source", SOURCES, s.source), NamedMember("quality", QUALITIES, s.quality),
                NamedMember("availability", AVAILABILITIES, s.availability),
                TextMember("timestampMs", Digits(s.timestampMs)));
  }

  lemma ObjectText(a: seq<Member>, b: seq<Member>, c: seq<Member>)
    requires a != []
    ensures Print(Object(a + b + c)) == [LBRACE] + PrintMembers(a) + More(b) + More(c) + [RBRACE]
  {
    MembersJoin(a + b, c);
    MembersJoin(a, b);
    Regroup([LBRACE], PrintMembers(a) + More(b), More(c));
    Regroup([LBRACE], PrintMembers(a), More(b));
  }

  lemma SampleText(s: WebSample, f: NumberFormat)
    requires ProperSample(s)
    ensures Print(SampleDoc(s, f))
         == [LBRACE] + PrintMembers(TextMembers(s)) + More(ValueMembers(s.value, f)) + More(StateMembers(s)) + [RBRACE]
  {
    ObjectText(TextMembers(s), ValueMembers(s.value, f), StateMembers(s));
  }

  // The profile part of the response.
  function Head(selection: Byte, identity: Option<U32>): seq<Byte>
    requires ValidSelection(selection)
  {
    Led(LBRACE, NamedMember("profileSelection", SELECTIONS, selection)) + More(IdentityMembers(identity))
  }

  function ListsText(r: Response, f: NumberFormat): seq<Byte>
    requires Proper(r)
  {
    Led(COMMA, Member(Ascii("capabilities"), CapabilitiesDoc(r.capabilities)))
    + Led(COMMA, Member(Ascii("samples"), Array(SampleDocs(r.samples, f))))
  }

  lemma ResponseText(r: Response, f: NumberFormat)
    requires Proper(r)
    ensures Print(Doc(r, f))
         == Head(r.selection, r.activeIdentity) + ListsText(r, f) + [RBRACE]
  {
    DocText(NamedMember("profileSelection", SELECTIONS, r.selection), IdentityMembers(r.activeIdentity),
            Member(Ascii("capabilities"), CapabilitiesDoc(r.capabilities)),
            Member(Ascii("samples"), Array(SampleDocs(r.samples, f))));
  }

  lemma DocText(head: Member, id: seq<Member>, caps: Member, samples: Member)
    ensures Print(Object([head] + id + [caps, samples]))
         == Led(LBRACE, head) + More(id) + (Led(COMMA, caps) + Led(COMMA, samples)) + [RBRACE]
  {
    ObjectText([head], id, [caps, samples]);
    TwoMembers(caps, samples);
  }
}
