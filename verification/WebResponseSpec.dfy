/** The web response as a JSON document, and the client that reads it back. */
module WebResponseSpec {
  import opened Types
  import opened VehicleData
  import opened ReadModel
  import opened Decimal
  import opened JsonText

  // ---- Names of the enumeration values, by code ----

  const SELECTIONS := ["unknown", "ambiguous", "manual_selection_required", "selected"]
  const VALUE_TYPES := ["none", "numeric", "boolean", "text"]
  const SUPPORTS := ["supported", "unsupported", "pending", "unknown"]
  const AVAILABILITIES := ["available", "unsupported", "unavailable", "pending", "unknown"]
  const QUALITIES := ["valid_current", "stale", "invalid_or_unknown"]
  const SOURCES := ["obd", "uds", "passive_can", "derived", "unknown"]

  // How doubles are printed is the standard library's business; this is what the response relies on.
  datatype NumberFormat = NumberFormat(show: U64 -> seq<Byte>, read: seq<Byte> -> Option<U64>) {
    ghost predicate Sound() {
      forall bits: U64 :: Finite(bits) ==>
        NumberToken(show(bits)) && |show(bits)| <= 32 && read(show(bits)) == Some(bits)
    }
  }

  // ---- What a response shows ----

  // A value is shown only when the sample has one.
  datatype WebSample = WebSample(
    signalId: seq<Byte>, unit: seq<Byte>, value: Value,
    source: Byte, quality: Byte, availability: Byte, timestampMs: U64)

  datatype Response = Response(
    selection: Byte, activeIdentity: Option<U32>, capabilities: Option<seq<Descriptor>>, samples: seq<WebSample>)

  predicate ProperSample(s: WebSample) {
    && ValidSource(s.source) && ValidQuality(s.quality) && ValidAvailability(s.availability)
    && (s.value.Numeric? ==> Finite(s.value.bits))
  }

  predicate ProperDescriptor(d: Descriptor) {
    ValidType(d.expectedType) && ValidSupport(d.support)
  }

  predicate Proper(r: Response) {
    && ValidSelection(r.selection)
    && (r.capabilities.Some? ==>
          forall i :: 0 <= i < |r.capabilities.value| ==> ProperDescriptor(r.capabilities.value[i]))
    && forall i :: 0 <= i < |r.samples| ==> ProperSample(r.samples[i])
  }

  // ---- The document ----

  function TextMember(name: string, text: seq<Byte>): Member {
    Member(Ascii(name), Json.Text(text))
  }

  function NamedMember(name: string, names: seq<string>, code: Byte): Member
    requires code < |names|
  {
    TextMember(name, Ascii(names[code]))
  }

  function CapabilityDoc(d: Descriptor): Json
    requires ProperDescriptor(d)
  {
    Object([TextMember("signalId", d.identity),
            NamedMember("valueType", VALUE_TYPES, d.expectedType),
            TextMember("unit", d.unit),
            NamedMember("support", SUPPORTS, d.support)])
  }

  function ValueDoc(value: Value, f: NumberFormat): Json {
    match value
    case NoValue => Null
    case Numeric(bits) => Number(f.show(bits))
    case Boolean(flag) => Bool(flag)
    case Text(text) => Json.Text(text)
  }

  function TextMembers(s: WebSample): seq<Member> {
    [TextMember("signalId", s.signalId), TextMember("unit", s.unit)]
  }

  function ValueMembers(value: Value, f: NumberFormat): seq<Member> {
    if value == NoValue then []
    else [NamedMember("valueType", VALUE_TYPES, value.TypeCode()), Member(Ascii("value"), ValueDoc(value, f))]
  }

  function StateMembers(s: WebSample): seq<Member>
    requires ProperSample(s)
  {
    [NamedMember("source", SOURCES, s.source),
     NamedMember("quality", QUALITIES, s.quality),
     NamedMember("availability", AVAILABILITIES, s.availability),
     TextMember("timestampMs", Digits(s.timestampMs))]
  }

  function SampleDoc(s: WebSample, f: NumberFormat): Json
    requires ProperSample(s)
  {
    Object(TextMembers(s) + ValueMembers(s.value, f) + StateMembers(s))
  }

  function CapabilityDocs(ds: seq<Descriptor>): seq<Json>
    requires forall i :: 0 <= i < |ds| ==> ProperDescriptor(ds[i])
  {
    seq(|ds|, i requires 0 <= i < |ds| => CapabilityDoc(ds[i]))
  }

  function SampleDocs(ss: seq<WebSample>, f: NumberFormat): seq<Json>
    requires forall i :: 0 <= i < |ss| ==> ProperSample(ss[i])
  {
    seq(|ss|, i requires 0 <= i < |ss| => SampleDoc(ss[i], f))
  }

  function IdentityMembers(identity: Option<U32>): seq<Member> {
    if identity.None? then [] else [Member(Ascii("activeProfileId"), Number(Digits(identity.value)))]
  }

  function CapabilitiesDoc(ds: Option<seq<Descriptor>>): Json
    requires ds.Some? ==> forall i :: 0 <= i < |ds.value| ==> ProperDescriptor(ds.value[i])
  {
    if ds.None? then Null else Array(CapabilityDocs(ds.value))
  }

  function Doc(r: Response, f: NumberFormat): Json
    requires Proper(r)
  {
    Object([NamedMember("profileSelection", SELECTIONS, r.selection)]
           + IdentityMembers(r.activeIdentity)
           + [Member(Ascii("capabilities"), CapabilitiesDoc(r.capabilities)),
              Member(Ascii("samples"), Array(SampleDocs(r.samples, f)))])
  }

  // ---- The client ----

  function Lookup(members: seq<Member>, key: seq<Byte>): Option<Json> {
    if members == [] then None
    else if members[0].key == key then Some(members[0].value)
    else Lookup(members[1..], key)
  }

  function TextAt(members: seq<Member>, name: string): Option<seq<Byte>> {
    match Lookup(members, Ascii(name))
    case Some(Text(text)) => Some(text)
    case _ => None
  }

  // The enumeration values as the client knows them: the code behind each name.
  const SELECTION_CODES: map<string, Byte> :=
    map["unknown" := 0, "ambiguous" := 1, "manual_selection_required" := 2, "selected" := 3]
  const VALUE_TYPE_CODES: map<string, Byte> := map["none" := 0, "numeric" := 1, "boolean" := 2, "text" := 3]
  const SUPPORT_CODES: map<string, Byte> := map["supported" := 0, "unsupported" := 1, "pending" := 2, "unknown" := 3]
  const AVAILABILITY_CODES: map<string, Byte> :=
    map["available" := 0, "unsupported" := 1, "unavailable" := 2, "pending" := 3, "unknown" := 4]
  const QUALITY_CODES: map<string, Byte> := map["valid_current" := 0, "stale" := 1, "invalid_or_unknown" := 2]
  const SOURCE_CODES: map<string, Byte> :=
    map["obd" := 0, "uds" := 1, "passive_can" := 2, "derived" := 3, "unknown" := 4]

  // The characters of an ASCII text.
  function Characters(text: seq<Byte>): string {
    seq(|text|, i requires 0 <= i < |text| => text[i] as char)
  }

  function CodeAt(members: seq<Member>, name: string, codes: map<string, Byte>): Option<Byte> {
    var text := TextAt(members, name);
    if text.None? || Characters(text.value) !in codes then None else Some(codes[Characters(text.value)])
  }

  function ReadCapability(j: Json): Option<Descriptor> {
    if !j.Object? then None
    else
      var identity, unit := TextAt(j.members, "signalId"), TextAt(j.members, "unit");
      var valueType := CodeAt(j.members, "valueType", VALUE_TYPE_CODES);
      var support := CodeAt(j.members, "support", SUPPORT_CODES);
      if identity.None? || unit.None? || valueType.None? || support.None? then None
      else Some(Descriptor(identity.value, valueType.value, unit.value, support.value))
  }

  function ReadValue(members: seq<Member>, f: NumberFormat): Option<Value> {
    var value := Lookup(members, Ascii("value"));
    var valueType := CodeAt(members, "valueType", VALUE_TYPE_CODES);
    if value.None? then if valueType.None? then Some(NoValue) else None
    else if valueType.None? then None
    else
      match value.value
      case Number(token) =>
        if valueType.value == TYPE_NUMERIC && f.read(token).Some? then Some(Numeric(f.read(token).value)) else None
      case Bool(flag) => if valueType.value == TYPE_BOOLEAN then Some(Boolean(flag)) else None
      case Text(text) => if valueType.value == TYPE_TEXT then Some(Value.Text(text)) else None
      case _ => None
  }

  function ReadSample(j: Json, f: NumberFormat): Option<WebSample> {
    if !j.Object? then None
    else
      var ms := j.members;
      var signalId, unit, time := TextAt(ms, "signalId"), TextAt(ms, "unit"), TextAt(ms, "timestampMs");
      var source, quality := CodeAt(ms, "source", SOURCE_CODES), CodeAt(ms, "quality", QUALITY_CODES);
      var availability, value := CodeAt(ms, "availability", AVAILABILITY_CODES), ReadValue(ms, f);
      if signalId.None? || unit.None? || time.None? || source.None? || quality.None?
         || availability.None? || value.None? || ReadDigits(time.value).None?
         || ReadDigits(time.value).value > MAX_U64 then None
      else Some(WebSample(signalId.value, unit.value, value.value, source.value, quality.value,
                          availability.value, ReadDigits(time.value).value))
  }

  function ReadCapabilities(items: seq<Json>): Option<seq<Descriptor>> {
    if items == [] then Some([])
    else
      var first, others := ReadCapability(items[0]), ReadCapabilities(items[1..]);
      if first.None? || others.None? then None else Some([first.value] + others.value)
  }

  function ReadSamples(items: seq<Json>, f: NumberFormat): Option<seq<WebSample>> {
    if items == [] then Some([])
    else
      var first, others := ReadSample(items[0], f), ReadSamples(items[1..], f);
      if first.None? || others.None? then None else Some([first.value] + others.value)
  }

  // Absent, or a 32-bit number.
  function ReadIdentity(members: seq<Member>): Option<Option<U32>> {
    match Lookup(members, Ascii("activeProfileId"))
    case None => Some(None)
    case Some(Number(token)) =>
      var v := ReadDigits(token);
      if v.Some? && v.value <= 0xFFFF_FFFF then Some(Some(v.value)) else None
    case _ => None
  }

  function ReadRegistry(members: seq<Member>): Option<Option<seq<Descriptor>>> {
    match Lookup(members, Ascii("capabilities"))
    case Some(Null) => Some(None)
    case Some(Array(items)) =>
      var ds := ReadCapabilities(items);
      if ds.None? then None else Some(ds)
    case _ => None
  }

  function ReadSampleList(members: seq<Member>, f: NumberFormat): Option<seq<WebSample>> {
    match Lookup(members, Ascii("samples"))
    case Some(Array(items)) => ReadSamples(items, f)
    case _ => None
  }

  function ReadResponse(j: Json, f: NumberFormat): Option<Response> {
    if !j.Object? then None
    else
      var selection, identity := CodeAt(j.members, "profileSelection", SELECTION_CODES), ReadIdentity(j.members);
      var capabilities, samples := ReadRegistry(j.members), ReadSampleList(j.members, f);
      if selection.None? || identity.None? || capabilities.None? || samples.None? then None
      else Some(Response(selection.value, identity.value, capabilities.value, samples.value))
  }
}
