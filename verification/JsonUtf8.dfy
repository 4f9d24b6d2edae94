/** Printing keeps well-formed UTF-8, as section 8.1 of RFC 8259 demands of JSON texts. */
module JsonUtf8 {
  import opened Types
  import opened Utf8
  import opened JsonText

  // Every string in the value is well-formed.
  predicate Utf8Json(j: Json) {
    match j
    case Text(text) => WellFormed(text)
    case Array(items) => forall i :: 0 <= i < |items| ==> Utf8Json(items[i])
    case Object(members) => forall i :: 0 <= i < |members| ==> WellFormed(members[i].key) && Utf8Json(members[i].value)
    case _ => true
  }

  predicate Utf8Members(members: seq<Member>) {
    forall i :: 0 <= i < |members| ==> WellFormed(members[i].key) && Utf8Json(members[i].value)
  }

  lemma ThreeGroups(a: seq<Member>, b: seq<Member>, c: seq<Member>)
    requires Utf8Members(a) && Utf8Members(b) && Utf8Members(c)
    ensures Utf8Json(Object(a + b + c))
  {
  }

  predicate IsAscii(bytes: seq<Byte>) {
    forall i :: 0 <= i < |bytes| ==> bytes[i] < 0x80
  }

  lemma {:induction false} AsciiIsWellFormed(bytes: seq<Byte>)
    requires IsAscii(bytes)
    ensures WellFormed(bytes)
    decreases |bytes|
  {
    if bytes != [] {
      AsciiIsWellFormed(bytes[1..]);
    }
  }

  lemma EscapeIsAscii(b: Byte)
    requires b < 0x80
    ensures IsAscii(Escape(b))
  {
  }

  lemma {:induction false} HighIsItself(bytes: seq<Byte>)
    requires forall i :: 0 <= i < |bytes| ==> bytes[i] >= 0x80
    ensures EscapeAll(bytes) == bytes
  {
    PlainIsItself(bytes);
  }

  lemma FirstIsHigh(text: seq<Byte>)
    requires text != [] && FirstLength(text) > 1
    ensures forall i :: 0 <= i < FirstLength(text) ==> text[i] >= 0x80
  {
  }

  lemma FirstAlone(text: seq<Byte>)
    requires text != [] && FirstLength(text) > 0
    ensures WellFormed(text[..FirstLength(text)])
  {
    var unit := text[..FirstLength(text)];
    assert FirstLength(unit) == |unit|;
    assert unit[|unit|..] == [];
  }

  /** Escaping keeps a text well-formed. */
  lemma {:induction false} EscapedIsWellFormed(text: seq<Byte>)
    requires WellFormed(text)
    ensures WellFormed(EscapeAll(text))
    decreases |text|
  {
    if text != [] {
      var n := FirstLength(text);
      var unit, rest := text[..n], text[n..];
      EscapedIsWellFormed(rest);
      EscapeJoin(unit, rest);
      assert unit + rest == text;
      if n == 1 {
        assert unit == [text[0]] && EscapeAll(unit) == Escape(text[0]);
        EscapeIsAscii(text[0]);
        AsciiIsWellFormed(EscapeAll(unit));
      } else {
        FirstIsHigh(text);
        HighIsItself(unit);
        FirstAlone(text);
      }
      ConcatenationIsWellFormed(EscapeAll(unit), EscapeAll(rest));
    }
  }

  lemma QuotedIsWellFormed(text: seq<Byte>)
    requires WellFormed(text)
    ensures WellFormed(Quoted(text))
  {
    EscapedIsWellFormed(text);
    AsciiIsWellFormed([QUOTE]);
    ConcatenationIsWellFormed([QUOTE], EscapeAll(text));
    ConcatenationIsWellFormed([QUOTE] + EscapeAll(text), [QUOTE]);
  }

  /** The text of a value whose strings are well-formed is well-formed. */
  lemma {:induction false} PrintIsUtf8(j: Json)
    requires Printable(j) && Utf8Json(j)
    ensures WellFormed(Print(j))
    decreases j, 0
  {
    match j
    case Null => AsciiIsWellFormed(Print(j));
    case Bool(_) => AsciiIsWellFormed(Print(j));
    case Number(_) => AsciiIsWellFormed(Print(j));
    case Text(text) => QuotedIsWellFormed(text);
    case Array(items) =>
      ItemsAreUtf8(items);
      Bracketed(LBRACKET, PrintItems(items), RBRACKET);
    case Object(members) =>
      MembersAreUtf8(members);
      Bracketed(LBRACE, PrintMembers(members), RBRACE);
  }

  lemma Bracketed(open: Byte, text: seq<Byte>, close: Byte)
    requires open < 0x80 && close < 0x80 && WellFormed(text)
    ensures WellFormed([open] + text + [close])
  {
    AsciiIsWellFormed([open]);
    AsciiIsWellFormed([close]);
    ConcatenationIsWellFormed([open], text);
    ConcatenationIsWellFormed([open] + text, [close]);
  }

  lemma Separated(a: seq<Byte>, separator: Byte, b: seq<Byte>)
    requires WellFormed(a) && separator < 0x80 && WellFormed(b)
    ensures WellFormed(a + ([separator] + b))
  {
    AsciiIsWellFormed([separator]);
    ConcatenationIsWellFormed([separator], b);
    ConcatenationIsWellFormed(a, [separator] + b);
  }

  lemma {:induction false} ItemsAreUtf8(items: seq<Json>)
    requires forall i :: 0 <= i < |items| ==> Printable(items[i]) && Utf8Json(items[i])
    ensures WellFormed(PrintItems(items))
    decreases items, 0
  {
    if items != [] {
      PrintIsUtf8(items[0]);
      if |items| > 1 {
        ItemsAreUtf8(items[1..]);
        Separated(Print(items[0]), COMMA, PrintItems(items[1..]));
      }
    }
  }

  lemma {:induction false} MembersAreUtf8(members: seq<Member>)
    requires forall i :: 0 <= i < |members| ==>
      Printable(members[i].value) && WellFormed(members[i].key) && Utf8Json(members[i].value)
    ensures WellFormed(PrintMembers(members))
    decreases members, 0
  {
    if members != [] {
      PrintIsUtf8(members[0].value);
      QuotedIsWellFormed(members[0].key);
      Separated(Quoted(members[0].key), COLON, Print(members[0].value));
      if |members| > 1 {
        MembersAreUtf8(members[1..]);
        Separated(PrintMember(members[0]), COMMA, PrintMembers(members[1..]));
      }
    }
  }
}
