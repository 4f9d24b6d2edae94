/** JSON texts (RFC 8259) without insignificant white space: a printer and an independent reader. */
module JsonText {
  import opened Types
  import opened Utf8
  import opened Parsing

  const QUOTE: Byte := 34
  const COMMA: Byte := 44
  const COLON: Byte := 58
  const LBRACKET: Byte := 91
  const BACKSLASH: Byte := 92
  const RBRACKET: Byte := 93
  const LBRACE: Byte := 123
  const RBRACE: Byte := 125

  // A literal of the program text as bytes; all of them are ASCII.
  function Ascii(text: string): (bytes: seq<Byte>)
    ensures |bytes| == |text|
  {
    seq(|text|, i requires 0 <= i < |text| => text[i] as int % 0x80)
  }

  lemma AsciiJoin(a: string, b: string)
    ensures Ascii(a + b) == Ascii(a) + Ascii(b)
  {
  }

  // A number is its token; strings are their bytes before escaping.
  datatype Json =
    | Null
    | Bool(flag: bool)
    | Number(token: seq<Byte>)
    | Text(text: seq<Byte>)
    | Array(items: seq<Json>)
    | Object(members: seq<Member>)

  datatype Member = Member(key: seq<Byte>, value: Json)

  predicate NumberByte(b: Byte) {
    48 <= b <= 57 || b == 43 || b == 45 || b == 46 || b == 69 || b == 101
  }

  predicate NumberToken(token: seq<Byte>) {
    token != [] && forall i :: 0 <= i < |token| ==> NumberByte(token[i])
  }

  predicate Printable(j: Json) {
    match j
    case Number(token) => NumberToken(token)
    case Array(items) => forall i :: 0 <= i < |items| ==> Printable(items[i])
    case Object(members) => forall i :: 0 <= i < |members| ==> Printable(members[i].value)
    case _ => true
  }

  // ---- Printing ----

  function HexDigit(n: nat): Byte
    requires n < 16
  {
    if n < 10 then 48 + n else 87 + n
  }

  // A byte that needs no escape.
  predicate PlainByte(b: Byte) {
    b >= 0x20 && b != QUOTE && b != BACKSLASH
  }

  // One byte inside quotes: two-character escapes, \u00xx, or the byte itself.
  function Escape(b: Byte): seq<Byte> {
    if b == QUOTE || b == BACKSLASH then [BACKSLASH, b]
    else if b == 8 then [BACKSLASH, 98]
    else if b == 12 then [BACKSLASH, 102]
    else if b == 10 then [BACKSLASH, 110]
    else if b == 13 then [BACKSLASH, 114]
    else if b == 9 then [BACKSLASH, 116]
    else if b < 0x20 then [BACKSLASH, 117, 48, 48, HexDigit(b / 16), HexDigit(b % 16)]
    else [b]
  }

  function EscapeAll(text: seq<Byte>): seq<Byte> {
    if text == [] then [] else Escape(text[0]) + EscapeAll(text[1..])
  }

  function Quoted(text: seq<Byte>): seq<Byte> {
    [QUOTE] + EscapeAll(text) + [QUOTE]
  }

  function Print(j: Json): seq<Byte> {
    match j
    case Null => Ascii("null")
    case Bool(flag) => if flag then Ascii("true") else Ascii("false")
    case Number(token) => token
    case Text(text) => Quoted(text)
    case Array(items) => [LBRACKET] + PrintItems(items) + [RBRACKET]
    case Object(members) => [LBRACE] + PrintMembers(members) + [RBRACE]
  }

  function PrintItems(items: seq<Json>): seq<Byte> {
    if items == [] then []
    else if |items| == 1 then Print(items[0])
    else Print(items[0]) + ([COMMA] + PrintItems(items[1..]))
  }

  function PrintMember(m: Member): seq<Byte> {
    Quoted(m.key) + ([COLON] + Print(m.value))
  }

  function PrintMembers(members: seq<Member>): seq<Byte> {
    if members == [] then []
    else if |members| == 1 then PrintMember(members[0])
    else PrintMember(members[0]) + ([COMMA] + PrintMembers(members[1..]))
  }

  // ---- Reading ----

  function HexValue(b: Byte): (v: Option<nat>)
    ensures v.Some? ==> v.value < 16
  {
    if 48 <= b <= 57 then Some(b - 48)
    else if 97 <= b <= 102 then Some(b - 87)
    else if 65 <= b <= 70 then Some(b - 55)
    else None
  }

  // Four hexadecimal digits naming one scalar value; pairs of surrogates are not read.
  function ReadHex(s: seq<Byte>): Parsed<seq<Byte>> {
    if |s| < 4 || HexValue(s[0]).None? || HexValue(s[1]).None? || HexValue(s[2]).None? || HexValue(s[3]).None? then Fail
    else
      var v := HexValue(s[0]).value * 4096 + HexValue(s[1]).value * 256
               + HexValue(s[2]).value * 16 + HexValue(s[3]).value;
      if 0xD800 <= v <= 0xDFFF then Fail
      else Got(EncodeScalar(v), s[4..])
  }

  // What follows a backslash.
  function ReadEscape(s: seq<Byte>): Parsed<seq<Byte>> {
    if s == [] then Fail
    else if s[0] == QUOTE || s[0] == BACKSLASH || s[0] == 47 then Got([s[0]], s[1..])
    else if s[0] == 98 then Got([8], s[1..])
    else if s[0] == 102 then Got([12], s[1..])
    else if s[0] == 110 then Got([10], s[1..])
    else if s[0] == 114 then Got([13], s[1..])
    else if s[0] == 116 then Got([9], s[1..])
    else if s[0] == 117 then ReadHex(s[1..])
    else Fail
  }

  // A string after its opening quote; raw control bytes are refused.
  function ReadChars(s: seq<Byte>): (p: Parsed<seq<Byte>>)
    ensures p.Got? ==> |p.rest| < |s|
    decreases |s|
  {
    if s == [] || s[0] < 0x20 then Fail
    else if s[0] == QUOTE then Got([], s[1..])
    else if s[0] == BACKSLASH then
      var (c, r) :- ReadEscape(s[1..]);
      var (cs, r) :- ReadChars(r);
      Got(c + cs, r)
    else
      var (cs, r) :- ReadChars(s[1..]);
      Got([s[0]] + cs, r)
  }

  // The length of the longest number token s starts with.
  function TokenLength(s: seq<Byte>): (n: nat)
    ensures n <= |s|
  {
    if s == [] || !NumberByte(s[0]) then 0 else 1 + TokenLength(s[1..])
  }

  function ReadWord(s: seq<Byte>, word: seq<Byte>, j: Json): (p: Parsed<Json>)
    requires word != []
    ensures p.Got? ==> |p.rest| < |s|
  {
    if word <= s then Got(j, s[|word|..]) else Fail
  }

  function ReadJson(s: seq<Byte>): (p: Parsed<Json>)
    ensures p.Got? ==> |p.rest| < |s|
    decreases |s|, 0
  {
    if s == [] then Fail
    else if s[0] == QUOTE then
      var (text, r) :- ReadChars(s[1..]);
      Got(Text(text), r)
    else if s[0] == LBRACKET then
      if |s| > 1 && s[1] == RBRACKET then Got(Array([]), s[2..])
      else
        var (items, r) :- ReadItems(s[1..]);
        Got(Array(items), r)
    else if s[0] == LBRACE then
      if |s| > 1 && s[1] == RBRACE then Got(Object([]), s[2..])
      else
        var (members, r) :- ReadMembers(s[1..]);
        Got(Object(members), r)
    else if s[0] == 110 then ReadWord(s, Ascii("null"), Null)
    else if s[0] == 116 then ReadWord(s, Ascii("true"), Bool(true))
    else if s[0] == 102 then ReadWord(s, Ascii("false"), Bool(false))
    else
      var n := TokenLength(s);
      if n == 0 then Fail else Got(Number(s[..n]), s[n..])
  }

  // One or more items up to and including the closing bracket.
  function ReadItems(s: seq<Byte>): (p: Parsed<seq<Json>>)
    ensures p.Got? ==> |p.rest| < |s|
    decreases |s|, 1
  {
    var (j, r) :- ReadJson(s);
    if r == [] then Fail
    else if r[0] == RBRACKET then Got([j], r[1..])
    else if r[0] == COMMA then
      var (js, r) :- ReadItems(r[1..]);
      Got([j] + js, r)
    else Fail
  }

  function ReadMember(s: seq<Byte>): (p: Parsed<Member>)
    ensures p.Got? ==> |p.rest| < |s|
    decreases |s|, 1
  {
    if s == [] || s[0] != QUOTE then Fail
    else
      var (key, r) :- ReadChars(s[1..]);
      if r == [] || r[0] != COLON then Fail
      else
        var (value, r) :- ReadJson(r[1..]);
        Got(Member(key, value), r)
  }

  function ReadMembers(s: seq<Byte>): (p: Parsed<seq<Member>>)
    ensures p.Got? ==> |p.rest| < |s|
    decreases |s|, 2
  {
    var (m, r) :- ReadMember(s);
    if r == [] then Fail
    else if r[0] == RBRACE then Got([m], r[1..])
    else if r[0] == COMMA then
      var (ms, r) :- ReadMembers(r[1..]);
      Got([m] + ms, r)
    else Fail
  }

  /** The value a whole text denotes. */
  function Parse(s: seq<Byte>): Option<Json> {
    var p := ReadJson(s);
    if p.Got? && p.rest == [] then Some(p.value) else None
  }

  // ---- Reading inverts printing ----

  lemma EscapeIsRead(b: Byte, rest: seq<Byte>)
    ensures Escape(b)[0] == BACKSLASH ==> ReadEscape(Escape(b)[1..] + rest) == Got([b], rest)
    ensures Escape(b)[0] != BACKSLASH ==> Escape(b) == [b] && PlainByte(b)
  {
    if Escape(b)[0] == BACKSLASH {
      var s := Escape(b)[1..] + rest;
      if |Escape(b)| == 2 {
        assert s == [Escape(b)[1]] + rest;
      } else {
        assert s[1..] == [48, 48, HexDigit(b / 16), HexDigit(b % 16)] + rest;
        assert s[1..][4..] == rest;
      }
    }
  }

  lemma PlainIsRead(b: Byte, tail: seq<Byte>, cs: seq<Byte>, rest: seq<Byte>)
    requires PlainByte(b) && ReadChars(tail) == Got(cs, rest)
    ensures ReadChars([b] + tail) == Got([b] + cs, rest)
  {
    assert ([b] + tail)[1..] == tail;
  }

  lemma PairIsRead(e: seq<Byte>, b: Byte, tail: seq<Byte>, cs: seq<Byte>, rest: seq<Byte>)
    requires e != [] && e[0] == BACKSLASH && ReadEscape(e[1..] + tail) == Got([b], tail)
    requires ReadChars(tail) == Got(cs, rest)
    ensures ReadChars(e + tail) == Got([b] + cs, rest)
  {
    assert (e + tail)[1..] == e[1..] + tail;
  }

  lemma CharIsRead(b: Byte, tail: seq<Byte>, cs: seq<Byte>, rest: seq<Byte>)
    requires ReadChars(tail) == Got(cs, rest)
    ensures ReadChars(Escape(b) + tail) == Got([b] + cs, rest)
  {
    EscapeIsRead(b, tail);
    if Escape(b)[0] == BACKSLASH {
      PairIsRead(Escape(b), b, tail, cs, rest);
    } else {
      PlainIsRead(b, tail, cs, rest);
    }
  }

  /** Un-escaping gives back every text, whatever its bytes. */
  lemma {:induction false} CharsAreRead(text: seq<Byte>, rest: seq<Byte>)
    ensures ReadChars(EscapeAll(text) + [QUOTE] + rest) == Got(text, rest)
    decreases |text|
  {
    if text == [] {
      assert EscapeAll(text) + [QUOTE] + rest == [QUOTE] + rest;
    } else {
      var tail := EscapeAll(text[1..]) + [QUOTE] + rest;
      assert EscapeAll(text) + [QUOTE] + rest == Escape(text[0]) + tail;
      CharsAreRead(text[1..], rest);
      CharIsRead(text[0], tail, text[1..], rest);
      assert [text[0]] + text[1..] == text;
    }
  }

  // Read from the front, the text falls into plain bytes and pairs of a backslash and another
  // byte: no control byte, and no quote that a backslash does not escape.
  predicate Contained(s: seq<Byte>)
    decreases |s|
  {
    if s == [] then true
    else if s[0] == BACKSLASH then |s| >= 2 && s[1] >= 0x20 && Contained(s[2..])
    else PlainByte(s[0]) && Contained(s[1..])
  }

  lemma EscapeIsContained(b: Byte, rest: seq<Byte>)
    requires Contained(rest)
    ensures Contained(Escape(b) + rest)
  {
    var s := Escape(b) + rest;
    if |Escape(b)| == 1 {
      assert s[1..] == rest;
    } else if |Escape(b)| == 2 {
      assert s[2..] == rest;
    } else {
      var h, l := HexDigit(b / 16), HexDigit(b % 16);
      assert s[2..] == [48] + ([48] + ([h] + ([l] + rest)));
      PlainsAreContained([48, 48, h, l], rest);
      assert [48, 48, h, l] + rest == s[2..];
    }
  }

  lemma {:induction false} PlainsAreContained(plain: seq<Byte>, rest: seq<Byte>)
    requires (forall i :: 0 <= i < |plain| ==> PlainByte(plain[i])) && Contained(rest)
    ensures Contained(plain + rest)
    decreases |plain|
  {
    if plain == [] {
      assert plain + rest == rest;
    } else {
      PlainsAreContained(plain[1..], rest);
      assert (plain + rest)[1..] == plain[1..] + rest;
    }
  }

  /** Inside the quotes there is no control byte and no bare quote. */
  lemma {:induction false} NothingRawInside(text: seq<Byte>)
    ensures Contained(EscapeAll(text))
  {
    if text != [] {
      NothingRawInside(text[1..]);
      EscapeIsContained(text[0], EscapeAll(text[1..]));
    }
  }

  /** So a reader cannot leave the string before its closing quote. */
  lemma {:induction false} NoPrefixCloses(s: seq<Byte>, k: nat)
    requires Contained(s) && k <= |s|
    ensures ReadChars(s[..k]).Fail?
    decreases |s|
  {
    var front := s[..k];
    if k > 0 && s[0] != BACKSLASH {
      assert front[1..] == s[1..][..k - 1];
      NoPrefixCloses(s[1..], k - 1);
    } else if k > 1 {
      assert front[1..] == s[1..k];
      if ReadEscape(front[1..]).Got? {
        EscapeEnds(s, k);
      }
    }
  }

  // What an escape leaves to read is again contained.
  lemma EscapeEnds(s: seq<Byte>, k: nat)
    requires Contained(s) && 1 < k <= |s| && s[0] == BACKSLASH && ReadEscape(s[1..k]).Got?
    ensures ReadChars(s[..k]).Fail?
    decreases |s|, 0
  {
    var r := ReadEscape(s[1..k]).rest;
    var n := k - |r|;
    if s[1] == 117 {
      HexIsPlain(s[2..], k - 2);
      assert s[1..k][1..] == s[2..k] == s[2..][..k - 2];
      assert r == s[6..k] == s[6..][..k - 6];
      assert s[2..][4..] == s[6..];
      NoPrefixCloses(s[6..], k - 6);
    } else {
      assert r == s[2..k] == s[2..][..k - 2];
      NoPrefixCloses(s[2..], k - 2);
    }
    assert s[..k][1..] == s[1..k];
  }

  // Four hexadecimal digits are plain bytes.
  lemma HexIsPlain(s: seq<Byte>, k: nat)
    requires Contained(s) && k <= |s| && ReadHex(s[..k]).Got?
    ensures k >= 4 && ReadHex(s[..k]).rest == s[..k][4..] && Contained(s[4..])
  {
    assert s[1..][1..] == s[2..] && s[2..][1..] == s[3..] && s[3..][1..] == s[4..];
    assert Contained(s[1..]) && Contained(s[2..]) && Contained(s[3..]);
  }

  lemma QuotedIsRead(text: seq<Byte>, rest: seq<Byte>)
    ensures ReadChars((Quoted(text) + rest)[1..]) == Got(text, rest)
  {
    CharsAreRead(text, rest);
    assert (Quoted(text) + rest)[1..] == EscapeAll(text) + [QUOTE] + rest;
  }

  // What may follow a value.
  predicate Ends(rest: seq<Byte>) {
    rest == [] || !NumberByte(rest[0])
  }

  lemma {:induction false} TokenIsRead(token: seq<Byte>, rest: seq<Byte>)
    requires (forall i :: 0 <= i < |token| ==> NumberByte(token[i])) && Ends(rest)
    ensures TokenLength(token + rest) == |token|
  {
    if token != [] {
      assert (token + rest)[1..] == token[1..] + rest;
      TokenIsRead(token[1..], rest);
    } else {
      assert token + rest == rest;
    }
  }

  lemma StartsLikeAValue(j: Json)
    requires Printable(j)
    ensures Print(j) != [] && Print(j)[0] != RBRACKET
  {
  }

  lemma Regroup(a: seq<Byte>, b: seq<Byte>, c: seq<Byte>)
    ensures a + b + c == a + (b + c)
  {
  }

  // Appending pieces in turn is appending their concatenation.
  lemma InTurn(base: seq<Byte>, a: seq<Byte>, b: seq<Byte>, c: seq<Byte>)
    ensures base + a + b + c == base + (a + b + c)
  {
  }

  lemma After(b: Byte, rest: seq<Byte>)
    ensures ([b] + rest)[1..] == rest
  {
  }

  /** Every printable value is read back from its text, whatever follows it. */
  lemma {:induction false} JsonIsRead(j: Json, rest: seq<Byte>)
    requires Printable(j) && Ends(rest)
    ensures ReadJson(Print(j) + rest) == Got(j, rest)
    decreases j, 0
  {
    match j
    case Array(items) =>
      if items != [] {
        ItemsAreRead(items, rest);
      }
      ArrayIsRead(items, rest);
    case Object(members) =>
      if members != [] {
        MembersAreRead(members, rest);
      }
      ObjectIsRead(members, rest);
    case _ => ScalarIsRead(j, rest);
  }

  lemma ScalarIsRead(j: Json, rest: seq<Byte>)
    requires !j.Array? && !j.Object? && Printable(j) && Ends(rest)
    ensures ReadJson(Print(j) + rest) == Got(j, rest)
  {
    match j
    case Null => NullIsRead(rest);
    case Bool(flag) => BoolIsRead(flag, rest);
    case Number(token) => NumberIsRead(token, rest);
    case Text(text) => QuotedIsRead(text, rest);
  }

  lemma NullIsRead(rest: seq<Byte>)
    ensures ReadJson(Ascii("null") + rest) == Got(Null, rest)
  {
    assert (Ascii("null") + rest)[0] == 110;
    assert (Ascii("null") + rest)[4..] == rest;
  }

  lemma BoolIsRead(flag: bool, rest: seq<Byte>)
    ensures ReadJson(Print(Bool(flag)) + rest) == Got(Bool(flag), rest)
  {
    var word := Print(Bool(flag));
    assert (word + rest)[0] == if flag then 116 else 102;
    assert (word + rest)[|word|..] == rest;
  }

  lemma NumberIsRead(token: seq<Byte>, rest: seq<Byte>)
    requires NumberToken(token) && Ends(rest)
    ensures ReadJson(token + rest) == Got(Number(token), rest)
  {
    TokenIsRead(token, rest);
    assert NumberByte((token + rest)[0]);
    assert (token + rest)[..|token|] == token && (token + rest)[|token|..] == rest;
  }

  lemma Inside(open: Byte, body: seq<Byte>, close: Byte, rest: seq<Byte>)
    ensures ([open] + body + [close] + rest)[0] == open
    ensures ([open] + body + [close] + rest)[1..] == body + ([close] + rest)
  {
  }

  lemma ArrayIsRead(items: seq<Json>, rest: seq<Byte>)
    requires Printable(Array(items))
    requires items != [] ==> ReadItems(PrintItems(items) + ([RBRACKET] + rest)) == Got(items, rest)
    ensures ReadJson(Print(Array(items)) + rest) == Got(Array(items), rest)
  {
    var s := Print(Array(items)) + rest;
    Inside(LBRACKET, PrintItems(items), RBRACKET, rest);
    if items == [] {
      assert s[2..] == rest;
    } else {
      StartsLikeAValue(items[0]);
      assert s[1] == PrintItems(items)[0] == Print(items[0])[0];
    }
  }

  lemma ObjectIsRead(members: seq<Member>, rest: seq<Byte>)
    requires members != [] ==> ReadMembers(PrintMembers(members) + ([RBRACE] + rest)) == Got(members, rest)
    ensures ReadJson(Print(Object(members)) + rest) == Got(Object(members), rest)
  {
    var s := Print(Object(members)) + rest;
    Inside(LBRACE, PrintMembers(members), RBRACE, rest);
    if members == [] {
      assert s[2..] == rest;
    } else {
      StartsLikeAMember(members);
      assert s[1] == QUOTE;
    }
  }

  lemma StartsLikeAMember(members: seq<Member>)
    requires members != []
    ensures PrintMembers(members) != [] && PrintMembers(members)[0] == QUOTE
  {
    assert PrintMember(members[0])[0] == QUOTE;
  }

  lemma {:induction false} ItemsAreRead(items: seq<Json>, rest: seq<Byte>)
    requires items != [] && forall i :: 0 <= i < |items| ==> Printable(items[i])
    ensures ReadItems(PrintItems(items) + ([RBRACKET] + rest)) == Got(items, rest)
    decreases items, 0
  {
    var close := [RBRACKET] + rest;
    if |items| == 1 {
      JsonIsRead(items[0], close);
      After(RBRACKET, rest);
      LastItem(PrintItems(items) + close, items[0], close);
      assert [items[0]] == items;
    } else {
      var others := PrintItems(items[1..]) + close;
      Regroup(Print(items[0]), [COMMA] + PrintItems(items[1..]), close);
      Regroup([COMMA], PrintItems(items[1..]), close);
      JsonIsRead(items[0], [COMMA] + others);
      After(COMMA, others);
      ItemsAreRead(items[1..], rest);
      MoreItems(PrintItems(items) + close, items[0], others, items[1..], rest);
    }
    assert [items[0]] + items[1..] == items;
  }

  lemma LastItem(s: seq<Byte>, j: Json, r: seq<Byte>)
    requires ReadJson(s) == Got(j, r) && r != [] && r[0] == RBRACKET
    ensures ReadItems(s) == Got([j], r[1..])
  {
  }

  lemma MoreItems(s: seq<Byte>, j: Json, others: seq<Byte>, js: seq<Json>, rest: seq<Byte>)
    requires ReadJson(s) == Got(j, [COMMA] + others) && ReadItems(others) == Got(js, rest)
    ensures ReadItems(s) == Got([j] + js, rest)
  {
    After(COMMA, others);
  }

  lemma {:induction false} MemberIsRead(m: Member, rest: seq<Byte>)
    requires Printable(m.value) && Ends(rest)
    ensures ReadMember(PrintMember(m) + rest) == Got(m, rest)
    decreases m, 0
  {
    var value := Print(m.value) + rest;
    JsonIsRead(m.value, rest);
    Regroup(Quoted(m.key), [COLON] + Print(m.value), rest);
    Regroup([COLON], Print(m.value), rest);
    KeyAndValue(m.key, value, m.value, rest);
  }

  lemma KeyAndValue(key: seq<Byte>, text: seq<Byte>, value: Json, rest: seq<Byte>)
    requires ReadJson(text) == Got(value, rest)
    ensures ReadMember(Quoted(key) + ([COLON] + text)) == Got(Member(key, value), rest)
  {
    QuotedIsRead(key, [COLON] + text);
    After(COLON, text);
  }

  lemma {:induction false} MembersAreRead(members: seq<Member>, rest: seq<Byte>)
    requires members != [] && forall i :: 0 <= i < |members| ==> Printable(members[i].value)
    ensures ReadMembers(PrintMembers(members) + ([RBRACE] + rest)) == Got(members, rest)
    decreases members, 0
  {
    var close := [RBRACE] + rest;
    if |members| == 1 {
      MemberIsRead(members[0], close);
      After(RBRACE, rest);
      LastMember(PrintMembers(members) + close, members[0], close);
      assert [members[0]] == members;
    } else {
      var others := PrintMembers(members[1..]) + close;
      Regroup(PrintMember(members[0]), [COMMA] + PrintMembers(members[1..]), close);
      Regroup([COMMA], PrintMembers(members[1..]), close);
      MemberIsRead(members[0], [COMMA] + others);
      MembersAreRead(members[1..], rest);
      MoreMembers(PrintMembers(members) + close, members[0], others, members[1..], rest);
    }
    assert [members[0]] + members[1..] == members;
  }

  lemma LastMember(s: seq<Byte>, m: Member, r: seq<Byte>)
    requires ReadMember(s) == Got(m, r) && r != [] && r[0] == RBRACE
    ensures ReadMembers(s) == Got([m], r[1..])
  {
  }

  lemma MoreMembers(s: seq<Byte>, m: Member, others: seq<Byte>, ms: seq<Member>, rest: seq<Byte>)
    requires ReadMember(s) == Got(m, [COMMA] + others) && ReadMembers(others) == Got(ms, rest)
    ensures ReadMembers(s) == Got([m] + ms, rest)
  {
    After(COMMA, others);
  }

  /** A printed text denotes exactly the value it was printed from. */
  lemma ParseInvertsPrint(j: Json)
    requires Printable(j)
    ensures Parse(Print(j)) == Some(j)
  {
    JsonIsRead(j, []);
    assert Print(j) + [] == Print(j);
  }

  // ---- Texts built piece by piece ----

  // The members that continue an object.
  function More(members: seq<Member>): seq<Byte> {
    if members == [] then [] else [COMMA] + PrintMembers(members)
  }

  lemma MembersFirst(m: Member, members: seq<Member>)
    ensures PrintMembers([m] + members) == PrintMember(m) + More(members)
  {
    assert ([m] + members)[1..] == members;
  }

  lemma {:induction false} MembersJoin(a: seq<Member>, b: seq<Member>)
    requires a != []
    ensures PrintMembers(a + b) == PrintMembers(a) + More(b)
  {
    assert [a[0]] + a[1..] == a && [a[0]] + (a[1..] + b) == a + b;
    MembersFirst(a[0], a[1..]);
    MembersFirst(a[0], a[1..] + b);
    if |a| == 1 {
      assert a[1..] + b == b;
    } else {
      MembersJoin(a[1..], b);
      Regroup([COMMA], PrintMembers(a[1..]), More(b));
      Regroup(PrintMember(a[0]), More(a[1..]), More(b));
    }
  }

  lemma {:induction false} ItemsSnoc(items: seq<Json>, j: Json)
    ensures PrintItems(items + [j]) == PrintItems(items) + (if items == [] then [] else [COMMA]) + Print(j)
  {
    if items == [] {
      assert items + [j] == [j];
    } else {
      assert (items + [j])[1..] == items[1..] + [j];
      if |items| == 1 {
        assert items[1..] + [j] == [j];
        Regroup(Print(items[0]), [COMMA], Print(j));
      } else {
        ItemsSnoc(items[1..], j);
        var rest := PrintItems(items[1..]);
        Regroup(rest, [COMMA], Print(j));
        Regroup([COMMA], rest, [COMMA] + Print(j));
        Regroup(Print(items[0]), [COMMA] + rest, [COMMA] + Print(j));
        Regroup(PrintItems(items), [COMMA], Print(j));
      }
    }
  }

  lemma {:induction false} ItemsGrow(items: seq<Json>, k: nat)
    requires k <= |items|
    ensures |PrintItems(items[..k])| <= |PrintItems(items)|
    decreases |items| - k
  {
    if k < |items| {
      ItemsSnoc(items[..k], items[k]);
      assert items[..k] + [items[k]] == items[..k + 1];
      ItemsGrow(items, k + 1);
    } else {
      assert items[..k] == items;
    }
  }

  lemma EscapeFirst(a: seq<Byte>, b: seq<Byte>)
    requires a != []
    ensures EscapeAll(a + b) == Escape(a[0]) + EscapeAll(a[1..] + b)
  {
    assert (a + b)[1..] == a[1..] + b;
  }

  lemma {:induction false} EscapeJoin(a: seq<Byte>, b: seq<Byte>)
    ensures EscapeAll(a + b) == EscapeAll(a) + EscapeAll(b)
  {
    if a == [] {
      assert a + b == b;
    } else {
      EscapeFirst(a, b);
      EscapeJoin(a[1..], b);
      Regroup(Escape(a[0]), EscapeAll(a[1..]), EscapeAll(b));
    }
  }

  lemma {:induction false} PlainIsItself(text: seq<Byte>)
    requires forall i :: 0 <= i < |text| ==> PlainByte(text[i])
    ensures EscapeAll(text) == text
  {
    if text != [] {
      PlainIsItself(text[1..]);
    }
  }
}
