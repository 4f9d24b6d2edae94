/** UTF-8 as RFC 3629 section 4 defines it, and the routine that recognises it. */
module Utf8 {
  import opened Types

  // A Unicode scalar value: a code point that is not a surrogate.
  type Scalar = v: int | 0 <= v <= 0x10FFFF && !(0xD800 <= v <= 0xDFFF)

  function EncodeScalar(v: Scalar): (bytes: seq<Byte>)
    ensures 1 <= |bytes| <= 4
  {
    if v < 0x80 then [v]
    else if v < 0x800 then [0xC0 + v / 64, 0x80 + v % 64]
    else if v < 0x1_0000 then [0xE0 + v / 4096, 0x80 + v / 64 % 64, 0x80 + v % 64]
    else [0xF0 + v / 0x4_0000, 0x80 + v / 4096 % 64, 0x80 + v / 64 % 64, 0x80 + v % 64]
  }

  function Encode(text: seq<Scalar>): seq<Byte> {
    if text == [] then [] else EncodeScalar(text[0]) + Encode(text[1..])
  }

  // ---- The rules of the recogniser ----

  // How many continuation bytes follow a lead byte; None for bytes that lead nothing.
  function Continuations(lead: Byte): Option<nat> {
    if lead <= 0x7F then Some(0)
    else if 0xC2 <= lead <= 0xDF then Some(1)
    else if 0xE0 <= lead <= 0xEF then Some(2)
    else if 0xF0 <= lead <= 0xF4 then Some(3)
    else None
  }

  // The range of the second byte excludes overlong forms, surrogates and large values.
  function SecondMin(lead: Byte): Byte {
    if lead == 0xE0 then 0xA0 else if lead == 0xF0 then 0x90 else 0x80
  }

  function SecondMax(lead: Byte): Byte {
    if lead == 0xED then 0x9F else if lead == 0xF4 then 0x8F else 0xBF
  }

  predicate IsContinuation(b: Byte) {
    0x80 <= b <= 0xBF
  }

  // The length of the well-formed sequence bytes start with; 0 if they start with none.
  function FirstLength(bytes: seq<Byte>): (n: nat)
    ensures n <= |bytes|
  {
    if bytes == [] then 0
    else
      match Continuations(bytes[0])
      case None => 0
      case Some(0) => 1
      case Some(n) =>
        if n > |bytes| - 1 || !(SecondMin(bytes[0]) <= bytes[1] <= SecondMax(bytes[0])) then 0
        else if n >= 2 && !IsContinuation(bytes[2]) then 0
        else if n >= 3 && !IsContinuation(bytes[3]) then 0
        else n + 1
  }

  predicate WellFormed(bytes: seq<Byte>)
    decreases |bytes|
  {
    bytes == [] || (FirstLength(bytes) > 0 && WellFormed(bytes[FirstLength(bytes)..]))
  }

  // ---- Exactness ----

  // The payload bits of a sequence of one to four bytes.
  function Bits2(a: int, b: int): int {
    (a - 0xC0) * 64 + (b - 0x80)
  }

  function Bits3(a: int, b: int, c: int): int {
    (a - 0xE0) * 4096 + (b - 0x80) * 64 + (c - 0x80)
  }

  function Bits4(a: int, b: int, c: int, d: int): int {
    (a - 0xF0) * 0x4_0000 + (b - 0x80) * 4096 + (c - 0x80) * 64 + (d - 0x80)
  }

  function Value(bytes: seq<Byte>): int
    requires 1 <= |bytes| <= 4
  {
    match |bytes|
    case 1 => bytes[0]
    case 2 => Bits2(bytes[0], bytes[1])
    case 3 => Bits3(bytes[0], bytes[1], bytes[2])
    case _ => Bits4(bytes[0], bytes[1], bytes[2], bytes[3])
  }

  function DecodeFirst(bytes: seq<Byte>): (v: Scalar)
    requires FirstLength(bytes) > 0
    ensures EncodeScalar(v) == bytes[..FirstLength(bytes)]
  {
    FirstIsEncoding(bytes);
    Value(bytes[..FirstLength(bytes)])
  }

  lemma FirstIsEncoding(bytes: seq<Byte>)
    requires FirstLength(bytes) > 0
    ensures var v := Value(bytes[..FirstLength(bytes)]);
      0 <= v <= 0x10FFFF && !(0xD800 <= v <= 0xDFFF) && EncodeScalar(v) == bytes[..FirstLength(bytes)]
  {
    match FirstLength(bytes)
    case 1 =>
    case 2 => TwoBytes(bytes[0], bytes[1]);
    case 3 => ThreeBytes(bytes[0], bytes[1], bytes[2]);
    case _ => FourBytes(bytes[0], bytes[1], bytes[2], bytes[3]);
  }

  lemma TwoBytes(a: int, b: int)
    requires 0xC2 <= a <= 0xDF && 0x80 <= b <= 0xBF
    ensures var v := Bits2(a, b); 0x80 <= v < 0x800 && v / 64 == a - 0xC0 && v % 64 == b - 0x80
  {
  }

  lemma ThreeBytes(a: int, b: int, c: int)
    requires 0xE0 <= a <= 0xEF && 0x80 <= b <= 0xBF && 0x80 <= c <= 0xBF
    requires (a == 0xE0 ==> b >= 0xA0) && (a == 0xED ==> b <= 0x9F)
    ensures var v := Bits3(a, b, c);
      && 0x800 <= v < 0x1_0000 && !(0xD800 <= v <= 0xDFFF)
      && v / 4096 == a - 0xE0 && v / 64 % 64 == b - 0x80 && v % 64 == c - 0x80
  {
    assert Bits3(a, b, c) / 64 == (a - 0xE0) * 64 + (b - 0x80);
  }

  lemma FourBytes(a: int, b: int, c: int, d: int)
    requires 0xF0 <= a <= 0xF4 && 0x80 <= b <= 0xBF && 0x80 <= c <= 0xBF && 0x80 <= d <= 0xBF
    requires (a == 0xF0 ==> b >= 0x90) && (a == 0xF4 ==> b <= 0x8F)
    ensures var v := Bits4(a, b, c, d);
      && 0x1_0000 <= v <= 0x10FFFF
      && v / 0x4_0000 == a - 0xF0 && v / 4096 % 64 == b - 0x80 && v / 64 % 64 == c - 0x80 && v % 64 == d - 0x80
  {
    assert Bits4(a, b, c, d) / 64 == ((a - 0xF0) * 64 + (b - 0x80)) * 64 + (c - 0x80);
    assert Bits4(a, b, c, d) / 4096 == (a - 0xF0) * 64 + (b - 0x80);
  }

  lemma ValueOfEncoding(v: Scalar)
    ensures Value(EncodeScalar(v)) == v
  {
    assert v / 64 / 64 == v / 4096 && v / 4096 / 64 == v / 0x4_0000;
  }

  /** One encoded scalar is recognised as such, whatever follows it. */
  lemma ScalarIsRecognised(v: Scalar, rest: seq<Byte>)
    ensures FirstLength(EncodeScalar(v) + rest) == |EncodeScalar(v)|
    ensures DecodeFirst(EncodeScalar(v) + rest) == v
  {
    EncodedIsFirst(v, EncodeScalar(v) + rest);
    ValueOfEncoding(v);
  }

  lemma EncodedIsFirst(v: Scalar, bytes: seq<Byte>)
    requires EncodeScalar(v) <= bytes
    ensures FirstLength(bytes) == |EncodeScalar(v)|
  {
    var e := EncodeScalar(v);
    assert forall i :: 0 <= i < |e| ==> bytes[i] == e[i];
  }

  lemma {:induction false} EncodedIsWellFormed(text: seq<Scalar>)
    ensures WellFormed(Encode(text))
  {
    if text != [] {
      ScalarIsRecognised(text[0], Encode(text[1..]));
      EncodedIsWellFormed(text[1..]);
      assert Encode(text)[|EncodeScalar(text[0])|..] == Encode(text[1..]);
    }
  }

  function Decode(bytes: seq<Byte>): (text: seq<Scalar>)
    requires WellFormed(bytes)
    ensures Encode(text) == bytes
    decreases |bytes|
  {
    if bytes == [] then []
    else
      var n := FirstLength(bytes);
      assert bytes == bytes[..n] + bytes[n..];
      var rest := Decode(bytes[n..]);
      assert ([DecodeFirst(bytes)] + rest)[1..] == rest;
      [DecodeFirst(bytes)] + rest
  }

  /** Accepted are exactly the encodings of sequences of scalar values. */
  lemma WellFormedIsExact(bytes: seq<Byte>)
    ensures WellFormed(bytes) <==> exists text :: Encode(text) == bytes
  {
    if WellFormed(bytes) {
      assert Encode(Decode(bytes)) == bytes;
    }
    forall text | Encode(text) == bytes
      ensures WellFormed(bytes)
    {
      EncodedIsWellFormed(text);
    }
  }

  /** No byte string encodes two texts. */
  lemma {:induction false} EncodingIsUnique(s: seq<Scalar>, t: seq<Scalar>)
    requires Encode(s) == Encode(t)
    ensures s == t
  {
    if s != [] && t != [] {
      ScalarIsRecognised(s[0], Encode(s[1..]));
      ScalarIsRecognised(t[0], Encode(t[1..]));
      var n := |EncodeScalar(s[0])|;
      assert Encode(s[1..]) == Encode(s)[n..] == Encode(t)[n..] == Encode(t[1..]);
      EncodingIsUnique(s[1..], t[1..]);
      assert s == [s[0]] + s[1..] && t == [t[0]] + t[1..];
    }
  }

  lemma {:induction false} EncodeConcatenation(s: seq<Scalar>, t: seq<Scalar>)
    ensures Encode(s + t) == Encode(s) + Encode(t)
  {
    if s == [] {
      assert s + t == t;
    } else {
      assert (s + t)[1..] == s[1..] + t;
      EncodeConcatenation(s[1..], t);
    }
  }

  /** Accepted strings are closed under concatenation. */
  lemma ConcatenationIsWellFormed(a: seq<Byte>, b: seq<Byte>)
    requires WellFormed(a) && WellFormed(b)
    ensures WellFormed(a + b)
  {
    EncodeConcatenation(Decode(a), Decode(b));
    EncodedIsWellFormed(Decode(a) + Decode(b));
  }

  // Only U+0000 is encoded with a zero byte.
  lemma {:induction false} ZeroBytes(text: seq<Scalar>)
    ensures 0 in Encode(text) <==> 0 in text
  {
    if text != [] {
      ZeroBytes(text[1..]);
    }
  }

  /** The byte loop: every read is in bounds and the verdict is exact. */
  method IsWellFormedUtf8(value: array<Byte>, length: nat) returns (accepted: bool)
    requires length <= value.Length
    ensures accepted <==> WellFormed(value[..length])
  {
    var index := 0;
    ghost var bytes := value[..length];
    while index < length
      invariant index <= length
      invariant WellFormed(bytes) <==> WellFormed(bytes[index..])
    {
      ghost var at, rest := index, bytes[index..];
      var lead := value[index];
      index := index + 1;
      if lead <= 0x7F {
        assert FirstLength(rest) == 1 && rest[1..] == bytes[index..];
        continue;
      }
      var continuationCount := 0;
      var secondMin, secondMax := 0x80, 0xBF;
      if 0xC2 <= lead <= 0xDF {
        continuationCount := 1;
      } else if 0xE0 <= lead <= 0xEF {
        continuationCount := 2;
        if lead == 0xE0 { secondMin := 0xA0; }
        if lead == 0xED { secondMax := 0x9F; }
      } else if 0xF0 <= lead <= 0xF4 {
        continuationCount := 3;
        if lead == 0xF0 { secondMin := 0x90; }
        if lead == 0xF4 { secondMax := 0x8F; }
      } else {
        return false;
      }
      assert Continuations(rest[0]) == Some(continuationCount);
      if continuationCount > length - index || value[index] < secondMin || value[index] > secondMax {
        return false;
      }
      index := index + 1;
      var part := 1;
      while part < continuationCount
        invariant 1 <= part <= continuationCount && index == at + 1 + part
        invariant part >= 2 ==> IsContinuation(rest[2])
        invariant part >= 3 ==> IsContinuation(rest[3])
      {
        assert value[index] == rest[part + 1];
        if value[index] < 0x80 || value[index] > 0xBF {
          return false;
        }
        index := index + 1;
        part := part + 1;
      }
      assert FirstLength(rest) == continuationCount + 1;
      assert rest[continuationCount + 1..] == bytes[index..];
    }
    accepted := true;
  }
}
