/** Unsigned numbers in decimal digits. */
module Decimal {
  import opened Types

  function Digits(v: nat): (digits: seq<Byte>)
    ensures digits != [] && forall i :: 0 <= i < |digits| ==> 48 <= digits[i] <= 57
  {
    if v < 10 then [48 + v] else Digits(v / 10) + [48 + v % 10]
  }

  function ReadDigits(digits: seq<Byte>): Option<nat> {
    if digits == [] then Some(0)
    else
      var n := |digits| - 1;
      var front := ReadDigits(digits[..n]);
      if front.None? || !(48 <= digits[n] <= 57) then None
      else Some(front.value * 10 + digits[n] - 48)
  }

  lemma {:induction false} DigitsAreRead(v: nat)
    ensures ReadDigits(Digits(v)) == Some(v)
  {
    var n := |Digits(v)| - 1;
    if v < 10 {
      assert ReadDigits(Digits(v)[..0]) == Some(0);
    } else {
      DigitsAreRead(v / 10);
      assert Digits(v)[..n] == Digits(v / 10);
    }
  }

  function Pow10(n: nat): nat {
    if n == 0 then 1 else 10 * Pow10(n - 1)
  }

  lemma {:induction false} DigitsFit(v: nat, n: nat)
    requires n > 0 && v < Pow10(n)
    ensures |Digits(v)| <= n
  {
    if v >= 10 {
      DigitsFit(v / 10, n - 1);
    }
  }

  /** A 64-bit value never needs more than twenty digits. */
  lemma TwentyDigits(v: U64)
    ensures |Digits(v)| <= 20
  {
    assert Pow10(5) == 100_000;
    assert Pow10(10) == 10_000_000_000;
    assert Pow10(15) == 1_000_000_000_000_000;
    assert Pow10(20) == 100_000_000_000_000_000_000;
    DigitsFit(v, 20);
  }
}
