/** Fixed-width integers as byte strings, in both byte orders. */
module Endian {
  import opened Types

  function Pow256(n: nat): (p: nat)
    ensures p > 0
  {
    if n == 0 then 1 else 256 * Pow256(n - 1)
  }

  function BigEndian(bytes: seq<Byte>): (v: nat)
    ensures v < Pow256(|bytes|)
  {
    if bytes == [] then 0 else BigEndian(bytes[..|bytes| - 1]) * 256 + bytes[|bytes| - 1]
  }

  function ToBigEndian(v: nat, n: nat): (bytes: seq<Byte>)
    ensures |bytes| == n
  {
    if n == 0 then [] else ToBigEndian(v / 256, n - 1) + [v % 256]
  }

  lemma {:induction false} BigEndianValue(v: nat, n: nat)
    requires v < Pow256(n)
    ensures BigEndian(ToBigEndian(v, n)) == v
  {
    if n > 0 {
      BigEndianValue(v / 256, n - 1);
      assert ToBigEndian(v, n)[..n - 1] == ToBigEndian(v / 256, n - 1);
    }
  }

  lemma {:induction false} BigEndianBytes(bytes: seq<Byte>)
    ensures ToBigEndian(BigEndian(bytes), |bytes|) == bytes
  {
    if bytes != [] {
      var n := |bytes| - 1;
      BigEndianBytes(bytes[..n]);
      assert BigEndian(bytes) / 256 == BigEndian(bytes[..n]) && BigEndian(bytes) % 256 == bytes[n];
      assert bytes == bytes[..n] + [bytes[n]];
    }
  }

  function LittleEndian(bytes: seq<Byte>): (v: nat)
    ensures v < Pow256(|bytes|)
  {
    if bytes == [] then 0 else bytes[0] + 256 * LittleEndian(bytes[1..])
  }

  function ToLittleEndian(v: nat, n: nat): (bytes: seq<Byte>)
    ensures |bytes| == n
  {
    if n == 0 then [] else [v % 256] + ToLittleEndian(v / 256, n - 1)
  }

  lemma {:induction false} LittleEndianValue(v: nat, n: nat)
    requires v < Pow256(n)
    ensures LittleEndian(ToLittleEndian(v, n)) == v
  {
    if n > 0 {
      LittleEndianValue(v / 256, n - 1);
      assert ToLittleEndian(v, n)[1..] == ToLittleEndian(v / 256, n - 1);
    }
  }

  lemma {:induction false} LittleEndianBytes(bytes: seq<Byte>)
    ensures ToLittleEndian(LittleEndian(bytes), |bytes|) == bytes
  {
    if bytes != [] {
      LittleEndianBytes(bytes[1..]);
      assert LittleEndian(bytes) / 256 == LittleEndian(bytes[1..]) && LittleEndian(bytes) % 256 == bytes[0];
    }
  }

  lemma Widths()
    ensures Pow256(1) == 0x100 && Pow256(2) == 0x1_0000
    ensures Pow256(4) == 0x1_0000_0000 && Pow256(8) == 0x1_0000_0000_0000_0000
  {
  }

  lemma {:induction false} LittleEndianSnoc(bytes: seq<Byte>, b: Byte)
    ensures LittleEndian(bytes + [b]) == LittleEndian(bytes) + b * Pow256(|bytes|)
  {
    if bytes == [] {
      assert [b][1..] == [];
    } else {
      LittleEndianSnoc(bytes[1..], b);
      assert (bytes + [b])[1..] == bytes[1..] + [b];
      assert 256 * (b * Pow256(|bytes| - 1)) == b * (256 * Pow256(|bytes| - 1));
    }
  }

  // The value shifted right by a number of whole bytes.
  function Shifted(v: nat, bytes: nat): nat {
    if bytes == 0 then v else Shifted(v / 256, bytes - 1)
  }

  lemma {:induction false} LittleEndianAt(v: nat, n: nat, i: nat)
    requires i < n
    ensures ToLittleEndian(v, n)[i] == Shifted(v, i) % 256
  {
    if i > 0 {
      LittleEndianAt(v / 256, n - 1, i - 1);
    }
  }

  lemma {:induction false} BigEndianAt(v: nat, n: nat, i: nat)
    requires i < n
    ensures ToBigEndian(v, n)[i] == Shifted(v, n - 1 - i) % 256
  {
    if i < n - 1 {
      BigEndianAt(v / 256, n - 1, i);
    }
  }
}
