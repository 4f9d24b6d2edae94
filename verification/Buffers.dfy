/** Writing into byte buffers. */
module Buffers {
  import opened Types

  /** Writes source into target from position `to` on. */
  method Copy(source: seq<Byte>, target: array<Byte>, to: nat)
    requires to + |source| <= target.Length
    modifies target
    ensures target[..] == old(target[..to]) + source + old(target[to + |source|..])
  {
    for i := 0 to |source|
      invariant target[..] == old(target[..to]) + source[..i] + old(target[to + i..])
    {
      target[to + i] := source[i];
    }
  }

  // The first bytes of the buffer are those of prefix; the others are as they were.
  ghost predicate Written(now: seq<Byte>, prefix: seq<Byte>, was: seq<Byte>) {
    |prefix| <= |was| && now == prefix + was[|prefix|..]
  }

  lemma WriteExtends(before: seq<Byte>, after: seq<Byte>, prefix: seq<Byte>, bytes: seq<Byte>, was: seq<Byte>)
    requires Written(before, prefix, was) && |prefix| + |bytes| <= |was|
    requires after == before[..|prefix|] + bytes + before[|prefix| + |bytes|..]
    ensures Written(after, prefix + bytes, was)
  {
    assert before[..|prefix|] == prefix;
    assert before[|prefix| + |bytes|..] == was[|prefix + bytes|..];
  }

  // The first elements of a buffer; a null buffer has none.
  ghost function Prefix<T>(buffer: array?<T>, count: nat): seq<T>
    requires count > 0 ==> buffer != null && count <= buffer.Length
    reads buffer
  {
    if count == 0 then [] else buffer[..count]
  }

  // The buffer starts with these elements; it may be null when there are none.
  ghost predicate Holds<T>(buffer: array?<T>, count: nat, elements: seq<T>)
    reads buffer
  {
    |elements| == count && (count > 0 ==> buffer != null && count <= buffer.Length && buffer[..count] == elements)
  }
}
