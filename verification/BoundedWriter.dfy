/** The appending writer of both two-pass encoders: without an output it only measures. */
module BoundedWriter {
  import opened Types
  import opened Buffers

  // size_t of the 32-bit target.
  const SIZE_MAX := 0xFFFF_FFFF

  class Writer {
    const output: array?<Byte>
    const capacity: nat
    var size: nat
    ghost const was: seq<Byte>
    ghost var written: seq<Byte>

    ghost predicate Valid()
      reads this, output
    {
      && size == |written| <= Limit()
      && (output != null ==> capacity <= output.Length == |was| && Written(output[..], written, was))
    }

    // What a text may grow to.
    function Limit(): nat {
      if output == null then SIZE_MAX else Min(capacity, SIZE_MAX)
    }

    constructor (output: array?<Byte>, capacity: nat)
      requires output != null ==> capacity <= output.Length
      ensures Valid() && written == [] && this.output == output && this.capacity == capacity
      ensures output != null ==> was == output[..]
    {
      this.output := output;
      this.capacity := capacity;
      size := 0;
      written := [];
      was := if output == null then [] else output[..];
    }

    /** Appends all of the bytes, or none when they do not fit. */
    method Append(bytes: seq<Byte>) returns (ok: bool)
      requires Valid()
      modifies this, output
      ensures Valid()
      ensures ok == (|old(written)| + |bytes| <= Limit())
      ensures written == if ok then old(written) + bytes else old(written)
    {
      if |bytes| > SIZE_MAX - size {
        return false;
      }
      if output != null && (size > capacity || |bytes| > capacity - size) {
        return false;
      }
      if output != null {
        ghost var before := output[..];
        Copy(bytes, output, size);
        WriteExtends(before, output[..], written, bytes, was);
      }
      size := size + |bytes|;
      written := written + bytes;
      return true;
    }
  }
}
