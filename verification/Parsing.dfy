/** Parsers as functions from the bytes still to be read. */
module Parsing {
  import opened Types

  // What was read and what is left; the members make `:-` propagate failure.
  datatype Parsed<T> = Fail | Got(value: T, rest: seq<Byte>) {
    predicate IsFailure() { Fail? }

    function PropagateFailure<U>(): Parsed<U>
      requires Fail?
    {
      Fail
    }

    function Extract(): (T, seq<Byte>)
      requires Got?
    {
      (value, rest)
    }
  }
}
