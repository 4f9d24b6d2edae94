/** The time source every component reads. */
module Time {
  import opened Types

  /**
   Monotone millisecond clock: any amount of time may pass before a reading. It records
   what it was read as, so that contracts can say which readings a call made.
   */
  class Clock {
    var now: U64
    ghost var readings: seq<nat>

    constructor ()
      ensures readings == []
    {
      now := 0;
      readings := [];
    }

    method NowMs() returns (t: U64)
      modifies this
      ensures t == now >= old(now) && readings == old(readings) + [t]
    {
      t :| t >= now;
      now := t;
      readings := readings + [t];
    }

    // Time passes without a reading, as it may inside a foreign call.
    method Pass()
      modifies this
      ensures now >= old(now) && readings == old(readings)
    {
      var t: U64 :| t >= now;
      now := t;
    }
  }
}
