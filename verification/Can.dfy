/** CAN frames and the CAN driver boundary. */
module Can {
  import opened Types
  import opened Time

  // UnknownFormat stands for an enumeration value outside the two declared ones.
  datatype Format = Standard | Extended | UnknownFormat

  type Payload8 = s: seq<Byte> | |s| == 8 witness [0, 0, 0, 0, 0, 0, 0, 0]

  datatype CanFrame = CanFrame(id: U32, format: Format, length: Byte, payload: Payload8) {
    predicate Valid() {
      length <= 8 && ValidId(id, format)
    }

    // Upper and lower half of the protocol control byte.
    function Pci(): (n: nat)
      ensures n < 16
    {
      payload[0] / 16
    }

    function Low(): (n: nat)
      ensures n < 16
    {
      payload[0] % 16
    }
  }

  predicate ValidId(id: U32, format: Format) {
    match format
    case Standard => id <= 0x7FF
    case Extended => id <= 0x1FFF_FFFF
    case UnknownFormat => false
  }

  datatype CanStatus =
    | Ok | NotInitialized | InvalidConfig | NoData | TxBusy | TxFailed
    | DriverError | RxOverflow | BusOff

  /** Zero-fills the unused tail of a frame. */
  function Pad(s: seq<Byte>): (p: Payload8)
    requires |s| <= 8
    ensures p[..|s|] == s
  {
    s + seq(8 - |s|, _ => 0)
  }

  // A frame the driver was offered, its answer, and how often the clock had been read by then.
  datatype Offer = Offer(frame: CanFrame, status: CanStatus, readings: nat)

  /** The driver: answers anything and may take time to do so. It records every offer with its answer. */
  class CanHal {
    const clock: Clock
    ghost var offered: seq<Offer>

    constructor (clock: Clock)
      ensures this.clock == clock && offered == []
    {
      this.clock := clock;
      offered := [];
    }

    method Send(frame: CanFrame) returns (status: CanStatus)
      modifies this, clock
      ensures old(clock.now) <= clock.now && clock.readings == old(clock.readings)
      ensures offered == old(offered) + [Offer(frame, status, |clock.readings|)]
    {
      status := *;
      clock.Pass();
      offered := offered + [Offer(frame, status, |clock.readings|)];
    }
  }
}
