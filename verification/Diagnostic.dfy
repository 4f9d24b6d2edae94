/** The boundary between diagnostic services and a transport, and the policy guard on it. */
module Diagnostic {
  import opened Types
  import opened Time

  datatype TransportStatus =
    | Idle | InProgress | Complete | MessageReady | NoData | Ignored | Busy
    | InvalidArgument | InvalidFrame | UnexpectedFrame | Overflow | SequenceError
    | Timeout | WaitLimitExceeded | FlowControlOverflow | TxBusy | TxFailed
    | BusOff | NotInitialized | CanError

  predicate NonFailing(status: TransportStatus) {
    status in {Idle, InProgress, Complete}
  }

  // A call on a transport, its answer, and how often the clock had been read by then.
  datatype Call =
    | Sent(payload: seq<Byte>, answer: TransportStatus, readings: nat)
    | Polled(answer: TransportStatus, readings: nat)
    | Received(answer: TransportStatus, length: nat, buffer: seq<Byte>, readings: nat)
    | Discarded(readings: nat)

  /**
   Any transport. It may answer anything and take time to do so; it records every call with
   its answer. A bounded transport never completes a receive longer than the buffer.
   */
  class DiagnosticTransport {
    const clock: Clock
    const bounded: bool
    ghost var calls: seq<Call>

    constructor (clock: Clock, bounded: bool)
      ensures this.clock == clock && this.bounded == bounded && calls == []
    {
      this.clock, this.bounded := clock, bounded;
      calls := [];
    }

    // One more call was recorded; time may have passed, but the clock was not read.
    twostate predicate Recorded(call: Call)
      reads this, clock
    {
      calls == old(calls) + [call] && clock.readings == old(clock.readings) && old(clock.now) <= clock.now
    }

    method StartSend(payload: seq<Byte>) returns (status: TransportStatus)
      modifies this, clock
      ensures Recorded(Sent(payload, status, |clock.readings|))
    {
      status := *;
      clock.Pass();
      calls := calls + [Sent(payload, status, |clock.readings|)];
    }

    method Poll() returns (status: TransportStatus)
      modifies this, clock
      ensures Recorded(Polled(status, |clock.readings|))
    {
      status := *;
      clock.Pass();
      calls := calls + [Polled(status, |clock.readings|)];
    }

    method Receive(buffer: array<Byte>) returns (status: TransportStatus, length: nat)
      modifies this, clock, buffer
      ensures bounded && status == Complete ==> length <= buffer.Length
      ensures Recorded(Received(status, length, buffer[..], |clock.readings|))
    {
      status := *;
      length :| bounded ==> length <= buffer.Length;
      for i := 0 to buffer.Length
        invariant calls == old(calls) && clock.readings == old(clock.readings) && clock.now == old(clock.now)
      {
        buffer[i] := *;
      }
      clock.Pass();
      calls := calls + [Received(status, length, buffer[..], |clock.readings|)];
    }

    method DiscardPendingMessage()
      modifies this, clock
      ensures Recorded(Discarded(|clock.readings|))
    {
      clock.Pass();
      calls := calls + [Discarded(|clock.readings|)];
    }
  }
}
