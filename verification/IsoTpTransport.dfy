/**
 The transport object: two byte buffers, offsets, counters and deadlines, all
 updated in place. Every public method performs exactly one step of IsoTpSpec.
 */
module IsoTpTransport {
  import opened Types
  import opened Buffers
  import opened Can
  import opened Diagnostic
  import opened IsoTpSpec

  class IsoTpTransport {
    const can: CanHal
    const config: Config
    const rxPayload: array<Byte>
    const txPayload: array<Byte>

    var rxReceiving: bool
    var rxMessageReady: bool
    var rxExpectedLength: nat
    var rxOffset: nat
    var rxMessageLength: nat
    var rxExpectedSequence: nat
    var rxBlockCount: nat
    var rxDeadlineMs: nat

    var txIdle: bool
    var txSending: bool
    var txLength: nat
    var txOffset: nat
    var txSequence: nat
    var txBlockSize: nat
    var txBlockRemaining: nat
    var txWaitCount: nat
    var txSeparationMs: nat
    var txDeadlineMs: nat
    var txNextSendMs: nat
    var txLastCfMs: nat
    var txHasLastCf: bool

    ghost predicate RxInRange()
      reads this`rxReceiving, this`rxMessageReady, this`rxExpectedLength, this`rxOffset, this`rxMessageLength,
            this`rxExpectedSequence, this`rxBlockCount, this`rxDeadlineMs, rxPayload
    {
      && rxPayload.Length == MAX_PAYLOAD
      && !(rxReceiving && rxMessageReady)
      && (rxReceiving ==> rxOffset < rxExpectedLength <= MAX_PAYLOAD)
      && (if rxMessageReady then rxMessageLength <= MAX_PAYLOAD else rxMessageLength == 0)
    }

    ghost predicate TxInRange()
      reads this`txIdle, this`txSending, this`txLength, this`txOffset, this`txSequence, this`txBlockSize,
            this`txBlockRemaining, this`txWaitCount, this`txSeparationMs, this`txDeadlineMs,
            this`txNextSendMs, this`txLastCfMs, this`txHasLastCf, txPayload
    {
      && txPayload.Length == MAX_PAYLOAD
      && (!txIdle ==> txLength <= MAX_PAYLOAD && txOffset < txLength)
      && (txIdle ==>
            && txWaitCount == txBlockSize == txBlockRemaining == txSeparationMs == 0
            && !txHasLastCf)
    }

    /** The receive side as a value: the filled part of the buffer. */
    ghost function RxView(): Rx
      requires RxInRange()
      reads this`rxReceiving, this`rxMessageReady, this`rxExpectedLength, this`rxOffset, this`rxMessageLength,
            this`rxExpectedSequence, this`rxBlockCount, this`rxDeadlineMs, rxPayload
    {
      if rxReceiving then
        Receiving(rxExpectedLength, rxPayload[..rxOffset], rxExpectedSequence, rxBlockCount, rxDeadlineMs)
      else if rxMessageReady then Ready(rxPayload[..rxMessageLength])
      else Empty
    }

    /** The transmit side as a value: the message being sent and how far it got. */
    ghost function TxView(): Tx
      requires TxInRange()
      reads this`txIdle, this`txSending, this`txLength, this`txOffset, this`txSequence, this`txBlockSize,
            this`txBlockRemaining, this`txWaitCount, this`txSeparationMs, this`txDeadlineMs,
            this`txNextSendMs, this`txLastCfMs, this`txHasLastCf, txPayload
    {
      if txIdle then Silent
      else
        Open(txPayload[..txLength], txOffset, txSequence, txWaitCount, txBlockSize,
             txBlockRemaining, txSeparationMs,
             if txHasLastCf then Some(txLastCfMs) else None,
             if txSending then Sending(txNextSendMs) else WaitFlowControl(txDeadlineMs))
    }

    ghost predicate RxValid()
      reads this`rxReceiving, this`rxMessageReady, this`rxExpectedLength, this`rxOffset, this`rxMessageLength,
            this`rxExpectedSequence, this`rxBlockCount, this`rxDeadlineMs, rxPayload
    {
      RxInRange() && RxOk(config, RxView())
    }

    ghost predicate TxValid()
      reads this`txIdle, this`txSending, this`txLength, this`txOffset, this`txSequence, this`txBlockSize,
            this`txBlockRemaining, this`txWaitCount, this`txSeparationMs, this`txDeadlineMs,
            this`txNextSendMs, this`txLastCfMs, this`txHasLastCf, txPayload
    {
      TxInRange() && TxOk(config, TxView())
    }

    ghost predicate Valid()
      reads this, rxPayload, txPayload
    {
      rxPayload != txPayload && RxValid() && TxValid()
    }

    ghost function View(): Transport
      requires Valid()
      reads this, rxPayload, txPayload
    {
      Transport(RxView(), TxView())
    }

    // What the environment saw of a call: the clock readings before the driver was offered the
    // frame, the offer with its answer, and the clock readings after it.
    twostate predicate Witnessed(before: seq<nat>, sent: Option<CanFrame>, hal: Hal, after: seq<nat>)
      reads can, can.clock
    {
      && can.clock.readings == old(can.clock.readings) + before + after
      && can.offered == old(can.offered)
           + (if sent.Some? then [Offer(sent.value, hal.status, |old(can.clock.readings)| + |before|)] else [])
      && old(can.clock.now) <= can.clock.now
      && (after != [] ==> old(can.clock.now) <= hal.at <= can.clock.now)
    }

    // A call that leaves the receive fields and the receive buffer alone keeps the receive side.
    twostate lemma RxKept()
      requires old(RxValid())
      requires unchanged(this`rxReceiving, this`rxMessageReady, this`rxExpectedLength, this`rxOffset,
                         this`rxMessageLength, this`rxExpectedSequence, this`rxBlockCount, this`rxDeadlineMs,
                         rxPayload)
      ensures RxValid() && RxView() == old(RxView())
    {
    }

    // The same for the transmit side.
    twostate lemma TxKept()
      requires old(TxValid())
      requires unchanged(this`txIdle, this`txSending, this`txLength, this`txOffset, this`txSequence,
                         this`txBlockSize, this`txBlockRemaining, this`txWaitCount, this`txSeparationMs,
                         this`txDeadlineMs, this`txNextSendMs, this`txLastCfMs, this`txHasLastCf, txPayload)
      ensures TxValid() && TxView() == old(TxView())
    {
    }

    constructor (can: CanHal, config: Config)
      ensures Valid() && this.can == can && this.config == config
      ensures View() == FRESH
      ensures fresh(rxPayload) && fresh(txPayload)
    {
      this.can := can;
      this.config := config;
      rxPayload := new Byte[MAX_PAYLOAD](_ => 0);
      txPayload := new Byte[MAX_PAYLOAD](_ => 0);
      rxReceiving, rxMessageReady := false, false;
      rxExpectedLength, rxOffset, rxMessageLength := 0, 0, 0;
      rxExpectedSequence, rxBlockCount, rxDeadlineMs := 1, 0, 0;
      txIdle, txSending, txLength, txOffset, txSequence := true, false, 0, 0, 1;
      txBlockSize, txBlockRemaining, txWaitCount, txSeparationMs := 0, 0, 0, 0;
      txDeadlineMs, txNextSendMs, txLastCfMs, txHasLastCf := 0, 0, 0, false;
    }

    /** Sends one frame, or opens a multi-frame transfer with its First Frame. */
    method StartSend(payload: array?<Byte>, length: nat) returns (status: TransportStatus, ghost hal: Hal)
      requires Valid()
      requires payload != null ==> length <= payload.Length && payload != txPayload
      modifies this`txIdle, this`txSending, this`txLength, this`txOffset, this`txSequence, this`txBlockSize,
               this`txBlockRemaining, this`txWaitCount, this`txSeparationMs, this`txDeadlineMs,
               this`txNextSendMs, this`txLastCfMs, this`txHasLastCf, txPayload, can, can.clock
      ensures Valid() && RxView() == old(RxView())
      ensures var given := if payload == null then None else Some(old(payload[..length]));
        var o := TxStart(config, old(TxView()), given, hal);
        && TxView() == o.tx && status == o.status
        && Witnessed([], o.sent, hal, if o.status == InProgress then [hal.at] else [])
    {
      hal := Hal(Ok, 0);
      if payload == null {
        status := InvalidArgument;
      } else {
        status, hal := StartBytes(payload[..length]);
      }
      RxKept();
    }

    method StartBytes(data: seq<Byte>) returns (status: TransportStatus, ghost hal: Hal)
      requires TxValid()
      modifies this`txIdle, this`txSending, this`txLength, this`txOffset, this`txSequence, this`txBlockSize,
               this`txBlockRemaining, this`txWaitCount, this`txSeparationMs, this`txDeadlineMs,
               this`txNextSendMs, this`txLastCfMs, this`txHasLastCf, txPayload, can, can.clock
      ensures TxValid()
      ensures var o := TxStart(config, old(TxView()), Some(data), hal);
        && TxView() == o.tx && status == o.status
        && Witnessed([], o.sent, hal, if o.status == InProgress then [hal.at] else [])
    {
      hal := Hal(Ok, 0);
      if !config.Valid() || |data| == 0 || |data| > config.maxPayload || |data| > MAX_PAYLOAD {
        status := InvalidArgument;
      } else if !txIdle {
        status := Busy;
      } else {
        status, hal := SendPayload(data);
      }
    }

    method SendPayload(data: seq<Byte>) returns (status: TransportStatus, ghost hal: Hal)
      requires TxValid() && txIdle && config.Valid() && 1 <= |data| <= config.maxPayload
      modifies this`txIdle, this`txSending, this`txLength, this`txOffset, this`txSequence, this`txBlockSize,
               this`txBlockRemaining, this`txWaitCount, this`txSeparationMs, this`txDeadlineMs,
               this`txNextSendMs, this`txLastCfMs, this`txHasLastCf, txPayload, can, can.clock
      ensures TxValid()
      ensures var o := TxStart(config, Silent, Some(data), hal);
        && TxView() == o.tx && status == o.status
        && Witnessed([], o.sent, hal, if o.status == InProgress then [hal.at] else [])
    {
      if |data| <= 7 {
        var answer := can.Send(SingleFrame(config, data));
        status, hal := MapCanStatus(answer), Hal(answer, 0);
      } else {
        status, hal := OpenTransfer(data);
      }
    }

    method OpenTransfer(data: seq<Byte>) returns (status: TransportStatus, ghost hal: Hal)
      requires TxValid() && txIdle && config.Valid() && 8 <= |data| <= config.maxPayload
      modifies this`txIdle, this`txSending, this`txLength, this`txOffset, this`txSequence, this`txBlockSize,
               this`txBlockRemaining, this`txWaitCount, this`txSeparationMs, this`txDeadlineMs,
               this`txNextSendMs, this`txLastCfMs, this`txHasLastCf, txPayload, can, can.clock
      ensures TxValid()
      ensures var o := TxStart(config, Silent, Some(data), hal);
        && TxView() == o.tx && status == o.status
        && Witnessed([], o.sent, hal, if o.status == InProgress then [hal.at] else [])
    {
      LoadPayload(data);
      var answer := can.Send(FirstFrame(config, data));
      status := MapCanStatus(answer);
      if status != Complete {
        ResetTx();
        return status, Hal(answer, 0);
      }
      txIdle, txSending := false, false;
      var sentAt := can.clock.NowMs();
      txDeadlineMs := sentAt + config.flowControlTimeoutMs;
      return InProgress, Hal(answer, sentAt);
    }

    method LoadPayload(data: seq<Byte>)
      requires txPayload.Length == MAX_PAYLOAD && |data| <= MAX_PAYLOAD
      modifies this`txLength, this`txOffset, this`txSequence, this`txWaitCount, txPayload
      ensures txLength == |data| && txPayload[..txLength] == data
      ensures txOffset == 6 && txSequence == 1 && txWaitCount == 0
    {
      Copy(data, txPayload, 0);
      txLength, txOffset, txSequence, txWaitCount := |data|, 6, 1, 0;
    }

    /** Expires deadlines, or sends the next Consecutive Frame when it is due. */
    method Poll() returns (status: TransportStatus, ghost now: nat, ghost hal: Hal)
      requires Valid()
      modifies this, can, can.clock
      ensures Valid() && old(can.clock.now) <= now <= can.clock.now
      ensures var o := StepPoll(config, old(View()), now, hal);
        && View() == o.next && status == o.status
        && Witnessed(if config.Valid() then [now] else [], o.sent, hal,
                     if o.sent.Some? && hal.status == Ok then [hal.at] else [])
        && (o.sent.Some? && hal.status == Ok ==> now <= hal.at)
    {
      now, hal := can.clock.now, Hal(Ok, 0);
      if !config.Valid() {
        status := InvalidArgument;
      } else {
        status, now, hal := PollNow();
      }
    }

    /** Hands a complete message to the caller; a buffer too small leaves it in place. */
    method Receive(payload: array?<Byte>, capacity: nat) returns (status: TransportStatus, length: nat)
      requires Valid()
      requires payload != null ==> capacity <= payload.Length && payload != rxPayload && payload != txPayload
      modifies this`rxMessageReady, this`rxMessageLength, if payload == null then {} else {payload}
      ensures Valid() && TxView() == old(TxView())
      ensures var o := RxTake(old(RxView()), if payload == null then None else Some(capacity));
        RxView() == o.rx && status == o.status
      ensures length == if old(RxView().Ready?) then |old(RxView()).message| else 0
      ensures status == Complete ==>
        && payload != null && length <= capacity
        && payload[..] == old(RxView()).message + old(payload[..])[length..]
      ensures status != Complete && payload != null ==> payload[..] == old(payload[..])
    {
      length := rxMessageLength;
      if !rxMessageReady {
        return TransportStatus.NoData, length;
      }
      if payload == null || capacity < rxMessageLength {
        return Overflow, length;
      }
      Copy(rxPayload[..rxMessageLength], payload, 0);
      rxMessageReady := false;
      rxMessageLength := 0;
      return Complete, length;
    }

    method DiscardPendingMessage()
      requires Valid()
      modifies this`rxMessageReady, this`rxMessageLength
      ensures Valid() && View() == old(View()).(rx := RxDiscard(old(RxView())))
      ensures !RxView().Ready?
    {
      rxMessageReady := false;
      rxMessageLength := 0;
    }

    /** Routes one frame from the CAN owner. */
    method OnCanFrame(frame: CanFrame) returns (status: TransportStatus, ghost now: nat, ghost hal: Hal)
      requires Valid()
      modifies this, rxPayload, can, can.clock
      ensures Valid() && old(can.clock.now) <= now <= can.clock.now
      ensures var o := StepArrive(config, old(View()), frame, now, hal);
        && View() == o.next && status == o.status
        && Witnessed(if Addressed(config, frame) then [now] else [], o.sent, hal, [])
    {
      now, hal := can.clock.now, Hal(Ok, 0);
      if !config.Valid() {
        status := InvalidArgument;
      } else if frame.id != config.rxId || frame.format != config.format {
        status := Ignored;
      } else if !frame.Valid() || frame.length == 0 {
        status := InvalidFrame;
      } else {
        status, now, hal := AcceptNow(frame);
      }
    }

    // ---- Private helpers ----

    method PollNow() returns (status: TransportStatus, ghost now: nat, ghost hal: Hal)
      requires Valid() && config.Valid()
      modifies this, can, can.clock
      ensures Valid() && old(can.clock.now) <= now <= can.clock.now
      ensures var o := StepPoll(config, old(View()), now, hal);
        && View() == o.next && status == o.status
        && Witnessed([now], o.sent, hal, if o.sent.Some? && hal.status == Ok then [hal.at] else [])
        && (o.sent.Some? && hal.status == Ok ==> now <= hal.at)
    {
      var reading := can.clock.NowMs();
      now := reading;
      status, hal := PollAt(reading);
    }

    method AcceptNow(frame: CanFrame) returns (status: TransportStatus, ghost now: nat, ghost hal: Hal)
      requires Valid() && Addressed(config, frame)
      modifies this, rxPayload, can, can.clock
      ensures Valid() && old(can.clock.now) <= now <= can.clock.now
      ensures var o := StepArrive(config, old(View()), frame, now, hal);
        View() == o.next && status == o.status && Witnessed([now], o.sent, hal, [])
    {
      var reading := can.clock.NowMs();
      now := reading;
      status, hal := AcceptAt(frame, reading);
    }

    method PollAt(now: nat) returns (status: TransportStatus, ghost hal: Hal)
      requires Valid() && config.Valid()
      modifies this, can, can.clock
      ensures Valid()
      ensures var o := StepPoll(config, old(View()), now, hal);
        && View() == o.next && status == o.status
        && Witnessed([], o.sent, hal, if o.sent.Some? && hal.status == Ok then [hal.at] else [])
    {
      hal := Hal(Ok, 0);
      var expired := ExpireDeadline(now);
      if expired {
        status := Timeout;
      } else {
        status, hal := PollTransmit(now);
      }
    }

    method AcceptAt(frame: CanFrame, now: nat) returns (status: TransportStatus, ghost hal: Hal)
      requires Valid() && Addressed(config, frame)
      modifies this, rxPayload, can, can.clock
      ensures Valid()
      ensures var o := StepArrive(config, old(View()), frame, now, hal);
        View() == o.next && status == o.status && Witnessed([], o.sent, hal, [])
    {
      hal := Hal(Ok, 0);
      var expired := ExpireDeadline(now);
      if expired {
        status := Timeout;
      } else {
        status, hal := Dispatch(frame, now);
      }
    }

    method ExpireDeadline(now: nat) returns (expired: bool)
      requires Valid()
      modifies this
      ensures Valid() && expired == (RxExpired(old(RxView()), now) || TxExpired(old(TxView()), now))
      ensures RxView() == if RxExpired(old(RxView()), now) then Empty else old(RxView())
      ensures TxView() == if !RxExpired(old(RxView()), now) && TxExpired(old(TxView()), now)
                          then Silent else old(TxView())
    {
      if rxReceiving && now >= rxDeadlineMs {
        ResetRxAssembly();
        return true;
      }
      if !txIdle && !txSending && now >= txDeadlineMs {
        ResetTx();
        return true;
      }
      return false;
    }

    method Dispatch(frame: CanFrame, now: nat) returns (status: TransportStatus, ghost hal: Hal)
      requires Valid() && config.Valid() && frame.Valid() && frame.length >= 1
      modifies this, rxPayload, can, can.clock
      ensures Valid()
      ensures var o := Route(config, old(View()), frame, now, hal);
        && View() == o.next && status == o.status
        && Witnessed([], o.sent, hal, [])
    {
      hal := Hal(Ok, 0);
      if frame.Pci() == 3 {
        status := HandleFlowControl(frame, now);
        RxKept();
      } else if frame.Pci() <= 2 {
        status, hal := HandleDataFrame(frame, now);
        TxKept();
      } else {
        status := InvalidFrame;
      }
    }

    method HandleDataFrame(frame: CanFrame, now: nat) returns (status: TransportStatus, ghost hal: Hal)
      requires RxValid() && config.Valid() && frame.Valid() && frame.length >= 1 && frame.Pci() <= 2
      modifies this`rxReceiving, this`rxMessageReady, this`rxExpectedLength, this`rxOffset, this`rxMessageLength,
               this`rxExpectedSequence, this`rxBlockCount, this`rxDeadlineMs, rxPayload, can, can.clock
      ensures RxValid()
      ensures var o := RxOnData(config, old(RxView()), frame, now, hal);
        && RxView() == o.rx && status == o.status
        && Witnessed([], o.sent, hal, [])
    {
      hal := Hal(Ok, 0);
      match frame.Pci() {
        case 0 => status := HandleSingleFrame(frame);
        case 1 => status, hal := HandleFirstFrame(frame, now);
        case _ => status, hal := HandleConsecutiveFrame(frame, now);
      }
    }

    method HandleSingleFrame(frame: CanFrame) returns (status: TransportStatus)
      requires RxValid() && config.Valid() && frame.Valid()
      modifies this`rxReceiving, this`rxMessageReady, this`rxExpectedLength, this`rxOffset, this`rxMessageLength,
               this`rxExpectedSequence, this`rxBlockCount, this`rxDeadlineMs, rxPayload
      ensures RxValid()
      ensures var o := RxOnSingle(config, old(RxView()), frame); RxView() == o.rx && status == o.status
    {
      if rxReceiving || rxMessageReady {
        return Busy;
      }
      var length := frame.Low();
      if length == 0 || length > 7 || frame.length < length + 1 || length > config.maxPayload {
        return InvalidFrame;
      }
      Copy(frame.payload[1..1 + length], rxPayload, 0);
      rxMessageLength := length;
      rxMessageReady := true;
      return MessageReady;
    }

    method HandleFirstFrame(frame: CanFrame, now: nat) returns (status: TransportStatus, ghost hal: Hal)
      requires RxValid() && config.Valid()
      modifies this`rxReceiving, this`rxMessageReady, this`rxExpectedLength, this`rxOffset, this`rxMessageLength,
               this`rxExpectedSequence, this`rxBlockCount, this`rxDeadlineMs, rxPayload, can, can.clock
      ensures RxValid()
      ensures var o := RxOnFirst(config, old(RxView()), frame, now, hal);
        && RxView() == o.rx && status == o.status
        && Witnessed([], o.sent, hal, [])
    {
      hal := Hal(Ok, 0);
      if rxReceiving || rxMessageReady {
        return Busy, hal;
      }
      if frame.length != 8 {
        return InvalidFrame, hal;
      }
      var declared: nat := DeclaredLength(frame);
      if declared <= 7 || declared > MAX_PAYLOAD {
        return InvalidFrame, hal;
      }
      if declared > config.maxPayload {
        status, hal := SendFlowControl(2);
        return if status == Complete then Overflow else status, hal;
      }
      BeginAssembly(frame, declared, now);
      status, hal := SendFlowControl(0);
      if status != Complete {
        ResetRxAssembly();
        return;
      }
      return InProgress, hal;
    }

    method SendFlowControl(flowStatus: nat) returns (status: TransportStatus, ghost hal: Hal)
      requires flowStatus < 16
      modifies can, can.clock
      ensures status == MapCanStatus(hal.status) && Witnessed([], Some(FlowControl(config, flowStatus)), hal, [])
    {
      var answer := can.Send(FlowControl(config, flowStatus));
      return MapCanStatus(answer), Hal(answer, 0);
    }

    method BeginAssembly(frame: CanFrame, declared: nat, now: nat)
      requires RxInRange() && !rxReceiving && !rxMessageReady && frame.length == 8 && 7 < declared <= MAX_PAYLOAD
      modifies this`rxReceiving, this`rxMessageReady, this`rxExpectedLength, this`rxOffset, this`rxMessageLength,
               this`rxExpectedSequence, this`rxBlockCount, this`rxDeadlineMs, rxPayload
      ensures RxInRange() && !rxMessageReady
      ensures RxView() == Receiving(declared, frame.payload[2..8], 1, 0, now + config.consecutiveFrameTimeoutMs)
    {
      rxExpectedLength := declared;
      rxOffset := Min(frame.length - 2, declared);
      Copy(frame.payload[2..2 + rxOffset], rxPayload, 0);
      rxExpectedSequence := 1;
      rxBlockCount := 0;
      rxReceiving := true;
      rxDeadlineMs := now + config.consecutiveFrameTimeoutMs;
      assert rxPayload[..rxOffset] == frame.payload[2..8];
    }

    method HandleConsecutiveFrame(frame: CanFrame, now: nat) returns (status: TransportStatus, ghost hal: Hal)
      requires RxValid() && 1 <= frame.length <= 8
      modifies this`rxReceiving, this`rxMessageReady, this`rxExpectedLength, this`rxOffset, this`rxMessageLength,
               this`rxExpectedSequence, this`rxBlockCount, this`rxDeadlineMs, rxPayload, can, can.clock
      ensures RxValid()
      ensures var o := RxOnConsecutive(config, old(RxView()), frame, now, hal);
        && RxView() == o.rx && status == o.status
        && Witnessed([], o.sent, hal, [])
    {
      hal := Hal(Ok, 0);
      if !rxReceiving {
        return UnexpectedFrame, hal;
      }
      if frame.length < 2 {
        ResetRxAssembly();
        return InvalidFrame, hal;
      }
      var sequence := frame.Low();
      if sequence != rxExpectedSequence {
        ResetRxAssembly();
        return SequenceError, hal;
      }
      status, hal := AppendConsecutiveFrame(frame, now);
    }

    method AppendConsecutiveFrame(frame: CanFrame, now: nat) returns (status: TransportStatus, ghost hal: Hal)
      requires RxValid() && rxReceiving && 2 <= frame.length <= 8 && frame.Low() == rxExpectedSequence
      modifies this`rxReceiving, this`rxMessageReady, this`rxExpectedLength, this`rxOffset, this`rxMessageLength,
               this`rxExpectedSequence, this`rxBlockCount, this`rxDeadlineMs, rxPayload, can, can.clock
      ensures RxValid()
      ensures var o := RxOnConsecutive(config, old(RxView()), frame, now, hal);
        RxView() == o.rx && status == o.status && Witnessed([], o.sent, hal, [])
    {
      AppendData(frame);
      status, hal := SettleAssembly(now);
    }

    method SettleAssembly(now: nat) returns (status: TransportStatus, ghost hal: Hal)
      requires rxPayload.Length == MAX_PAYLOAD && rxReceiving && !rxMessageReady && rxMessageLength == 0
      requires 7 < rxExpectedLength <= config.maxPayload <= MAX_PAYLOAD && 6 <= rxOffset <= rxExpectedLength
      requires rxExpectedSequence < 16 && rxBlockCount < 256
      modifies this`rxReceiving, this`rxMessageReady, this`rxExpectedLength, this`rxOffset, this`rxMessageLength,
               this`rxExpectedSequence, this`rxBlockCount, this`rxDeadlineMs, can, can.clock
      ensures RxValid()
      ensures var o := RxSettle(config, old(rxExpectedLength), old(rxPayload[..rxOffset]),
                                old(rxExpectedSequence), old(rxBlockCount), now, hal);
        && RxView() == o.rx && status == o.status
        && Witnessed([], o.sent, hal, [])
    {
      hal := Hal(Ok, 0);
      if rxOffset == rxExpectedLength {
        rxMessageLength := rxExpectedLength;
        rxMessageReady := true;
        ResetRxAssembly();
        return MessageReady, hal;
      }
      rxDeadlineMs := now + config.consecutiveFrameTimeoutMs;
      if config.rxBlockSize != 0 && rxBlockCount >= config.rxBlockSize {
        rxBlockCount := 0;
        status, hal := SendFlowControl(0);
        if status != Complete {
          ResetRxAssembly();
          return;
        }
      }
      return InProgress, hal;
    }

    // Copies the data of an in-sequence Consecutive Frame behind what has arrived.
    method AppendData(frame: CanFrame)
      requires rxPayload.Length == MAX_PAYLOAD && 2 <= frame.length <= 8
      requires rxOffset < rxExpectedLength <= MAX_PAYLOAD
      modifies this`rxOffset, this`rxExpectedSequence, this`rxBlockCount, rxPayload
      ensures var count := Min(frame.length - 1, rxExpectedLength - old(rxOffset));
        && rxOffset == old(rxOffset) + count <= rxExpectedLength
        && rxPayload[..rxOffset] == old(rxPayload[..rxOffset]) + frame.payload[1..1 + count]
      ensures rxExpectedSequence == (frame.Low() + 1) % 16
      ensures rxBlockCount == (old(rxBlockCount) + 1) % 256
    {
      var remaining := rxExpectedLength - rxOffset;
      var copyLength := Min(frame.length - 1, remaining);
      Copy(frame.payload[1..1 + copyLength], rxPayload, rxOffset);
      rxOffset := rxOffset + copyLength;
      rxExpectedSequence := (frame.Low() + 1) % 16;
      rxBlockCount := (rxBlockCount + 1) % 256;
    }

    method HandleFlowControl(frame: CanFrame, now: nat) returns (status: TransportStatus)
      requires TxValid()
      modifies this`txIdle, this`txSending, this`txLength, this`txOffset, this`txSequence, this`txBlockSize,
               this`txBlockRemaining, this`txWaitCount, this`txSeparationMs, this`txDeadlineMs,
               this`txNextSendMs, this`txLastCfMs, this`txHasLastCf
      ensures TxValid()
      ensures var o := TxOnFlowControl(config, old(TxView()), frame, now); TxView() == o.tx && status == o.status
    {
      if txIdle || txSending {
        return UnexpectedFrame;
      }
      if frame.length < 3 {
        ResetTx();
        return InvalidFrame;
      }
      var flowStatus := frame.Low();
      if flowStatus == 0 {
        var separation := DecodeStMinMs(frame.payload[2]);
        if separation.None? {
          ResetTx();
          return InvalidFrame;
        }
        txBlockSize := frame.payload[1];
        txBlockRemaining := txBlockSize;
        txSeparationMs := separation.value;
        txNextSendMs := if txHasLastCf then Max(now, txLastCfMs + txSeparationMs) else now;
        txSending := true;
        return InProgress;
      }
      if flowStatus == 1 {
        if txWaitCount >= config.maxWaitFrames {
          ResetTx();
          return WaitLimitExceeded;
        }
        txWaitCount := txWaitCount + 1;
        txDeadlineMs := now + config.flowControlTimeoutMs;
        return InProgress;
      }
      ResetTx();
      return if flowStatus == 2 then FlowControlOverflow else InvalidFrame;
    }

    method PollTransmit(now: nat) returns (status: TransportStatus, ghost hal: Hal)
      requires Valid()
      modifies this`txIdle, this`txSending, this`txLength, this`txOffset, this`txSequence, this`txBlockSize,
               this`txBlockRemaining, this`txWaitCount, this`txSeparationMs, this`txDeadlineMs,
               this`txNextSendMs, this`txLastCfMs, this`txHasLastCf, can, can.clock
      ensures Valid() && RxView() == old(RxView())
      ensures var o := TxOnPoll(config, old(TxView()), now, hal);
        && TxView() == o.tx && status == o.status
        && Witnessed([], o.sent, hal, if o.sent.Some? && hal.status == Ok then [hal.at] else [])
    {
      if !txIdle && txSending && now >= txNextSendMs {
        status, hal := SendNextConsecutiveFrame();
        RxKept();
      } else {
        status, hal := if txIdle then Idle else InProgress, Hal(Ok, 0);
      }
    }

    method SendNextConsecutiveFrame() returns (status: TransportStatus, ghost hal: Hal)
      requires TxValid() && !txIdle && txSending
      modifies this`txIdle, this`txSending, this`txLength, this`txOffset, this`txSequence, this`txBlockSize,
               this`txBlockRemaining, this`txWaitCount, this`txSeparationMs, this`txDeadlineMs,
               this`txNextSendMs, this`txLastCfMs, this`txHasLastCf, can, can.clock
      ensures TxValid()
      ensures var o := TxSendNext(config, old(TxView()), hal);
        && TxView() == o.tx && status == o.status
        && Witnessed([], o.sent, hal, if o.sent.Some? && hal.status == Ok then [hal.at] else [])
    {
      var chunk := NextData();
      var answer := can.Send(ConsecutiveFrame(config, txSequence, chunk));
      status := MapCanStatus(answer);
      hal := Hal(answer, 0);
      if status == Complete {
        ghost var acceptedAt;
        status, acceptedAt := AcceptChunk(|chunk|);
        hal := Hal(answer, acceptedAt);
      } else if status != TransportStatus.TxBusy {
        ResetTx();
      }
    }

    method AcceptChunk(n: nat) returns (status: TransportStatus, ghost acceptedAt: nat)
      requires TxValid() && !txIdle && txSending && txOffset + n <= txLength
      modifies this`txIdle, this`txSending, this`txLength, this`txOffset, this`txSequence, this`txBlockSize,
               this`txBlockRemaining, this`txWaitCount, this`txSeparationMs, this`txDeadlineMs,
               this`txNextSendMs, this`txLastCfMs, this`txHasLastCf, can.clock
      ensures TxValid() && TxView() == TxAdvance(config, old(TxView()), n, acceptedAt)
      ensures status == if TxView().Silent? then Complete else InProgress
      ensures can.clock.readings == old(can.clock.readings) + [acceptedAt]
      ensures old(can.clock.now) <= acceptedAt <= can.clock.now
    {
      var reading := can.clock.NowMs();
      acceptedAt := reading;
      status := AdvanceTransfer(n, reading);
    }

    method NextData() returns (chunk: seq<Byte>)
      requires TxValid() && !txIdle
      ensures chunk == NextChunk(TxView())
    {
      var remaining := txLength - txOffset;
      var copyLength := Min(7, remaining);
      chunk := txPayload[txOffset..txOffset + copyLength];
      assert chunk == txPayload[..txLength][txOffset..txOffset + copyLength];
    }

    method AdvanceTransfer(n: nat, acceptedAt: nat) returns (status: TransportStatus)
      requires TxValid() && !txIdle && txSending && txOffset + n <= txLength
      modifies this`txIdle, this`txSending, this`txLength, this`txOffset, this`txSequence, this`txBlockSize,
               this`txBlockRemaining, this`txWaitCount, this`txSeparationMs, this`txDeadlineMs,
               this`txNextSendMs, this`txLastCfMs, this`txHasLastCf
      ensures TxValid()
      ensures TxView() == TxAdvance(config, old(TxView()), n, acceptedAt)
      ensures status == if TxView().Silent? then Complete else InProgress
    {
      txLastCfMs := acceptedAt;
      txHasLastCf := true;
      txOffset := txOffset + n;
      txSequence := (txSequence + 1) % 16;
      if txOffset == txLength {
        ResetTx();
        return Complete;
      }
      PaceTransfer(acceptedAt);
      return InProgress;
    }

    // Closes the block, or schedules the next frame of it.
    method PaceTransfer(acceptedAt: nat)
      requires txSending && (txBlockSize != 0 ==> txBlockRemaining > 0)
      modifies this`txSending, this`txBlockRemaining, this`txDeadlineMs, this`txNextSendMs
      ensures txBlockRemaining == old(txBlockRemaining) - (if txBlockSize != 0 then 1 else 0)
      ensures txSending == !(txBlockSize != 0 && txBlockRemaining == 0)
      ensures if txSending then txNextSendMs == acceptedAt + txSeparationMs
              else txDeadlineMs == acceptedAt + config.flowControlTimeoutMs
    {
      if txBlockSize != 0 {
        txBlockRemaining := txBlockRemaining - 1;
        if txBlockRemaining == 0 {
          txSending := false;
          txDeadlineMs := acceptedAt + config.flowControlTimeoutMs;
          return;
        }
      }
      txNextSendMs := acceptedAt + txSeparationMs;
    }

    method ResetRxAssembly()
      modifies this`rxReceiving, this`rxExpectedLength, this`rxOffset, this`rxExpectedSequence,
               this`rxBlockCount, this`rxDeadlineMs
      ensures !rxReceiving
    {
      rxReceiving := false;
      rxExpectedLength, rxOffset, rxExpectedSequence, rxBlockCount, rxDeadlineMs := 0, 0, 1, 0, 0;
    }

    method ResetTx()
      modifies this`txIdle, this`txSending, this`txLength, this`txOffset, this`txSequence, this`txBlockSize,
               this`txBlockRemaining, this`txWaitCount, this`txSeparationMs, this`txDeadlineMs,
               this`txNextSendMs, this`txLastCfMs, this`txHasLastCf
      ensures txIdle && !txHasLastCf
      ensures txWaitCount == txBlockSize == txBlockRemaining == txSeparationMs == 0
    {
      txIdle, txSending, txLength, txOffset, txSequence := true, false, 0, 0, 1;
      txBlockSize, txBlockRemaining, txWaitCount, txSeparationMs := 0, 0, 0, 0;
      txDeadlineMs, txNextSendMs, txLastCfMs, txHasLastCf := 0, 0, 0, false;
    }
  }
}
