/** The netdev adaptation layer of the SX127x LoRa transceiver: transmit,
    receive, interrupt dispatch, option get/set and the state controller,
    over an abstract device whose registers are a record, whose FIFO is an
    array, whose timers are armed flags and whose delegated actions go to
    a log. */
module Sx127xNetdev {
  import opened Netdev
  import opened Sx127xTypes
  import opened Sx127xMetrics
  import opened Sx127xFifo
  import opened Sx127xOptions

  /** `_get_tx_len`: the scatter-list length summed into a `uint8_t`, so
      the total wraps at 256. */
  method GetTxLen(vector: seq<seq<bv8>>) returns (len: Uint8)
    ensures len == TotalLen(vector) % 256
  {
    var acc := 0;
    var i := 0;
    while i < |vector|
      invariant 0 <= i <= |vector|
      invariant acc == TotalLen(vector[..i]) % 256
    {
      assert vector[..i + 1][..i] == vector[..i];
      assert TotalLen(vector[..i + 1]) == TotalLen(vector[..i]) + |vector[i]|;
      WrapAdd(TotalLen(vector[..i]), |vector[i]|);
      acc := (acc + |vector[i]|) % 256;
      i := i + 1;
    }
    assert vector[..i] == vector;
    len := acc;
  }

  /** The log entries of the FIFO bursts `_send` makes, one per segment. */
  function FifoBursts(vector: seq<seq<bv8>>): seq<Action>
  {
    if vector == [] then [] else FifoBursts(vector[..|vector| - 1]) + [FifoWritten(vector[|vector| - 1])]
  }

  /** What waking the chip for FIFO access logs: the standby call and the
      wake-up wait when it was asleep, nothing otherwise. */
  function WakeLog(asleep: bool, wakeupTime: nat): seq<Action>
  {
    if asleep then [Called(DoStandby), Waited(wakeupTime)] else []
  }

  /** What `_send` logs on the LoRa path: the wake-up, then one FIFO burst
      per segment. */
  function SendLog(asleep: bool, wakeupTime: nat, vector: seq<seq<bv8>>): seq<Action>
  {
    WakeLog(asleep, wakeupTime) + FifoBursts(vector)
  }

  lemma {:induction false} FifoBurstsInOrder(vector: seq<seq<bv8>>)
    ensures |FifoBursts(vector)| == |vector|
    ensures forall i :: 0 <= i < |vector| ==> FifoBursts(vector)[i] == FifoWritten(vector[i])
  {
    if vector != [] {
      FifoBurstsInOrder(vector[..|vector| - 1]);
    }
  }

  /** The segments go to the FIFO in vector order, and when the chip was
      asleep the standby call and the wake-up wait come before the first
      of them; an awake chip is neither woken nor waited for. */
  lemma WakeBeforeFifoWrites(asleep: bool, wakeupTime: nat, vector: seq<seq<bv8>>)
    ensures var log := SendLog(asleep, wakeupTime, vector);
            var first := if asleep then 2 else 0;
            && |log| == first + |vector|
            && (asleep ==> log[0] == Called(DoStandby) && log[1] == Waited(wakeupTime))
            && (forall i :: 0 <= i < |vector| ==> log[first + i] == FifoWritten(vector[i]))
  {
    FifoBurstsInOrder(vector);
  }

  /** A payload `_send` loaded at FIFO address 0 reads back unchanged from
      that address, as long as it fits in the FIFO. */
  lemma LoadedPayloadReadsBack(fifo: seq<bv8>, vector: seq<seq<bv8>>)
    requires |fifo| == FifoSize && TotalLen(vector) <= FifoSize
    ensures ReadAt(WriteAt(fifo, 0, Flatten(vector)), 0, TotalLen(vector)) == Flatten(vector)
  {
    FlattenLength(vector);
    ReadAfterWrite(fifo, 0, Flatten(vector));
  }

  /** `_isr`'s dispatch: the DIO handler the latched value selects. */
  function DioDispatch(hw: Hw, irq: bv8): (handled: seq<Action>)
    requires hw.Valid()
    ensures |handled| <= 1
    ensures forall line :: 0 <= line < 4 ==> (handled == [DioHandled(line)] <==> irq == hw.DioCode(line))
    ensures handled == [] <==> forall line :: 0 <= line < 4 ==> irq != hw.DioCode(line)
  {
    if irq == hw.irqDio0 then [DioHandled(0)]
    else if irq == hw.irqDio1 then [DioHandled(1)]
    else if irq == hw.irqDio2 then [DioHandled(2)]
    else if irq == hw.irqDio3 then [DioHandled(3)]
    else []
  }

  /** `_recv`'s CRC test on the IRQ flags as read back, written as the
      source writes it: the masked flags equal the CRC-error bit. */
  predicate CrcFailed(hw: Hw, flags: Uint8) {
    (flags as bv8) & hw.irqPayloadCrcErrorMask == hw.irqPayloadCrcError
  }

  /** What the literal CRC test detects depends on the two constants: a
      mask selecting exactly the one-hot CRC-error bit makes it the test of
      that bit, while a mask that clears the CRC-error bit (an AND-mask
      keeping every other bit) makes it fail for every flags value. */
  lemma CrcTestByMask(hw: Hw, flags: Uint8)
    requires OneHot(hw.irqPayloadCrcError)
    ensures hw.irqPayloadCrcErrorMask == hw.irqPayloadCrcError ==>
              (CrcFailed(hw, flags) <==> (flags as bv8) & hw.irqPayloadCrcError != 0)
    ensures hw.irqPayloadCrcErrorMask & hw.irqPayloadCrcError == 0 ==> !CrcFailed(hw, flags)
  {
    var f := flags as bv8;
    var b := hw.irqPayloadCrcError;
    if hw.irqPayloadCrcErrorMask == b {
      assert f & b == 0 || f & b == b by {
        assert (f & b) & (b - 1) == 0;
        assert f & b == 0 || (f & b) & b == f & b;
      }
    }
  }

  /** `DIOMAPPING1` with DIO0 routed to TX-done and the other lines kept. */
  function TxDioMapping(hw: Hw, current: Uint8): Uint8 {
    DioMapped(hw, current as bv8) as int
  }

  /** The bit operation of `TxDioMapping`. */
  function DioMapped(hw: Hw, current: bv8): bv8 {
    (current & hw.dio0Mask) | hw.dio0Map01
  }

  /** With the DIO0 code outside the bits the mask keeps, the register keeps
      the other lines' bits and its DIO0 field becomes exactly that code. */
  lemma TxDioMappingRoutesDio0(hw: Hw, current: bv8)
    requires hw.dio0Map01 & hw.dio0Mask == 0
    ensures DioMapped(hw, current) & hw.dio0Mask == current & hw.dio0Mask
    ensures DioMapped(hw, current) & !hw.dio0Mask == hw.dio0Map01
  {
  }

  /** One SX127x device as the adaptation layer sees it. */
  class Sx127x {
    const hw: Hw
    /** The chip's payload FIFO. */
    const fifo: array<bv8>
    /** The logical radio state, `settings.state`. */
    var state: RadioState
    /** The chip op-mode, as `sx127x_get_op_mode` reads it. */
    var opMode: OpMode
    /** The chip registers the adaptation layer uses. */
    var regs: Regs
    var txTimerArmed: bool
    /** The duration the TX timeout timer was last armed with. */
    var txTimerDuration: Uint32
    var rxTimerArmed: bool
    /** The DIO line latched by the hardware interrupt, `0` for none. */
    var irq: bv8
    var settings: Settings
    /** The delegated actions, oldest first. */
    var log: seq<Action>

    ghost predicate Valid()
      reads this
    {
      hw.Valid() && fifo.Length == FifoSize
    }

    constructor (hw: Hw, settings: Settings)
      requires hw.Valid()
      ensures Valid() && fresh(fifo)
      ensures this.hw == hw && this.settings == settings
      ensures state == RfIdle && opMode == ModeSleep && irq == 0 && log == []
      ensures !txTimerArmed && !rxTimerArmed
      ensures regs == Regs(0, 0, 0, 0, 0, 0, 0, 0, 0, 0)
      ensures forall i :: 0 <= i < FifoSize ==> fifo[i] == 0
    {
      this.hw := hw;
      this.settings := settings;
      fifo := new bv8[FifoSize](_ => 0);
      state := RfIdle;
      opMode := ModeSleep;
      regs := Regs(0, 0, 0, 0, 0, 0, 0, 0, 0, 0);
      txTimerArmed, txTimerDuration, rxTimerArmed := false, 0, false;
      irq := 0;
      log := [];
    }

    // ---- the register bus, the FIFO transport and the chip primitives ----

    /** `sx127x_reg_write`. The IRQ flags register clears the bits written
        as 1; every other register stores the value. */
    method RegWrite(r: Reg, v: Uint8)
      requires Valid()
      modifies this`regs
      ensures Valid()
      ensures regs == old(regs).Written(r, v)
    {
      regs := regs.Written(r, v);
    }

    /** `sx127x_write_fifo`: one burst from the FIFO address pointer on.
        The FIFO is not accessible while the chip sleeps. */
    method WriteFifo(data: seq<bv8>)
      requires Valid() && opMode != ModeSleep
      modifies fifo, this`regs, this`log
      ensures Valid()
      ensures fifo[..] == WriteAt(old(fifo[..]), old(regs.fifoAddrPtr), data)
      ensures regs == old(regs).(fifoAddrPtr := ((old(regs.fifoAddrPtr) + |data|) % FifoSize))
      ensures log == old(log) + [FifoWritten(data)]
    {
      var p := regs.fifoAddrPtr;
      var j := 0;
      while j < |data|
        invariant 0 <= j <= |data|
        invariant fifo[..] == WriteAt(old(fifo[..]), p, data[..j])
        invariant regs == old(regs) && log == old(log)
      {
        assert data[..j + 1][..j] == data[..j];
        ghost var before := fifo[..];
        fifo[(p + j) % FifoSize] := data[j];
        assert fifo[..] == before[(p + j) % FifoSize := data[j]];
        j := j + 1;
      }
      assert data[..j] == data;
      regs := regs.(fifoAddrPtr := ((p + |data|) % FifoSize));
      log := log + [FifoWritten(data)];
    }

    /** `sx127x_read_fifo`: `n` bytes from the FIFO address pointer on. */
    method ReadFifo(buf: array<bv8>, n: nat)
      requires Valid() && buf != fifo && n <= buf.Length
      modifies buf, this`regs
      ensures Valid()
      ensures buf[..n] == ReadAt(fifo[..], old(regs.fifoAddrPtr), n)
      ensures buf[n..] == old(buf[n..])
      ensures regs == old(regs).(fifoAddrPtr := ((old(regs.fifoAddrPtr) + n) % FifoSize))
    {
      var p := regs.fifoAddrPtr;
      var j := 0;
      while j < n
        invariant 0 <= j <= n
        invariant forall k :: 0 <= k < j ==> buf[k] == fifo[(p + k) % FifoSize]
        invariant buf[j..] == old(buf[j..])
        invariant regs == old(regs)
      {
        buf[j] := fifo[(p + j) % FifoSize];
        j := j + 1;
      }
      regs := regs.(fifoAddrPtr := ((p + n) % FifoSize));
    }

    /** A call of one chip primitive of the driver core. */
    method Call(p: Primitive)
      modifies this`opMode, this`log
      ensures opMode == OpModeAfter(p, old(opMode))
      ensures log == old(log) + [Called(p)]
    {
      opMode := OpModeAfter(p, opMode);
      log := log + [Called(p)];
    }

    // ---- the netdev driver operations ----

    /** `_init`, without the chip bring-up: the latched line is cleared,
        and the settings get the default channel and modem and the idle
        state. The source copies the other settings fields from an
        uninitialised local, so nothing is promised about them. */
    method Init() returns (r: Ret)
      requires Valid()
      modifies this`irq, this`settings, this`state
      ensures Valid()
      ensures irq == 0 && state == RfIdle
      ensures settings.channel == hw.channelDefault && settings.modem == hw.modemDefault
      ensures r == Ok(0)
    {
      irq := 0;
      settings := settings.(channel := hw.channelDefault, modem := hw.modemDefault);
      state := RfIdle;
      r := Ok(0);
    }

    /** `_send`'s loop: each segment in turn is burst into the FIFO from
        where the previous one stopped. */
    method WriteSegments(vector: seq<seq<bv8>>)
      requires Valid() && opMode != ModeSleep && regs.fifoAddrPtr == 0
      modifies fifo, this`regs, this`log
      ensures Valid()
      ensures regs == old(regs).(fifoAddrPtr := TotalLen(vector) % FifoSize)
      ensures fifo[..] == WriteAt(old(fifo[..]), 0, Flatten(vector))
      ensures log == old(log) + FifoBursts(vector)
    {
      var i := 0;
      while i < |vector|
        invariant 0 <= i <= |vector|
        invariant Valid()
        invariant fifo[..] == WriteAt(old(fifo[..]), 0, Flatten(vector[..i]))
        invariant regs == old(regs).(fifoAddrPtr := TotalLen(vector[..i]) % FifoSize)
        invariant log == old(log) + FifoBursts(vector[..i])
      {
        assert vector[..i + 1][..i] == vector[..i];
        var t := TotalLen(vector[..i]);
        assert TotalLen(vector[..i + 1]) == t + |vector[i]|;
        FlattenLength(vector[..i]);
        WriteAtSplit(old(fifo[..]), 0, Flatten(vector[..i]), vector[i]);
        WrapAdd(t, |vector[i]|);
        WriteFifo(vector[i]);
        assert regs == old(regs).(fifoAddrPtr := (t + |vector[i]|) % FifoSize);
        i := i + 1;
      }
      assert vector[..i] == vector;
    }

    /** The LoRa case of `_send`: the payload length goes to its register,
        both FIFO pointers go to 0, a sleeping chip is put in standby and
        waited for, and the segments are streamed into the FIFO in order,
        so the pointer ends at the wrapped total length. */
    method LoadPayload(vector: seq<seq<bv8>>, size: Uint8)
      requires Valid() && size == TotalLen(vector) % 256
      modifies fifo, this`regs, this`log, this`opMode
      ensures Valid()
      ensures regs == old(regs).(payloadLength := size, fifoTxBaseAddr := 0, fifoAddrPtr := size)
      ensures fifo[..] == WriteAt(old(fifo[..]), 0, Flatten(vector))
      ensures log == old(log) + SendLog(old(opMode) == ModeSleep, hw.wakeupTime, vector)
      ensures opMode == if old(opMode) == ModeSleep then ModeStandby else old(opMode)
    {
      RegWrite(PayloadLength, size);
      RegWrite(FifoTxBaseAddr, 0);
      RegWrite(FifoAddrPtr, 0);
      ghost var log0 := log;
      Wake();
      WriteSegments(vector);
      assert log == log0 + WakeLog(old(opMode) == ModeSleep, hw.wakeupTime) + FifoBursts(vector);
    }

    /** `_send`'s wake-up: FIFO access is impossible in sleep mode, so a
        sleeping chip is put in standby and waited for. */
    method Wake()
      modifies this`opMode, this`log
      ensures opMode == if old(opMode) == ModeSleep then ModeStandby else old(opMode)
      ensures log == old(log) + WakeLog(old(opMode) == ModeSleep, hw.wakeupTime)
    {
      if opMode == ModeSleep {
        Call(DoStandby);
        log := log + [Waited(hw.wakeupTime)];
      }
    }

    /** `_send`. A busy radio refuses and nothing changes. Otherwise, on
        the LoRa path, the payload is framed and loaded as `LoadPayload`
        states; then on every modem the IRQ mask leaves only TXDONE, DIO0
        is routed to TX-done, the TX timer is armed and the radio enters
        TX. */
    method Send(vector: seq<seq<bv8>>) returns (r: Ret)
      requires Valid()
      modifies this, fifo
      ensures Valid()
      ensures old(state) == RfTxRunning ==>
                r == Error(NotSupported) && unchanged(this) && unchanged(fifo)
      ensures old(state) != RfTxRunning ==>
                var size := TotalLen(vector) % 256;
                var lora := old(settings.modem) == hw.modemLora;
                var framed := if lora then old(regs).(payloadLength := size, fifoTxBaseAddr := 0, fifoAddrPtr := size)
                              else old(regs);
                && r == Ok(0)
                && regs == framed.(irqFlagsMask := hw.TxIrqMask() as int,
                                         dioMapping1 := TxDioMapping(hw, old(regs.dioMapping1)))
                && fifo[..] == (if lora then WriteAt(old(fifo[..]), 0, Flatten(vector)) else old(fifo[..]))
                && log == old(log) + (if lora then SendLog(old(opMode) == ModeSleep, hw.wakeupTime, vector) else [])
                && txTimerArmed && txTimerDuration == old(settings.lora.txTimeout)
                && state == RfTxRunning && opMode == ModeTransmitter
                && rxTimerArmed == old(rxTimerArmed) && irq == old(irq) && settings == old(settings)
    {
      if state == RfTxRunning {
        return Error(NotSupported);
      }
      var size := GetTxLen(vector);
      if settings.modem == hw.modemLora {
        LoadPayload(vector, size);
      }
      ArmTransmit();
      r := Ok(0);
    }

    /** The tail of `_send` on every modem: TXDONE is the only unmasked
        interrupt, DIO0 signals it, the TX timeout timer runs and the chip
        transmits. */
    method ArmTransmit()
      requires Valid()
      modifies this`regs, this`txTimerArmed, this`txTimerDuration, this`state, this`opMode
      ensures Valid()
      ensures regs == old(regs).(irqFlagsMask := hw.TxIrqMask() as int,
                                 dioMapping1 := TxDioMapping(hw, old(regs.dioMapping1)))
      ensures txTimerArmed && txTimerDuration == settings.lora.txTimeout
      ensures state == RfTxRunning && opMode == ModeTransmitter
    {
      RegWrite(IrqFlagsMask, hw.TxIrqMask() as int);
      RegWrite(DioMapping1, TxDioMapping(hw, regs.dioMapping1));
      txTimerArmed, txTimerDuration := true, settings.lora.txTimeout;
      state := RfTxRunning;
      opMode := ModeTransmitter;
    }

    /** The CRC-error branch of `_recv`: the CRC flag is acknowledged, a
        single-shot receiver returns to idle, the RX timer is stopped and
        the upper layer is told. */
    method DropCrcError()
      requires Valid()
      modifies this`regs, this`state, this`rxTimerArmed, this`log
      ensures Valid()
      ensures regs == old(regs).(irqFlags := ClearedBits(old(regs.irqFlags), hw.irqPayloadCrcError as int))
      ensures state == if settings.lora.rxContinuous then old(state) else RfIdle
      ensures !rxTimerArmed
      ensures log == old(log) + [Signalled(EventCrcError)]
    {
      RegWrite(IrqFlags, hw.irqPayloadCrcError as int);
      if !settings.lora.rxContinuous {
        state := RfIdle;
      }
      rxTimerArmed := false;
      log := log + [Signalled(EventCrcError)];
    }

    /** The delivery branch of `_recv`: a single-shot receiver returns to
        idle, the RX timer is stopped, and the `size` bytes of the last
        packet are read from the FIFO at `FIFORXCURRENTADDR`. */
    method TakePacket(buf: array<bv8>, size: nat)
      requires Valid() && buf != fifo && size <= buf.Length
      modifies buf, this`regs, this`state, this`rxTimerArmed
      ensures Valid()
      ensures state == if settings.lora.rxContinuous then old(state) else RfIdle
      ensures !rxTimerArmed
      ensures regs == old(regs).(fifoAddrPtr := (old(regs.fifoRxCurrentAddr) + size) % FifoSize)
      ensures buf[..size] == ReadAt(fifo[..], old(regs.fifoRxCurrentAddr), size)
      ensures buf[size..] == old(buf[size..])
    {
      if !settings.lora.rxContinuous {
        state := RfIdle;
      }
      rxTimerArmed := false;
      var lastRxAddr := regs.fifoRxCurrentAddr;
      RegWrite(FifoAddrPtr, lastRxAddr);
      ReadFifo(buf, size);
    }

    /** `_recv` past the CRC test: the packet information, then the peek,
        the too-small buffer, or the delivery of the packet. */
    method Deliver(buf: array?<bv8>, len: nat, wantInfo: bool, timeOnAir: nat -> nat)
      returns (r: Ret, info: Option<PacketInfo>)
      requires Valid()
      requires buf != null ==> buf != fifo && len <= buf.Length
      modifies buf, this`regs, this`state, this`rxTimerArmed
      ensures Valid()
      ensures info == if wantInfo
                      then Some(PacketInfoOf(hw, settings.channel, old(regs.pktSnrValue) as bv8,
                                             old(regs.pktRssiValue) as bv8, timeOnAir(len)))
                      else None
      ensures var size := old(regs.rxNbBytes);
              var addr := old(regs.fifoRxCurrentAddr);
              if buf == null then
                r == Ok(size) && regs == old(regs) && state == old(state) && rxTimerArmed == old(rxTimerArmed)
              else if size > len then
                && r == Error(NoBufferSpace) && regs == old(regs)
                && state == old(state) && rxTimerArmed == old(rxTimerArmed)
                && buf[..] == old(buf[..])
              else
                && r == Ok(size) && !rxTimerArmed
                && state == (if settings.lora.rxContinuous then old(state) else RfIdle)
                && regs == old(regs).(fifoAddrPtr := (addr + size) % FifoSize)
                && buf[..size] == ReadAt(fifo[..], addr, size)
                && buf[size..] == old(buf[size..])
    {
      info := None;
      if wantInfo {
        info := Some(PacketInfoOf(hw, settings.channel, regs.pktSnrValue as bv8, regs.pktRssiValue as bv8, timeOnAir(len)));
      }
      var size := regs.rxNbBytes;
      if buf == null {
        return Ok(size), info;
      }
      if size > len {
        return Error(NoBufferSpace), info;
      }
      TakePacket(buf, size);
      r := Ok(size);
    }

    /** What the LoRa case of `_recv` leaves behind: RXDONE acknowledged
        and the flags read back; on a CRC error the CRC flag acknowledged,
        a single-shot receiver idle, the RX timer stopped, the upper layer
        told and `-EBADMSG`; otherwise the packet information filled in
        (before any size check, with the caller's `len`), then the size for
        a peek, `-ENOBUFS` for a buffer too small, or the packet copied
        out of the FIFO, the receiver idle unless continuous and the RX
        timer stopped. */
    twostate predicate LoraReceived(buf: array?<bv8>, len: nat, wantInfo: bool, timeOnAir: nat -> nat,
                                    new r: Ret, new info: Option<PacketInfo>)
      requires old(Valid()) && Valid()
      requires buf != null ==> len <= buf.Length
      reads this, fifo, buf
    {
      var flags := ClearedBits(old(regs.irqFlags), hw.irqRxDone as int);
      var idle := if settings.lora.rxContinuous then old(state) else RfIdle;
      if CrcFailed(hw, flags) then
        && r == Error(BadMessage) && info == None
        && regs == old(regs).(irqFlags := ClearedBits(flags, hw.irqPayloadCrcError as int))
        && state == idle && !rxTimerArmed
        && log == old(log) + [Signalled(EventCrcError)]
        && (buf != null ==> buf[..] == old(buf[..]))
      else
        var size := old(regs.rxNbBytes);
        var addr := old(regs.fifoRxCurrentAddr);
        && info == (if wantInfo
                    then Some(PacketInfoOf(hw, settings.channel, old(regs.pktSnrValue) as bv8,
                                           old(regs.pktRssiValue) as bv8, timeOnAir(len)))
                    else None)
        && log == old(log)
        && if buf == null then
             // peek
             && r == Ok(size) && regs == old(regs).(irqFlags := flags)
             && state == old(state) && rxTimerArmed == old(rxTimerArmed)
           else if size > len then
             && r == Error(NoBufferSpace) && regs == old(regs).(irqFlags := flags)
             && state == old(state) && rxTimerArmed == old(rxTimerArmed)
             && buf[..] == old(buf[..])
           else
             && r == Ok(size) && state == idle && !rxTimerArmed
             && regs == old(regs).(irqFlags := flags, fifoAddrPtr := (addr + size) % FifoSize)
             && buf[..size] == ReadAt(fifo[..], addr, size)
             && buf[size..] == old(buf[size..])
    }

    /** The LoRa case of `_recv`: RXDONE is acknowledged, the flags are
        read back, and a CRC error is dropped; otherwise `Deliver`. */
    method RecvLora(buf: array?<bv8>, len: nat, wantInfo: bool, timeOnAir: nat -> nat)
      returns (r: Ret, info: Option<PacketInfo>)
      requires Valid()
      requires buf != null ==> buf != fifo && len <= buf.Length
      modifies buf, this`regs, this`state, this`rxTimerArmed, this`log
      ensures Valid()
      ensures LoraReceived(buf, len, wantInfo, timeOnAir, r, info)
    {
      RegWrite(IrqFlags, hw.irqRxDone as int);
      var flags := regs.irqFlags;
      if CrcFailed(hw, flags) {
        DropCrcError();
        return Error(BadMessage), None;
      }
      r, info := Deliver(buf, len, wantInfo, timeOnAir);
    }

    /** `_recv` with caller buffer `buf` of capacity `len` (`null` to peek),
        `wantInfo` for a non-null `info`, and `timeOnAir` standing for the
        time-on-air estimator. `info` is the packet information written,
        `None` when nothing is written. The FSK "todo" case and an unknown
        modem read nothing and return 0. */
    method Recv(buf: array?<bv8>, len: nat, wantInfo: bool, timeOnAir: nat -> nat)
      returns (r: Ret, info: Option<PacketInfo>)
      requires Valid()
      requires buf != null ==> buf != fifo && len <= buf.Length
      modifies buf, this`regs, this`state, this`rxTimerArmed, this`log
      ensures Valid()
      ensures settings.modem != hw.modemLora ==>
                && r == Ok(0) && info == None && regs == old(regs) && log == old(log)
                && state == old(state) && rxTimerArmed == old(rxTimerArmed)
                && (buf != null ==> buf[..] == old(buf[..]))
      ensures settings.modem == hw.modemLora ==> LoraReceived(buf, len, wantInfo, timeOnAir, r, info)
    {
      if settings.modem != hw.modemLora {
        return Ok(0), None;
      }
      r, info := RecvLora(buf, len, wantInfo, timeOnAir);
    }

    /** `_isr`: consume the latched line and run its handler, if any. */
    method Isr()
      requires Valid()
      modifies this`irq, this`log
      ensures irq == 0
      ensures log == old(log) + DioDispatch(hw, old(irq))
    {
      var latched := irq;
      irq := 0;
      if latched == hw.irqDio0 {
        log := log + [DioHandled(0)];
      } else if latched == hw.irqDio1 {
        log := log + [DioHandled(1)];
      } else if latched == hw.irqDio2 {
        log := log + [DioHandled(2)];
      } else if latched == hw.irqDio3 {
        log := log + [DioHandled(3)];
      }
    }

    /** `_get` on a device: the value written to `val` (`None` when none is)
        and the byte count returned. */
    method Get(opt: NetOpt, maxLen: nat) returns (r: Ret, val: Option<OptValue>)
      requires Valid()
      requires maxLen >= GetMinLen(hw, opt)
      ensures r == Ok(GetReplySize(hw, opt))
      ensures val == OptionValue(hw, settings, opMode, opt)
    {
      if opt == State {
        r, val := GetState();
      } else {
        r, val := Ok(GetReplySize(hw, opt)), OptionValue(hw, settings, opMode, opt);
      }
    }

    /** `_get_state`: the op-mode read back as a netopt state, always
        returning `sizeof(netopt_state_t)`. */
    method GetState() returns (r: Ret, val: Option<OptValue>)
      requires Valid()
      ensures r == Ok(hw.sizeofState)
      ensures val.Some?
      ensures opMode in {ModeReceiver, ModeReceiverSingle} ==> val.value == StateValue(StateIdle)
      ensures opMode == ModeSleep ==> val.value == StateValue(StateSleep)
      ensures opMode == ModeStandby ==> val.value == StateValue(StateStandby)
      ensures opMode == ModeTransmitter ==> val.value == StateValue(StateTx)
      ensures opMode in {ModeSynthesizerTx, ModeSynthesizerRx, ModeCad} ==> val.value == Indeterminate
    {
      var s := StateOfOpMode(opMode);
      val := Some(match s case Some(st) => StateValue(st) case None => Indeterminate);
      r := Ok(hw.sizeofState);
    }

    /** `_set_state`. */
    method SetState(target: NetoptState) returns (r: Ret)
      requires Valid()
      modifies this`opMode, this`log, this`settings
      ensures Valid()
      ensures target == StateOff ==>
                r == Error(NotSupported) && opMode == old(opMode) && log == old(log) && settings == old(settings)
      ensures target != StateOff ==>
                && r == Ok(hw.sizeofState)
                && log == old(log) + [Called(StatePrimitive(target).value)]
                && opMode == OpModeAfter(StatePrimitive(target).value, old(opMode))
                && settings == if target == StateIdle then old(settings).(windowTimeout := 0) else old(settings)
    {
      match target {
        case StateSleep => Call(DoSleep);
        case StateStandby => Call(DoStandby);
        case StateIdle =>
          settings := settings.(windowTimeout := 0);
          Call(DoRx);
        case StateRx => Call(DoRx);
        case StateTx => Call(DoTx);
        case StateReset => Call(DoReset);
        case StateOff => return Error(NotSupported);
      }
      r := Ok(hw.sizeofState);
    }

    /** `_set` on a device: the byte count returned. An out-of-range
        bandwidth, spreading factor or coding rate, an unknown option and
        an unsupported state call nothing and change nothing. */
    method Set(opt: NetOpt, val: OptValue, len: nat) returns (r: Ret)
      requires Valid()
      requires SetLenOk(hw, opt, len) && ValueFits(opt, val)
      modifies this`opMode, this`log, this`settings
      ensures Valid()
      ensures r == SetReply(hw, opt, val)
      ensures r.Error? ==> opMode == old(opMode) && log == old(log) && settings == old(settings)
      ensures r.Ok? && opt == State ==>
                && log == old(log) + [Called(StatePrimitive(val.s).value)]
                && opMode == OpModeAfter(StatePrimitive(val.s).value, old(opMode))
                && settings == if val.s == StateIdle then old(settings).(windowTimeout := 0) else old(settings)
      ensures r.Ok? && opt != State ==>
                && settings == ApplySetter(hw, old(settings), opt, val)
                && log == old(log) + [SetterCalled(opt, val)]
                && opMode == old(opMode)
    {
      if opt == State {
        r := SetState(val.s);
        return;
      }
      if opt.OtherOption? || !InRange(hw, opt, val) {
        return if opt.OtherOption? then Error(NotSupported) else Error(InvalidArgument);
      }
      settings := ApplySetter(hw, settings, opt, val);
      log := log + [SetterCalled(opt, val)];
      r := Ok(SetReplySize(hw, opt));
    }
  }

  /** `_get` through the netdev handle: a null device is `-ENODEV`. */
  method NetdevGet(dev: Sx127x?, opt: NetOpt, maxLen: nat) returns (r: Ret, val: Option<OptValue>)
    requires dev != null ==> dev.Valid() && maxLen >= GetMinLen(dev.hw, opt)
    ensures dev == null ==> r == Error(NoDevice) && val == None
    ensures dev != null ==> r == Ok(GetReplySize(dev.hw, opt)) && val == OptionValue(dev.hw, dev.settings, dev.opMode, opt)
  {
    if dev == null {
      return Error(NoDevice), None;
    }
    r, val := dev.Get(opt, maxLen);
  }

  /** `_set` through the netdev handle: a null device is `-ENODEV`. */
  method NetdevSet(dev: Sx127x?, opt: NetOpt, val: OptValue, len: nat) returns (r: Ret)
    requires dev != null ==> dev.Valid() && SetLenOk(dev.hw, opt, len) && ValueFits(opt, val)
    modifies dev
    ensures dev == null ==> r == Error(NoDevice)
    ensures dev != null ==> dev.Valid() && r == SetReply(dev.hw, opt, val)
    ensures dev != null ==>
              && dev.state == old(dev.state) && dev.regs == old(dev.regs) && dev.irq == old(dev.irq)
              && dev.txTimerArmed == old(dev.txTimerArmed) && dev.txTimerDuration == old(dev.txTimerDuration)
              && dev.rxTimerArmed == old(dev.rxTimerArmed) && dev.fifo[..] == old(dev.fifo[..])
    ensures dev != null && r.Error? ==>
              dev.opMode == old(dev.opMode) && dev.log == old(dev.log) && dev.settings == old(dev.settings)
    ensures dev != null && r.Ok? && opt == State ==>
              && dev.log == old(dev.log) + [Called(StatePrimitive(val.s).value)]
              && dev.opMode == OpModeAfter(StatePrimitive(val.s).value, old(dev.opMode))
              && dev.settings == if val.s == StateIdle then old(dev.settings).(windowTimeout := 0) else old(dev.settings)
    ensures dev != null && r.Ok? && opt != State ==>
              && dev.settings == ApplySetter(dev.hw, old(dev.settings), opt, val)
              && dev.log == old(dev.log) + [SetterCalled(opt, val)]
              && dev.opMode == old(dev.opMode)
  {
    if dev == null {
      return Error(NoDevice);
    }
    r := dev.Set(opt, val, len);
  }
}
