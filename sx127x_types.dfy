/** The SX127x data model: the header constants the adaptation layer uses,
    the chip registers it touches, the chip op-modes, the logical radio
    state, the radio settings and the log of actions delegated to code
    outside the adaptation layer. */
module Sx127xTypes {
  import opened Netdev

  /** Which chip the board has (`#if defined(MODULE_SX1272)`). */
  datatype ChipVariant = Sx1272 | Sx1276

  /** The header constants, left as parameters instead of fixing their
      numeric values. */
  datatype Hw = Hw(
    variant: ChipVariant,
    // SX127X_RF_LORA_IRQFLAGS_* bits of the IRQ flags and IRQ mask registers
    irqRxTimeout: bv8,
    irqRxDone: bv8,
    irqPayloadCrcError: bv8,
    irqValidHeader: bv8,
    irqTxDone: bv8,
    irqCadDone: bv8,
    irqFhssChangedChannel: bv8,
    irqCadDetected: bv8,
    // SX127X_RF_LORA_IRQFLAGS_PAYLOADCRCERROR_MASK
    irqPayloadCrcErrorMask: bv8,
    // SX127X_RF_LORA_DIOMAPPING1_DIO0_MASK and _DIO0_01
    dio0Mask: bv8,
    dio0Map01: bv8,
    // SX127X_IRQ_DIO0 .. SX127X_IRQ_DIO3, the values latched in `irq`
    irqDio0: bv8,
    irqDio1: bv8,
    irqDio2: bv8,
    irqDio3: bv8,
    // SX127X_RSSI_OFFSET (SX1272), _HF and _LF (SX1276), SX127X_RF_MID_BAND_THRESH
    rssiOffset: int,
    rssiOffsetHf: int,
    rssiOffsetLf: int,
    midBandThresh: Uint32,
    // accepted ranges of bandwidth, spreading factor and coding rate
    bw125: Uint8,
    bw500: Uint8,
    sf6: Uint8,
    sf12: Uint8,
    cr45: Uint8,
    cr48: Uint8,
    // SX127X_MODEM_FSK, SX127X_MODEM_LORA, SX127X_MODEM_DEFAULT, SX127X_CHANNEL_DEFAULT
    modemFsk: Uint8,
    modemLora: Uint8,
    modemDefault: Uint8,
    channelDefault: Uint32,
    // SX127X_RADIO_WAKEUP_TIME
    wakeupTime: nat,
    // sizeof(bool), sizeof(netopt_enable_t), sizeof(netopt_state_t)
    sizeofBool: nat,
    sizeofEnable: nat,
    sizeofState: nat)
  {
    /** What the C compiler enforces: the `case` labels of one `switch`
        are pairwise distinct, and every `sizeof` is at least one. */
    predicate Valid() {
      && irqDio0 != irqDio1 && irqDio0 != irqDio2 && irqDio0 != irqDio3
      && irqDio1 != irqDio2 && irqDio1 != irqDio3 && irqDio2 != irqDio3
      && modemFsk != modemLora
      && sizeofBool >= 1 && sizeofEnable >= 1 && sizeofState >= 1
    }

    /** The latched `irq` value that selects handler `on_dio<line>`. */
    function DioCode(line: nat): bv8
      requires line < 4
    {
      match line
      case 0 => irqDio0
      case 1 => irqDio1
      case 2 => irqDio2
      case 3 => irqDio3
    }

    /** The IRQ mask `_send` writes: every LoRa IRQ source except TXDONE. */
    function TxIrqMask(): bv8 {
      irqRxTimeout | irqRxDone | irqPayloadCrcError | irqValidHeader
        | irqCadDone | irqFhssChangedChannel | irqCadDetected
    }

    /** The LoRa IRQ flags are the eight bits of the flags register, one each. */
    predicate IrqBitsOneHot() {
      && OneHot(irqRxTimeout) && OneHot(irqRxDone) && OneHot(irqPayloadCrcError)
      && OneHot(irqValidHeader) && OneHot(irqTxDone) && OneHot(irqCadDone)
      && OneHot(irqFhssChangedChannel) && OneHot(irqCadDetected)
      && irqRxTimeout | irqRxDone | irqPayloadCrcError | irqValidHeader
         | irqTxDone | irqCadDone | irqFhssChangedChannel | irqCadDetected == 0xFF
    }
  }

  /** A byte with exactly one bit set. */
  predicate OneHot(b: bv8) {
    b != 0 && b & (b - 1) == 0
  }

  /** With the chip's IRQ bit layout, the mask `_send` writes masks every
      source but TXDONE and leaves TXDONE itself unmasked. */
  lemma TxIrqMaskUnmasksOnlyTxDone(hw: Hw)
    requires hw.IrqBitsOneHot()
    ensures hw.TxIrqMask() & hw.irqTxDone == 0
    ensures hw.TxIrqMask() == !hw.irqTxDone
  {
  }

  /** The chip registers the adaptation layer reads or writes. */
  datatype Reg =
    | IrqFlags
    | IrqFlagsMask
    | DioMapping1
    | FifoTxBaseAddr
    | FifoAddrPtr
    | FifoRxCurrentAddr
    | RxNbBytes
    | PktSnrValue
    | PktRssiValue
    | PayloadLength

  /** The values of those registers. */
  datatype Regs = Regs(
    irqFlags: Uint8,
    irqFlagsMask: Uint8,
    dioMapping1: Uint8,
    fifoTxBaseAddr: Uint8,
    fifoAddrPtr: Uint8,
    fifoRxCurrentAddr: Uint8,
    rxNbBytes: Uint8,
    pktSnrValue: Uint8,
    pktRssiValue: Uint8,
    payloadLength: Uint8)
  {
    /** The registers after the bus writes `v` to `r`. The IRQ flags
        register is write-one-to-clear; every other one stores `v`. */
    function Written(r: Reg, v: Uint8): Regs {
      match r
      case IrqFlags => this.(irqFlags := ClearedBits(irqFlags, v))
      case IrqFlagsMask => this.(irqFlagsMask := v)
      case DioMapping1 => this.(dioMapping1 := v)
      case FifoTxBaseAddr => this.(fifoTxBaseAddr := v)
      case FifoAddrPtr => this.(fifoAddrPtr := v)
      case FifoRxCurrentAddr => this.(fifoRxCurrentAddr := v)
      case RxNbBytes => this.(rxNbBytes := v)
      case PktSnrValue => this.(pktSnrValue := v)
      case PktRssiValue => this.(pktRssiValue := v)
      case PayloadLength => this.(payloadLength := v)
    }
  }

  /** What a write of `v` leaves in a write-one-to-clear register holding
      `current`: every bit set in `v` is cleared, the others stay. */
  function ClearedBits(current: Uint8, v: Uint8): Uint8 {
    ((current as bv8) & !(v as bv8)) as int
  }

  /** The chip operating modes (`SX127X_RF_OPMODE_*`). */
  datatype OpMode =
    | ModeSleep
    | ModeStandby
    | ModeSynthesizerTx
    | ModeTransmitter
    | ModeSynthesizerRx
    | ModeReceiver
    | ModeReceiverSingle
    | ModeCad

  /** The driver's logical radio state (`SX127X_RF_*`, `settings.state`). */
  datatype RadioState = RfIdle | RfRxRunning | RfTxRunning | RfCad

  /** The LoRa part of the radio settings. The two bits of `lora.flags`
      this file reads, `SX127X_RX_CONTINUOUS_FLAG` and
      `SX127X_CHANNEL_HOPPING_FLAG`, are the booleans `rxContinuous` and
      `freqHop`. Single reception is the continuous flag cleared, so it
      has no field of its own. */
  datatype LoraSettings = LoraSettings(
    bandwidth: Uint8,
    spreadingFactor: Uint8,
    codingRate: Uint8,
    rxContinuous: bool,
    freqHop: bool,
    hopPeriod: Uint8,
    power: Uint8,
    preambleLength: Uint16,
    rxTimeout: Uint32,
    txTimeout: Uint32,
    maxPayloadLen: Uint8,
    crcOn: bool,
    fixedHeader: bool,
    iqInvert: bool)

  datatype Settings = Settings(
    channel: Uint32,
    modem: Uint8,
    windowTimeout: nat,
    lora: LoraSettings)

  /** The chip primitives of the driver core that `_set_state` and `_send` call. */
  datatype Primitive = DoSleep | DoStandby | DoRx | DoTx | DoReset

  /** One action the adaptation layer delegates, in the order it happens. */
  datatype Action =
    | Called(p: Primitive)                    // sx127x_set_sleep, _set_standby, _set_rx, _set_tx, sx127x_reset
    | Waited(us: nat)                         // xtimer_usleep
    | FifoWritten(data: seq<bv8>)             // one sx127x_write_fifo burst
    | Signalled(ev: NetdevEvent)              // netdev->event_callback
    | DioHandled(line: nat)                   // sx127x_on_dio0 .. sx127x_on_dio3
    | SetterCalled(opt: NetOpt, val: OptValue) // one sx127x_set_* per option
}
