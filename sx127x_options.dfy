/** The option tables of `_get` and `_set`: the buffer-size bounds each case
    asserts, the byte count each case returns, the range checks, the value
    each getter reads, the effect each setter has on the radio settings,
    and the state controller's two mappings. */
module Sx127xOptions {
  import opened Netdev
  import opened Sx127xTypes

  const SizeofUint8: nat := 1
  const SizeofUint16: nat := 2
  const SizeofUint32: nat := 4

  /** The lower bound `_get` asserts on `max_len`. */
  function GetMinLen(hw: Hw, opt: NetOpt): nat
  {
    match opt
    case State => hw.sizeofState
    case DeviceMode => SizeofUint8
    case Channel => SizeofUint32
    case Bandwidth => SizeofUint8
    case SpreadingFactor => SizeofUint8
    case CodingRate => SizeofUint8
    case MaxPacketSize => SizeofUint8
    case IntegrityCheck => hw.sizeofEnable
    case ChannelHop => hw.sizeofEnable
    case ChannelHopPeriod => SizeofUint8
    case SingleReceive => SizeofUint8
    case _ => 0
  }

  /** The byte count `_get` returns. */
  function GetReplySize(hw: Hw, opt: NetOpt): nat
  {
    match opt
    case State => hw.sizeofState
    case DeviceMode => SizeofUint8
    case Channel => SizeofUint32
    case Bandwidth => SizeofUint8
    case SpreadingFactor => SizeofUint8
    case CodingRate => SizeofUint8
    case MaxPacketSize => SizeofUint8
    case ChannelHopPeriod => SizeofUint8
    case _ => 0
  }

  /** The upper bound `_set` asserts on `len`; `None` for an option it has
      no case for. */
  function SetMaxLen(hw: Hw, opt: NetOpt): Option<nat>
  {
    match opt
    case State => Some(hw.sizeofState)
    case DeviceMode => Some(SizeofUint8)
    case Channel => Some(SizeofUint32)
    case Bandwidth => Some(SizeofUint8)
    case SpreadingFactor => Some(SizeofUint8)
    case CodingRate => Some(SizeofUint8)
    case MaxPacketSize => Some(SizeofUint8)
    case IntegrityCheck => Some(hw.sizeofEnable)
    case ChannelHop => Some(hw.sizeofEnable)
    case ChannelHopPeriod => Some(SizeofUint8)
    case SingleReceive => Some(SizeofUint8)
    case RxTimeout => Some(SizeofUint32)
    case TxTimeout => Some(SizeofUint32)
    case TxPower => Some(SizeofUint8)
    case FixedHeader => Some(hw.sizeofEnable)
    case PreambleLength => Some(SizeofUint16)
    case IqInvert => Some(hw.sizeofEnable)
    case OtherOption(_) => None
  }

  predicate SetLenOk(hw: Hw, opt: NetOpt, len: nat) {
    match SetMaxLen(hw, opt)
    case None => true
    case Some(max) => len <= max
  }

  /** `val` holds the C type `_set` reads for `opt`. */
  predicate ValueFits(opt: NetOpt, val: OptValue) {
    match opt
    case State => val.StateValue?
    case DeviceMode => val.U8?
    case Channel => val.U32?
    case Bandwidth => val.U8?
    case SpreadingFactor => val.U8?
    case CodingRate => val.U8?
    case MaxPacketSize => val.U8?
    case IntegrityCheck => val.Enable?
    case ChannelHop => val.Enable?
    case ChannelHopPeriod => val.U8?
    case SingleReceive => val.Enable?
    case RxTimeout => val.U32?
    case TxTimeout => val.U32?
    case TxPower => val.U8?
    case FixedHeader => val.Enable?
    case PreambleLength => val.U16?
    case IqInvert => val.Enable?
    case OtherOption(_) => true
  }

  /** The range checks of `_set`; options without one accept every value. */
  predicate InRange(hw: Hw, opt: NetOpt, val: OptValue)
    requires ValueFits(opt, val)
  {
    match opt
    case Bandwidth => !(val.b < hw.bw125 || val.b > hw.bw500)
    case SpreadingFactor => !(val.b < hw.sf6 || val.b > hw.sf12)
    case CodingRate => !(val.b < hw.cr45 || val.b > hw.cr48)
    case _ => true
  }

  /** The byte count `_set` returns when it succeeds. */
  function SetReplySize(hw: Hw, opt: NetOpt): nat
  {
    match opt
    case State => hw.sizeofState
    case DeviceMode => hw.sizeofEnable
    case Channel => SizeofUint32
    case Bandwidth => SizeofUint8
    case SpreadingFactor => SizeofUint8
    case CodingRate => SizeofUint8
    case MaxPacketSize => SizeofUint8
    case IntegrityCheck => hw.sizeofEnable
    case ChannelHop => hw.sizeofEnable
    case ChannelHopPeriod => SizeofUint8
    case SingleReceive => hw.sizeofEnable
    case RxTimeout => SizeofUint32
    case TxTimeout => SizeofUint32
    case TxPower => SizeofUint16
    case FixedHeader => hw.sizeofEnable
    case PreambleLength => SizeofUint16
    case IqInvert => hw.sizeofBool
    case OtherOption(_) => 0
  }

  /** What `_set` returns. */
  function SetReply(hw: Hw, opt: NetOpt, val: OptValue): (r: Ret)
    requires hw.Valid() && ValueFits(opt, val)
    ensures r.Error? <==> (opt.OtherOption? || (opt == State && val.s == StateOff) || !InRange(hw, opt, val))
    ensures r.Ok? ==> r.n == SetReplySize(hw, opt) && r.n >= 1
    ensures r == Error(InvalidArgument) <==> !InRange(hw, opt, val)
  {
    match opt
    case OtherOption(_) => Error(NotSupported)
    case State => if val.s == StateOff then Error(NotSupported) else Ok(hw.sizeofState)
    case _ => if !InRange(hw, opt, val) then Error(InvalidArgument) else Ok(SetReplySize(hw, opt))
  }

  /** The chip primitive `_set_state` calls for a requested state. */
  function StatePrimitive(target: NetoptState): (p: Option<Primitive>)
    ensures p.None? <==> target == StateOff
    ensures p == Some(DoRx) <==> target == StateIdle || target == StateRx
  {
    match target
    case StateSleep => Some(DoSleep)
    case StateStandby => Some(DoStandby)
    case StateIdle => Some(DoRx)
    case StateRx => Some(DoRx)
    case StateTx => Some(DoTx)
    case StateReset => Some(DoReset)
    case StateOff => None
  }

  /** The op-mode the sleep and standby primitives leave the chip in; the
      other primitives' effect on the op-mode is not part of this model. */
  function OpModeAfter(p: Primitive, m: OpMode): OpMode
  {
    match p
    case DoSleep => ModeSleep
    case DoStandby => ModeStandby
    case _ => m
  }

  /** `_get_state`: the logical state read back from the chip op-mode;
      `None` for an op-mode without a case (the C variable stays
      uninitialised). */
  function StateOfOpMode(m: OpMode): (s: Option<NetoptState>)
    ensures s == Some(StateIdle) <==> m == ModeReceiver || m == ModeReceiverSingle
    ensures s.None? <==> m in {ModeSynthesizerTx, ModeSynthesizerRx, ModeCad}
    ensures s.Some? ==> s.value in {StateSleep, StateStandby, StateTx, StateIdle}
  {
    match m
    case ModeSleep => Some(StateSleep)
    case ModeStandby => Some(StateStandby)
    case ModeTransmitter => Some(StateTx)
    case ModeReceiver => Some(StateIdle)
    case ModeReceiverSingle => Some(StateIdle)
    case _ => None
  }

  /** The value `_get` writes to `val`; `None` when it writes nothing. */
  function OptionValue(hw: Hw, s: Settings, m: OpMode, opt: NetOpt): Option<OptValue>
  {
    match opt
    case State =>
      Some(match StateOfOpMode(m) case Some(st) => StateValue(st) case None => Indeterminate)
    case DeviceMode => Some(U8(s.modem))
    case Channel => Some(U32(s.channel))
    case Bandwidth => Some(U8(s.lora.bandwidth))
    case SpreadingFactor => Some(U8(s.lora.spreadingFactor))
    case CodingRate => Some(U8(s.lora.codingRate))
    case MaxPacketSize => Some(U8(s.lora.maxPayloadLen))
    case IntegrityCheck => Some(Enable(s.lora.crcOn))
    case ChannelHop => Some(Enable(s.lora.freqHop))
    case ChannelHopPeriod => Some(U8(s.lora.hopPeriod))
    case SingleReceive => Some(Enable(!s.lora.rxContinuous))
    case _ => None
  }

  /** The settings after the `sx127x_set_*` call `_set` makes for `opt`.
      Each setter changes only the setting its option names. */
  function ApplySetter(hw: Hw, s: Settings, opt: NetOpt, val: OptValue): (r: Settings)
    requires ValueFits(opt, val) && opt != State && !opt.OtherOption?
    ensures r.windowTimeout == s.windowTimeout
    ensures opt != DeviceMode ==> r.modem == s.modem
    ensures opt != Channel ==> r.channel == s.channel
    ensures opt != Bandwidth ==> r.lora.bandwidth == s.lora.bandwidth
    ensures opt != SpreadingFactor ==> r.lora.spreadingFactor == s.lora.spreadingFactor
    ensures opt != CodingRate ==> r.lora.codingRate == s.lora.codingRate
    ensures opt != MaxPacketSize ==> r.lora.maxPayloadLen == s.lora.maxPayloadLen
    ensures opt != IntegrityCheck ==> r.lora.crcOn == s.lora.crcOn
    ensures opt != ChannelHop ==> r.lora.freqHop == s.lora.freqHop
    ensures opt != SingleReceive ==> r.lora.rxContinuous == s.lora.rxContinuous
    ensures opt == SingleReceive ==> r.lora.rxContinuous == !val.on
    ensures opt != ChannelHopPeriod ==> r.lora.hopPeriod == s.lora.hopPeriod
    ensures opt != RxTimeout ==> r.lora.rxTimeout == s.lora.rxTimeout
    ensures opt != TxTimeout ==> r.lora.txTimeout == s.lora.txTimeout
    ensures opt != TxPower ==> r.lora.power == s.lora.power
    ensures opt != FixedHeader ==> r.lora.fixedHeader == s.lora.fixedHeader
    ensures opt != PreambleLength ==> r.lora.preambleLength == s.lora.preambleLength
    ensures opt != IqInvert ==> r.lora.iqInvert == s.lora.iqInvert
  {
    match opt
    case DeviceMode => s.(modem := val.b)
    case Channel => s.(channel := val.w)
    case Bandwidth => s.(lora := s.lora.(bandwidth := val.b))
    case SpreadingFactor => s.(lora := s.lora.(spreadingFactor := val.b))
    case CodingRate => s.(lora := s.lora.(codingRate := val.b))
    case MaxPacketSize => s.(lora := s.lora.(maxPayloadLen := val.b))
    case IntegrityCheck => s.(lora := s.lora.(crcOn := val.on))
    case ChannelHop => s.(lora := s.lora.(freqHop := val.on))
    case ChannelHopPeriod => s.(lora := s.lora.(hopPeriod := val.b))
    case SingleReceive => s.(lora := s.lora.(rxContinuous := !val.on))
    case RxTimeout => s.(lora := s.lora.(rxTimeout := val.w))
    case TxTimeout => s.(lora := s.lora.(txTimeout := val.w))
    case TxPower => s.(lora := s.lora.(power := val.b))
    case FixedHeader => s.(lora := s.lora.(fixedHeader := val.on))
    case PreambleLength => s.(lora := s.lora.(preambleLength := val.h))
    case IqInvert => s.(lora := s.lora.(iqInvert := val.on))
  }

  /** `_get` returns 0, not a size, for the options it ends with `break`
      and for those it has no case for. */
  lemma GetReturnsZeroAfterBreak(hw: Hw, opt: NetOpt)
    requires opt in {IntegrityCheck, ChannelHop, SingleReceive, RxTimeout, TxTimeout,
                     TxPower, FixedHeader, PreambleLength, IqInvert} || opt.OtherOption?
    ensures GetReplySize(hw, opt) == 0
  {
  }

  /** Three `_set` cases return the size of a type other than the one they
      read: `netopt_enable_t` for a `uint8_t` device mode, `uint16_t` for a
      `uint8_t` TX power, `bool` for a `netopt_enable_t` IQ-invert flag. */
  lemma SetReplySizeMismatches(hw: Hw)
    ensures SetReplySize(hw, DeviceMode) == hw.sizeofEnable && SetMaxLen(hw, DeviceMode) == Some(SizeofUint8)
    ensures SetReplySize(hw, TxPower) == SizeofUint16 && SetMaxLen(hw, TxPower) == Some(SizeofUint8)
    ensures SetReplySize(hw, IqInvert) == hw.sizeofBool && SetMaxLen(hw, IqInvert) == Some(hw.sizeofEnable)
  {
  }

  /** A value `_set` stores is the value `_get` reads back, for every
      option both of them handle. */
  lemma SetThenGet(hw: Hw, s: Settings, m: OpMode, opt: NetOpt, val: OptValue)
    requires opt in {DeviceMode, Channel, Bandwidth, SpreadingFactor, CodingRate, MaxPacketSize,
                     IntegrityCheck, ChannelHop, ChannelHopPeriod, SingleReceive}
    requires ValueFits(opt, val) && InRange(hw, opt, val)
    ensures OptionValue(hw, ApplySetter(hw, s, opt, val), m, opt) == Some(val)
  {
  }

  /** Requesting sleep or standby reads back as that state. */
  lemma SleepStandbyReadBack(target: NetoptState, m: OpMode)
    requires target == StateSleep || target == StateStandby
    ensures StateOfOpMode(OpModeAfter(StatePrimitive(target).value, m)) == Some(target)
  {
  }
}
