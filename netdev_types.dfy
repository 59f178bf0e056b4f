/** Types of the generic network-device interface that the SX127x adaptation
    layer implements: return codes, option identifiers, option values and
    the upward events. */
module Netdev {

  datatype Option<T> = None | Some(value: T)

  /** The C fixed-width unsigned integers. */
  type Uint8 = x: int | 0 <= x < 0x100
  type Uint16 = x: int | 0 <= x < 0x1_0000
  type Uint32 = x: int | 0 <= x < 0x1_0000_0000

  /** The POSIX error numbers this driver returns (negated in C). */
  datatype Errno =
    | NotSupported      // ENOTSUP
    | BadMessage        // EBADMSG
    | NoBufferSpace     // ENOBUFS
    | NoDevice          // ENODEV
    | InvalidArgument   // EINVAL

  /** A driver return value: a non-negative byte count, or `-errno`. */
  datatype Ret = Ok(n: nat) | Error(e: Errno)

  /** `netopt_t`: the option identifiers the driver has a case for, and
      every other identifier as `OtherOption`. */
  datatype NetOpt =
    | State
    | DeviceMode
    | Channel
    | Bandwidth
    | SpreadingFactor
    | CodingRate
    | MaxPacketSize
    | IntegrityCheck
    | ChannelHop
    | ChannelHopPeriod
    | SingleReceive
    | RxTimeout
    | TxTimeout
    | TxPower
    | FixedHeader
    | PreambleLength
    | IqInvert
    | OtherOption(code: nat)

  /** `netopt_state_t`. */
  datatype NetoptState =
    | StateOff
    | StateSleep
    | StateIdle
    | StateRx
    | StateTx
    | StateReset
    | StateStandby

  /** What an option's `val` buffer holds, typed by the C type the driver
      casts it to. `Indeterminate` is the uninitialised `netopt_state_t`
      that `_get_state` copies out for an op-mode it has no case for. */
  datatype OptValue =
    | U8(b: Uint8)
    | U16(h: Uint16)
    | U32(w: Uint32)
    | Enable(on: bool)
    | StateValue(s: NetoptState)
    | Indeterminate

  /** Events signalled to the upper layer through `event_callback`. */
  datatype NetdevEvent = EventCrcError
}
