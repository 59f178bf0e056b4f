/** Link-quality metrics that `_recv` derives from the packet SNR and RSSI
    registers. */
module Sx127xMetrics {
  import opened Netdev
  import opened Sx127xTypes

  /** What `_recv` writes into `netdev_sx127x_lora_packet_info_t`. */
  datatype PacketInfo = PacketInfo(rssi: int, snr: int, lqi: nat, timeOnAir: nat)

  /** C's `~` on an `int` (two's complement). */
  function Complement(x: int): int {
    -x - 1
  }

  /** C's `& 0xFF` on a two's-complement `int`: the low byte. */
  function LowByte(x: int): (b: int)
    ensures 0 <= b < 256
    ensures (x - b) % 256 == 0
  {
    x % 256
  }

  /** `x >> 2` on a signed `int`, taken as an arithmetic shift, which is
      division rounding toward negative infinity. */
  function ShiftRight2(x: int): (r: int)
    ensures 4 * r <= x < 4 * r + 4
  {
    x / 4
  }

  /** `x >> 4` on a signed `int`, taken as an arithmetic shift. */
  function ShiftRight4(x: int): (r: int)
    ensures 16 * r <= x < 16 * r + 16
  {
    x / 16
  }

  /** The SNR decoded from the raw `PKTSNRVALUE` byte. A raw byte with
      bit 7 set is negated in two's complement, and the negative result
      is shifted; so the value is the raw byte read as a signed byte
      divided by four, rounded toward negative infinity. */
  function DecodeSnr(raw: bv8): (snr: int)
    ensures raw & 0x80 != 0 <==> snr < 0
    ensures raw & 0x80 != 0 ==> -32 <= snr <= -1 && 4 * snr <= raw as int - 256 < 4 * snr + 4
    ensures raw & 0x80 == 0 ==> 0 <= snr <= 31 && 4 * snr <= raw as int < 4 * snr + 4
  {
    var v := raw as int;
    SignBit(raw);
    if raw & 0x80 != 0 then
      assert LowByte(Complement(v) + 1) == 256 - v;
      ShiftRight2(-1 * LowByte(Complement(v) + 1))
    else
      assert LowByte(v) == v;
      ShiftRight2(LowByte(v))
  }

  /** Bit 7 of a byte is set exactly when the byte is at least 0x80. */
  lemma SignBit(raw: bv8)
    ensures 0 <= raw as int < 256
    ensures raw & 0x80 != 0 <==> raw as int >= 128
  {
  }

  /** The RSSI offset for the board's chip and the current channel. */
  function RssiOffset(hw: Hw, channel: Uint32): int
  {
    match hw.variant
    case Sx1272 => hw.rssiOffset
    case Sx1276 => if channel > hw.midBandThresh then hw.rssiOffsetHf else hw.rssiOffsetLf
  }

  /** The packet RSSI: the offset plus the raw `PKTRSSIVALUE` byte plus a
      sixteenth of it (so 17/16 of the raw value, rounded down), plus the
      SNR when the SNR is negative. */
  function DecodeRssi(hw: Hw, channel: Uint32, raw: bv8, snr: int): (rssi: int)
    ensures var base := rssi - RssiOffset(hw, channel) - (if snr < 0 then snr else 0);
            16 * base <= 17 * (raw as int) < 16 * base + 16
  {
    var r := raw as int;
    if snr < 0 then
      RssiOffset(hw, channel) + r + ShiftRight4(r) + snr
    else
      RssiOffset(hw, channel) + r + ShiftRight4(r)
  }

  /** The packet information `_recv` fills, with `timeOnAir` the value the
      time-on-air estimator returned for the caller's buffer length. */
  function PacketInfoOf(hw: Hw, channel: Uint32, snrRaw: bv8, rssiRaw: bv8, timeOnAir: nat): (info: PacketInfo)
    ensures info.lqi == 0
    ensures info.snr == DecodeSnr(snrRaw) && -32 <= info.snr <= 31
    ensures info.timeOnAir == timeOnAir
    ensures info.rssi == DecodeRssi(hw, channel, rssiRaw, DecodeSnr(snrRaw))
  {
    var snr := DecodeSnr(snrRaw);
    PacketInfo(DecodeRssi(hw, channel, rssiRaw, snr), snr, 0, timeOnAir)
  }

  /** The SNR correction enters the RSSI exactly when the SNR is negative. */
  lemma RssiSnrCorrection(hw: Hw, channel: Uint32, raw: bv8, snr: int)
    ensures DecodeRssi(hw, channel, raw, snr) - DecodeRssi(hw, channel, raw, 0)
         == (if snr < 0 then snr else 0)
  {
  }

  /** For a negative SNR the magnitude is the two's-complement magnitude
      divided by four rounded UP, not the magnitude shifted right by two:
      raw 0xFF gives -1, not 0. */
  lemma {:induction false} NegativeSnrMagnitude(raw: bv8)
    requires raw & 0x80 != 0
    ensures DecodeSnr(raw) == -((256 - raw as int + 3) / 4)
    ensures raw == 0xFF ==> DecodeSnr(raw) == -1 && (256 - raw as int) / 4 == 0
  {
    var m := 256 - raw as int;
    var s := DecodeSnr(raw);
    assert 4 * s <= -m < 4 * s + 4;
    assert 1 <= m <= 128;
    var c := (m + 3) / 4;
    assert 4 * c <= m + 3 < 4 * c + 4;
  }
}
