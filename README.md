# SX127x LoRa netdev adaptation layer, in Dafny

This project models the netdev adaptation layer of RIOT's SX127x (SX1272 /
SX1276) LoRa transceiver driver, `drivers/sx127x/sx127x_netdev.c`. That
layer is what the generic network stack talks to. It has six entry points:
- `_send` frames a scatter list into the chip FIFO and starts a transmission;
- `_recv` acknowledges a reception, decodes the link metrics, and peeks,
  refuses or copies the packet;
- `_init` resets the driver fields;
- `_isr` dispatches the latched DIO interrupt line to its handler;
- `_get` and `_set` form the table-driven option interface;
- `_set_state` and `_get_state` make up the state controller.

The device is the class `Sx127xNetdev.Sx127x`. Its fields follow the driver's
`sx127x_t`:
- the logical radio state;
- the chip op-mode;
- a record of the registers the layer uses, each holding a byte value;
- the 256-byte FIFO as an `array<bv8>`;
- armed flags for the RX and TX timeout timers, plus the last TX timeout;
- the latched `irq` byte;
- the radio settings;
- a log of the actions delegated to code outside the file.

The logged actions are chip primitives, the wake-up wait, FIFO bursts, the
upward CRC-error event, DIO handler runs and setter calls. The entry points
are methods with `modifies` frames, and each states its whole new state. The
decisions the code makes sit in pure functions, with lemmas about them:
- the SNR, RSSI and RSSI-offset arithmetic;
- the FIFO contents after writes;
- the per-option size tables;
- the range checks;
- the state mappings;
- the DIO dispatch.

Modules:
- `Netdev` (`netdev_types.dfy`) holds the netdev vocabulary:
  - return codes (`Ret`, `Errno`);
  - options (`NetOpt`) and option values (`OptValue`);
  - netopt states and events.
- `Sx127xTypes` (`sx127x_types.dfy`) holds the chip data model:
  - the header constants as a record of parameters (`Hw`);
  - registers, op-modes, radio states, settings and the action log.
- `Sx127xMetrics` (`sx127x_metrics.dfy`) decodes SNR and RSSI and builds the
  packet information.
- `Sx127xFifo` (`sx127x_fifo.dfy`) specifies the FIFO and the scatter list:
  - writes and reads at the auto-incrementing, wrapping FIFO address pointer;
  - segment concatenation and the total length.
- `Sx127xOptions` (`sx127x_options.dfy`) holds the tables behind `_get`,
  `_set`, `_set_state` and `_get_state`.
- `Sx127xNetdev` (`sx127x_netdev.dfy`) holds the device class, `_get_tx_len`,
  the DIO dispatch and the null-device wrappers of `_get` and `_set`.

Chip behaviour the model relies on:
- `IRQFLAGS` is write-one-to-clear: writing a bit clears it.
- `FIFOADDRPTR` advances by one per FIFO byte and wraps at 256. So after
  `_send` the pointer stands at the payload size, and the FIFO holds the
  concatenated segments from address 0.

Quirks of the code, reproduced as written:
- `_get` returns 0 after it writes `INTEGRITY_CHECK`, `CHANNEL_HOP` and
  `SINGLE_RECEIVE`, and for every option it has no case for.
- `_set` returns a size that does not match the type it read for three
  options:
  - `DEVICE_MODE` returns `sizeof(netopt_enable_t)`;
  - `TX_POWER` returns `sizeof(uint16_t)`;
  - `IQ_INVERT` returns `sizeof(bool)`.
- The `assert`s on the buffer length become preconditions: an upper bound on
  `len` in `_set`, a lower bound on `max_len` in `_get`.
- The packet information is written before the size checks, so a peek and
  an `-ENOBUFS` fill it too. Its time-on-air is taken for the caller's `len`,
  not for the packet size.
- `_get_state` for an op-mode without a case copies an uninitialised
  variable. The model gives `Indeterminate`, and the return value is still
  `sizeof(netopt_state_t)`.
- The CRC test is the literal `(flags & PAYLOADCRCERROR_MASK) ==
  PAYLOADCRCERROR`, with both constants as parameters.

Metric arithmetic as the code computes it:
- The comment at `drivers/sx127x/sx127x_netdev.c:159` reads as inverting
  the byte and dividing by four. The code shifts the negated (negative)
  value itself, which rounds toward negative infinity, so raw `0xFF` gives
  -1, not 0. `Sx127xMetrics.NegativeSnrMagnitude` states this.
- The RSSI adds `rssi >> 4` to the raw byte, which makes it 17/16 of the
  raw value rounded down, before the offset and the negative-SNR term.
- The CRC test's outcome depends on the two header constants it compares,
  whose values are not part of this model. `Sx127xNetdev.CrcTestByMask`
  states both readings: a mask equal to the one-hot CRC-error bit makes it
  the test of that bit, and a mask that clears that bit makes it fail for
  every flags value.

## Model

| member | source | states |
|---|---|---|
| Sx127xTypes.TxIrqMaskUnmasksOnlyTxDone | drivers/sx127x/sx127x_netdev.c:97-104 | with one bit per IRQ source, the mask `_send` writes masks every source except TXDONE and leaves TXDONE unmasked |
| Sx127xMetrics.DecodeSnr | drivers/sx127x/sx127x_netdev.c:157-165 | SNR is negative iff bit 7 of the raw byte is set; negative: in [-32,-1] and the floor of (raw-256)/4; otherwise in [0,31] and the floor of raw/4 |
| Sx127xMetrics.NegativeSnrMagnitude | drivers/sx127x/sx127x_netdev.c:158-160 | a negative SNR is minus the two's-complement magnitude divided by four rounded up; raw 0xFF gives -1 although the magnitude shifted by two is 0 |
| Sx127xMetrics.DecodeRssi | drivers/sx127x/sx127x_netdev.c:167-192 | RSSI minus the offset and the negative-SNR correction is 17/16 of the raw byte rounded down (raw plus raw>>4); the offset `RssiOffset` picks is the SX1272's one offset, or on the SX1276 the HF offset when the channel is above the mid-band threshold and the LF offset otherwise |
| Sx127xMetrics.RssiSnrCorrection | drivers/sx127x/sx127x_netdev.c:170-190 | the SNR enters the RSSI exactly when it is negative, and then with its own value |
| Sx127xMetrics.PacketInfoOf | drivers/sx127x/sx127x_netdev.c:153-193 | packet information: LQI 0, the SNR decoded from the raw SNR byte (so in [-32,31]), the RSSI decoded with that SNR, time on air as the estimator returned |
| Sx127xFifo.WriteAtCell | drivers/sx127x/sx127x_netdev.c:88-90 | a FIFO write of at most 256 bytes puts byte k at address ptr+k mod 256 and leaves every other address alone |
| Sx127xFifo.ReadAfterWrite | drivers/sx127x/sx127x_netdev.c:211-214 | reading n bytes back from the address a write of n <= 256 bytes started at gives those bytes |
| Sx127xFifo.WriteAtSplit | drivers/sx127x/sx127x_netdev.c:88-90 | two bursts, the second from where the pointer stopped, leave the FIFO as one burst of both |
| Sx127xFifo.FlattenLength | drivers/sx127x/sx127x_netdev.c:466-475 | the concatenated segments are as long as the sum of the segment lengths |
| Sx127xFifo.FlattenAppend | drivers/sx127x/sx127x_netdev.c:88-90 | concatenating two scatter lists concatenates their bytes |
| Sx127xFifo.SegmentInPlace | drivers/sx127x/sx127x_netdev.c:88-90 | segment i occupies the bytes right after the segments before it |
| Sx127xOptions.SetReply | drivers/sx127x/sx127x_netdev.c:347-464 | `_set` fails iff the option has no case, the state has no case, or the bandwidth, SF or CR is out of range (then `-EINVAL`, and only then); on success it returns the option's size as written, at least 1 |
| Sx127xOptions.GetReturnsZeroAfterBreak | drivers/sx127x/sx127x_netdev.c:320-344 | `_get` returns 0 for the cases that end with `break` and for every option without a case |
| Sx127xOptions.SetReplySizeMismatches | drivers/sx127x/sx127x_netdev.c:361-457 | `_set` returns `sizeof(netopt_enable_t)` for a `uint8_t` device mode, `sizeof(uint16_t)` for a `uint8_t` TX power, `sizeof(bool)` for a `netopt_enable_t` IQ invert |
| Sx127xOptions.SetThenGet | drivers/sx127x/sx127x_netdev.c:290-338 | a value `_set` stores for an option `_get` also handles is the value `_get` reads back |
| Sx127xOptions.ApplySetter | drivers/sx127x/sx127x_netdev.c:361-457 | each option's setter changes only that option's setting: every other settings field and the window timeout stay as they were; SINGLE_RECEIVE sets continuous reception to the negation of its value |
| Sx127xOptions.StatePrimitive | drivers/sx127x/sx127x_netdev.c:477-510 | `_set_state` calls no primitive exactly for a state without a case; it calls `set_rx` exactly for IDLE and RX |
| Sx127xOptions.StateOfOpMode | drivers/sx127x/sx127x_netdev.c:512-540 | the receiver op-modes (continuous and single) read back as IDLE and only they; exactly the synthesizer and CAD modes have no state; every mapped state is SLEEP, STANDBY, TX or IDLE |
| Sx127xOptions.SleepStandbyReadBack | drivers/sx127x/sx127x_netdev.c:480-523 | requesting SLEEP or STANDBY reads back as that state |
| Sx127xNetdev.GetTxLen | drivers/sx127x/sx127x_netdev.c:466-475 | the scatter-list length is the sum of the segment lengths mod 256 |
| Sx127xNetdev.FifoBurstsInOrder | drivers/sx127x/sx127x_netdev.c:88-90 | one FIFO burst is logged per segment, burst i with segment i |
| Sx127xNetdev.WakeBeforeFifoWrites | drivers/sx127x/sx127x_netdev.c:80-90 | a sleeping chip is put in standby and waited for before the first FIFO write; an awake chip is not; the bursts follow in vector order |
| Sx127xNetdev.LoadedPayloadReadsBack | drivers/sx127x/sx127x_netdev.c:76-90 | a payload of at most 256 bytes loaded at address 0 reads back unchanged from address 0 |
| Sx127xNetdev.CrcTestByMask | drivers/sx127x/sx127x_netdev.c:136-139 | the literal test `(flags & MASK) == PAYLOADCRCERROR` is the test of the CRC-error bit when the mask is that one-hot bit, and never succeeds when the mask clears that bit |
| Sx127xNetdev.TxDioMappingRoutesDio0 | drivers/sx127x/sx127x_netdev.c:108-112 | with the DIO0 code outside the bits the DIO0 mask keeps, the written `DIOMAPPING1` keeps the other lines' bits and its DIO0 field is exactly that code |
| Sx127xNetdev.DioDispatch | drivers/sx127x/sx127x_netdev.c:255-274 | at most one handler runs; handler n runs iff the latched value is `SX127X_IRQ_DIO<n>`; none runs iff it matches no line |
| Sx127xNetdev.Sx127x.Init | drivers/sx127x/sx127x_netdev.c:223-233 | `irq` is 0, the channel and modem are the defaults, the state is idle, the result is 0 |
| Sx127xNetdev.Sx127x.WriteSegments | drivers/sx127x/sx127x_netdev.c:88-90 | the FIFO holds the concatenated segments from address 0, the pointer stands at the wrapped total, one burst is logged per segment |
| Sx127xNetdev.Sx127x.Wake | drivers/sx127x/sx127x_netdev.c:80-85 | a sleeping chip is put in standby and the wake-up time waited; an awake chip is left alone and nothing is logged |
| Sx127xNetdev.Sx127x.LoadPayload | drivers/sx127x/sx127x_netdev.c:72-91 | payload length := total mod 256, TX base := 0, the pointer ends at the size, the FIFO holds the segments, a sleeping chip is woken and waited for first |
| Sx127xNetdev.Sx127x.ArmTransmit | drivers/sx127x/sx127x_netdev.c:97-119 | IRQ mask := every source but TXDONE, DIO mapping := (old & DIO0 mask) \| DIO0_01, TX timer armed with `tx_timeout`, state TX running, op-mode transmitter |
| Sx127xNetdev.Sx127x.Send | drivers/sx127x/sx127x_netdev.c:56-122 | busy radio: `-ENOTSUP` and nothing changes; otherwise the LoRa framing and loading, then on every modem the TX arming of `ArmTransmit`, and 0 |
| Sx127xNetdev.Sx127x.DropCrcError | drivers/sx127x/sx127x_netdev.c:140-150 | CRC flag cleared, IDLE iff not continuous, RX timer stopped, one CRC-error event |
| Sx127xNetdev.Sx127x.TakePacket | drivers/sx127x/sx127x_netdev.c:204-214 | IDLE unless continuous, RX timer stopped, pointer := last RX address, exactly `size` FIFO bytes from there copied and the rest of the buffer untouched |
| Sx127xNetdev.Sx127x.Deliver | drivers/sx127x/sx127x_netdev.c:153-220 | packet information filled whenever asked for (with the caller's `len`); null buffer: the size and no other change; size > len: `-ENOBUFS` and no change; otherwise the packet delivered and its size |
| Sx127xNetdev.Sx127x.RecvLora | drivers/sx127x/sx127x_netdev.c:133-216 | RXDONE cleared and the flags read back; CRC error: `-EBADMSG`, no info, buffer untouched and the CRC branch's effects; else `Deliver`'s three outcomes |
| Sx127xNetdev.Sx127x.Recv | drivers/sx127x/sx127x_netdev.c:124-221 | non-LoRa modem: 0 and nothing changes; LoRa: the outcome `RecvLora` states; op-mode, irq, settings and the TX timer never change |
| Sx127xNetdev.Sx127x.Isr | drivers/sx127x/sx127x_netdev.c:248-275 | `irq` is 0 afterwards and exactly the handlers `DioDispatch` selects for the latched value were run |
| Sx127xNetdev.Sx127x.Get | drivers/sx127x/sx127x_netdev.c:284-344 | the size `_get` returns for the option and the value it writes (none for options without a case) |
| Sx127xNetdev.Sx127x.GetState | drivers/sx127x/sx127x_netdev.c:512-540 | `sizeof(netopt_state_t)` always; SLEEP, STANDBY, TX and IDLE for their op-modes, `Indeterminate` for the rest |
| Sx127xNetdev.Sx127x.SetState | drivers/sx127x/sx127x_netdev.c:477-510 | a state without a case: `-ENOTSUP` and no effect; otherwise its primitive called once, `window_timeout` := 0 for IDLE only, and `sizeof(netopt_state_t)` |
| Sx127xNetdev.Sx127x.Set | drivers/sx127x/sx127x_netdev.c:355-464 | the result `SetReply` gives; on failure nothing changes; STATE goes through `_set_state`; any other option's setter is applied and logged once |
| Sx127xNetdev.NetdevGet | drivers/sx127x/sx127x_netdev.c:277-345 | a null device gives `-ENODEV` and no value; otherwise the size and value `Get` states |
| Sx127xNetdev.NetdevSet | drivers/sx127x/sx127x_netdev.c:347-464 | a null device gives `-ENODEV`; otherwise the result `SetReply` gives and `Set`'s effects: nothing changes on failure, STATE calls its primitive, any other option's setter is applied and logged once; the radio state, registers, FIFO, timers and `irq` never change |

## Left out

- The register bus and the FIFO transport (`sx127x_reg_read`/`_write`, `sx127x_read_fifo`/`_write_fifo`): SPI I/O in other files. They are modelled by `RegWrite`, `WriteFifo` and `ReadFifo` on the register record and the FIFO array, with the chip's write-one-to-clear IRQ flags and auto-incrementing FIFO pointer.
- `xtimer_set`, `xtimer_remove` and `xtimer_usleep`: the timer subsystem, modelled as armed flags, the armed duration and a `Waited` log entry.
- The bodies of the setters and getters in other files (`sx127x_set_*`, `sx127x_get_*`): each setter's effect is one settings field. The two bits of `lora.flags` this file reads (continuous reception and channel hopping) are booleans of the settings; the flags byte's other bits are not modelled. The getters read those fields.
- `sx127x_set_rx`, `sx127x_set_tx` and `sx127x_reset` are logged only. Their effect on the op-mode and the logical state is defined elsewhere and is left unchanged. `sx127x_set_sleep` and `sx127x_set_standby` set the op-mode and nothing else; in particular the standby call `_send` makes on a sleeping chip leaves the logical state and the RX timer as they were.
- `sx127x_set_rx_single` and `sx127x_get_rx_single` (in a file that is not part of this model) are taken as clearing or setting, and reading the negation of, the continuous-reception flag that `_recv` tests; single reception has no setting of its own.
- `PacketInfo`: the field widths of `netdev_sx127x_lora_packet_info_t`, declared in a header that is not part of this model, are not modelled; its RSSI and SNR are unbounded integers, so a narrowing of the RSSI expression of `_recv` into a fixed-width field is not captured.
- The DIO handlers `sx127x_on_dio0` to `_dio3` are logged only. Their bodies are defined elsewhere.
- `sx127x_get_time_on_air` is a parameter of `Recv`, because its formula is defined elsewhere.
- The bring-up in `_init` (`sx127x_init`, `sx127x_init_radio_settings`, the final `sx127x_set_sleep`) is chip reset sequencing in other files.
- Sx127xNetdev.Sx127x.Init: states nothing about the settings fields other than channel, modem and state, because the source copies them from an uninitialised local.
- The FSK branches of `_send` and `_recv` are "todo" stubs. They are modelled as doing nothing, and so is the default case for an unknown modem. `DEBUG` and `puts` output is left out.
- The hardware interrupt that latches `irq` and the deferred dispatch to `_isr` are concurrency outside this file. `irq` is a plain field.
- The numeric values of the header constants are not fixed: register masks, IRQ bits, DIO codes, RSSI offsets, bandwidth/SF/CR bounds, modem codes, defaults, the wake-up time and the enum and `bool` sizes. They are parameters in `Hw`. The `uint8_t`, `uint16_t` and `uint32_t` sizes are 1, 2 and 4.
- The board choice `MODULE_SX1272` is a parameter of `Hw`, not a preprocessor switch.
- C's right shift of a negative `int` is implementation-defined. It is modelled as an arithmetic shift (floor division).
- The untyped `void *val` buffer of `_get` and `_set` is modelled as a typed `OptValue`. `ValueFits` stands for the caller passing the C type the option's case reads.
- Errno values are constructors of `Errno`, not numbers.
