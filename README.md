# nRF24L01+ controller, modelled in Dafny

`nRF24L01::Controller<T>` drives a Nordic nRF24L01+ 2.4 GHz radio over SPI.
Each public operation becomes a short sequence of SPI transactions.
Read-modify-write setters read a register in one transaction and write it back in another.
The controller also keeps a little shadow state of its own:
- whether it has powered the chip up;
- its mode (None, primary transmitter, primary receiver);
- the static payload width;
- the interrupt bits latched by the last read-and-clear.

The model has five modules, one file each:

- `protocol.dfy` (`Protocol`) holds the SPI command bytes, register addresses and bit masks the driver uses.
  The values follow sections 8.3.1 and 9.1 of the nRF24L01+ Product Specification v1.0.
  It also holds the pure encodings the controller applies: masks that clamp inputs, the address-width and bitrate switches, the interrupt latch, and the 16-bit STATUS/CONFIG packing.
- `chip.dfy` (`Chip`) is a simulated chip as a value.
  - State: the one-byte registers, the five-byte address registers, and the RX and TX FIFOs.
  - `Execute` is what one completed SPI transaction does to the chip.
  - `ReplyAt` is the byte the chip shifts out at each position of a transaction.
- `bus.dfy` (`Bus`) has the class `SimulatedBus`, in the shape of the abstract bus interface `NRF24L01Interface`.
  - It owns a chip and records every bus event in a trace.
  - Its invariant: the chip equals the replay of the trace on the chip it started with.
  - A transaction takes effect when it ends, as on the real chip when CSN rises. Every byte shifted out during a transaction is computed from the chip as it was when the transaction began.
  - `transferBytes` is a full-duplex exchange in place: a loop over an array.
- `controller.dfy` (`NRF24L01`) has the class `Controller`, with the controller's fields and one method per operation.
  Each method is specified by three things:
  - the exact bus traffic it appends to the trace;
  - the chip state it leaves behind, stated through `Execute`, `SetRegister`, `WithBits` and `WithField`;
  - its shadow fields.
- `scenarios.dfy` (`Scenarios`) holds client code: bring-up and one send, and one interrupt cycle, on a fresh bus.

The three queries `didReceivePayload`, `didSendPayload` and `didHitMaxRetry` are the predicates `DidReceivePayload`, `DidSendPayload` and `DidHitMaxRetry`. `ReadAndClearInterruptBits` states what they answer after a read-and-clear.

## Model

| member | source | states |
|---|---|---|
| Protocol.WithField | nRF24L01.hpp:326 | A field update changes exactly the bits of the field: outside it the old value survives, inside it the new bits appear |
| Protocol.WithBits | nRF24L01.hpp:285-298 | Setting or clearing one flag sets (or clears) every bit of the mask and keeps every other bit |
| Protocol.ChannelMask | nRF24L01.hpp:271-277 | The channel written is the input modulo 128, at most 127, and unchanged for a valid channel 0..127 |
| Protocol.PacketLengthMask | nRF24L01.hpp:182-189 | The stored payload width is the input modulo 64, at most 63, and unchanged for inputs up to 63 |
| Protocol.AddressWidthCode | nRF24L01.hpp:203-215 | The SETUP_AW code is a legal nonzero AW code and selects 3 or 4 bytes for sizes 3 and 4 and 5 bytes for every other size |
| Protocol.BitrateBits | nRF24L01.hpp:306-319 | The rate bits lie within RF_DR_LOW/RF_DR_HIGH, never both, and select 250 kbps for 0, 1 Mbps for 1 and 2 Mbps otherwise |
| Protocol.Latch | nRF24L01.hpp:473-486 | The latch holds no bit outside RX_DR, TX_DS and MAX_RT, and holds each of those exactly when STATUS has it |
| Protocol.StatusAndConfig | nRF24L01.hpp:429-435 | The 16-bit result gives back STATUS from its high byte and CONFIG from its low byte |
| Chip.DataInRxFifoIffPending | nRF24L01.hpp:458-464 | The FIFO_STATUS test `RX_FULL set or RX_EMPTY clear` holds exactly when the RX FIFO is nonempty |
| Chip.ClearedStatusLatchesNothing | nRF24L01.hpp:472-487 | After the interrupt bits are written back as 1s, STATUS shows no interrupt bit |
| Chip.WriteThenRead | nRF24L01.hpp:143-150 | A one-byte register written with W_REGISTER and read with R_REGISTER gives back the value written |
| Chip.AddressWriteThenRead | nRF24L01.hpp:232-235 | An address register written with 1 to 5 bytes reads back those bytes first |
| Chip.PayloadReadReturnsHead | nRF24L01.hpp:404-410 | Reading n payload bytes returns the first n bytes of the oldest payload in the RX FIFO |
| Chip.WidthReportsHead | nRF24L01.hpp:389-395 | R_RX_PL_WID reports the true width of the waiting payload |
| Bus.ReplaySnoc | NRF24L01Interface.hpp:27-31 | Replaying one more event applies that event to the replayed chip |
| Bus.ReplayAppend | NRF24L01Interface.hpp:27-31 | Replaying two stretches of traffic in turn is replaying their concatenation |
| Bus.UnwrittenRegisterKept | NRF24L01Interface.hpp:27-31 | A register other than STATUS that no transaction of a trace writes keeps its value across the trace |
| Bus.SimulatedBus.constructor | NRF24L01Interface.hpp:36-39 | A new bus is closed, idle, with CE low and an empty trace, over the given chip |
| Bus.SimulatedBus.Open | NRF24L01Interface.hpp:24 | Opening records `Opened` and leaves the chip unchanged |
| Bus.SimulatedBus.Close | NRF24L01Interface.hpp:25 | Closing records `Closed` and leaves the chip unchanged |
| Bus.SimulatedBus.BeginTransaction | NRF24L01Interface.hpp:27 | A transaction opens with no byte shifted in; transactions do not nest |
| Bus.SimulatedBus.EndTransaction | NRF24L01Interface.hpp:28 | Ending records the command byte and its data bytes as one transaction and applies `Execute` to the chip |
| Bus.SimulatedBus.TransferByte | NRF24L01Interface.hpp:30 | The byte shifted out is the chip's reply at this position; the byte shifted in joins the transaction |
| Bus.SimulatedBus.TransferBytes | NRF24L01Interface.hpp:31 | The first `size` bytes of the buffer are shifted in and each is replaced by the chip's reply at its position; the rest of the buffer is untouched |
| Bus.SimulatedBus.ShiftBlock | NRF24L01Interface.hpp:31 | The exchange loop: after n steps the first n bytes went out in order and were replaced by the chip's replies at their positions, and the other bytes are untouched |
| Bus.SimulatedBus.WriteCEHigh | nRF24L01.hpp:131 | CE goes high and `ChipEnable(true)` is recorded |
| Bus.SimulatedBus.WriteCELow | nRF24L01.hpp:380 | CE goes low and `ChipEnable(false)` is recorded |
| Bus.SimulatedBus.Delay | NRF24L01Interface.hpp:33 | A delay is recorded and does not touch the chip |
| Bus.SimulatedBus.DelayMicroseconds | NRF24L01Interface.hpp:34 | A microsecond delay is recorded and does not touch the chip |
| NRF24L01.FlagUpdate | nRF24L01.hpp:59 | The source's `v \| mask` / `v & ~mask` update is `WithBits` |
| NRF24L01.RetryUpdate | nRF24L01.hpp:349 | `(setupretr & ARD) \| (retryCount & ARC)` replaces only ARC, whose new value is the count modulo 16 |
| NRF24L01.Controller.constructor | nRF24L01.hpp:27-35 | Bring-up waits 100 ms, opens the bus, reads and clears the interrupts (latching them) and flushes RX; the chip is left powered as it was, mode None |
| NRF24L01.Controller.Exchange | nRF24L01.hpp:51-54 | A two-byte transaction returns STATUS and the chip's reply to the command, and applies the command |
| NRF24L01.Controller.ReadByte | nRF24L01.hpp:51-54 | Reading a one-byte register returns its value and leaves the chip unchanged |
| NRF24L01.Controller.WriteByte | nRF24L01.hpp:57-60 | Writing a one-byte register changes that register only |
| NRF24L01.Controller.BlockTransaction | nRF24L01.hpp:366-369 | A command plus a block is one transaction; the buffer gets the chip's replies in place |
| NRF24L01.Controller.SetPoweredUp | nRF24L01.hpp:46-87 | No traffic when the shadow state already matches; otherwise CONFIG is read and written back with only PWR_UP changed (plus a 2 ms wait when powering up); the shadow state follows |
| NRF24L01.Controller.SetPrimaryTransmitter | nRF24L01.hpp:99-112 | Only PRIM_RX is cleared in CONFIG, CE is untouched, mode becomes PTX |
| NRF24L01.Controller.SetPrimaryReceiver | nRF24L01.hpp:118-134 | Only PRIM_RX is set in CONFIG, then CE goes high, mode becomes PRX |
| NRF24L01.Controller.SetAutoAcknowledgementEnabled | nRF24L01.hpp:143-150 | EN_AA becomes 0x3F or 0x00 in one write |
| NRF24L01.Controller.SetUsesDynamicPayloadLength | nRF24L01.hpp:158-174 | DYNPD becomes 0x3F or 0x00, then only EN_DPL of FEATURE changes, to match |
| NRF24L01.Controller.SetReceivedPacketLength | nRF24L01.hpp:182-189 | The stored width and the value written to RX_PW_P0 are both the input's low six bits |
| NRF24L01.Controller.SetAddress | nRF24L01.hpp:198-264 | The chip is the old chip with the SETUP_AW write and the mode's address transactions replayed. Of the one-byte registers only SETUP_AW changes, to the width code (3 gives 0b01, 4 gives 0b10, anything else 0b11). In PTX the first `addressSize` bytes overlay the low bytes of TX_ADDR and RX_ADDR_P0, keeping the upper bytes; in PRX only RX_ADDR_P0 changes; in None no address changes, and any address length is accepted. RX_ADDR_P1 and the FIFOs are untouched |
| NRF24L01.Controller.WriteAddresses | nRF24L01.hpp:222-263 | The mode chooses the address registers written (PTX: TX_ADDR then RX_ADDR_P0; PRX: RX_ADDR_P0; None: none, whatever the address length). Each one written has its low `addressSize` bytes overlaid; the other addresses, the one-byte registers and the FIFOs are untouched |
| NRF24L01.AddressTrafficKeepsRegisters | nRF24L01.hpp:222-263 | The address transactions of any mode leave every one-byte register other than STATUS as it was |
| NRF24L01.Controller.WriteAddress | nRF24L01.hpp:226-235 | After a refill of the buffer, one transaction overwrites the low `addressSize` bytes of one address register and nothing else |
| NRF24L01.Controller.LoadAddress | nRF24L01.hpp:226-230 | The five-byte buffer holds the first five address bytes |
| NRF24L01.Controller.SetChannel | nRF24L01.hpp:271-277 | RF_CH is written with the channel's low seven bits |
| NRF24L01.Controller.SetCRCEnabled | nRF24L01.hpp:285-298 | Only EN_CRC of CONFIG changes, to match the request |
| NRF24L01.Controller.SetBitrate | nRF24L01.hpp:306-332 | Only the two rate bits of RF_SETUP change, and the chip then runs at the requested rate |
| NRF24L01.Controller.SetAutoRetransmitCount | nRF24L01.hpp:340-351 | ARD is kept and ARC becomes the count modulo 16 |
| NRF24L01.Controller.StartSendingPacket | nRF24L01.hpp:361-373 | W_TX_PAYLOAD (W_TX_PAYLOAD_NO_ACK when asked) with the payload, then CE high; a payload of 1..32 bytes joins a TX FIFO that has room |
| NRF24L01.Controller.ConcludeSendingPacket | nRF24L01.hpp:379-381 | CE goes low and nothing else happens |
| NRF24L01.Controller.GetNextPacketSize | nRF24L01.hpp:389-395 | Returns the width of the waiting payload, 0 when none waits, and leaves the chip unchanged |
| NRF24L01.Controller.ReadData | nRF24L01.hpp:404-410 | Reads `length` bytes, or the stored width when `length` is 0; they are the oldest payload's bytes, and that payload leaves the RX FIFO |
| NRF24L01.Controller.FlushRXFIFO | nRF24L01.hpp:416-422 | The RX FIFO becomes empty and nothing else changes |
| NRF24L01.Controller.GetStatusAndConfigRegisters | nRF24L01.hpp:429-435 | One transaction; STATUS in the high byte and CONFIG in the low byte of the result |
| NRF24L01.Controller.GetFIFOStatus | nRF24L01.hpp:443-450 | Returns FIFO_STATUS as the FIFOs determine it and leaves the chip unchanged |
| NRF24L01.Controller.DataInRXFIFO | nRF24L01.hpp:458-464 | True exactly when a payload waits in the RX FIFO |
| NRF24L01.Controller.ReadAndClearInterruptBits | nRF24L01.hpp:472-519 | Latches STATUS & 0x70; each of the three queries answers whether its bit was set; STATUS then shows no interrupt and nothing else changes |
| Scenarios.TransmitOnce | nRF24L01.hpp:361-381 | Bring-up, power-up twice, PTX, a 5-byte address and one send give this exact traffic; the second power-up is silent; both address registers hold the address; the payload is queued; CE ends low |
| Scenarios.PowerUpAsTransmitter | nRF24L01.hpp:46-112 | From reset, power-up twice then PTX: one CONFIG read-write pair with a 2 ms wait, then one more pair |
| Scenarios.ConfigureTransmitter | nRF24L01.hpp:198-247 | In PTX a 5-byte address lands in TX_ADDR and RX_ADDR_P0 |
| Scenarios.SendOne | nRF24L01.hpp:361-381 | A send queues exactly the payload and leaves CE low |
| Scenarios.InterruptCycle | nRF24L01.hpp:472-519 | With one packet received and one sent, read-and-clear reports RX and TX but not MAX_RT; the payload reads back intact; a second read-and-clear reports nothing |
| Scenarios.Interrupt | nRF24L01.hpp:495-514 | The three queries after read-and-clear report the STATUS interrupt bits read |
| Scenarios.Receive | nRF24L01.hpp:389-410 | When a payload waits, the FIFO test sees it, the width command gives its width, and reading that many bytes returns it |

## Left out

- Pins and allocation: the constructor's pin arguments, `new T(...)`, the destructor and the pin getters are out of the model, and so is the pin-holder base class (nRF24L01.hpp:16, 27-38, 645-653). The controller is handed a bus instead.
- The Arduino adapter (ArduinoInterface and ArduinoSPI) is hardware I/O over Arduino's SPI and pin libraries, which are not part of this model. `SimulatedBus` stands in for it.
- `writeCEHigh` and `writeCELow` are not declared in `NRF24L01Interface`. The controller calls them on its bus type `T`, so `SimulatedBus` provides them.
- Time: `delay(100)`, `delay(2)` and the microsecond delay are trace events only. Elapsed time is not modelled.
- Concurrency: the `volatile` fields and re-entry from an interrupt handler are not modelled. Every operation runs to completion.
- `_ACKEnabled` is set by the constructor and never read, so it is not a field of the model.
- NRF24L01.Controller.SetAddress: in PTX and PRX, requires at least five address bytes and a size of at most five. In those modes the source copies five bytes out of `address` and transfers `addressSize` bytes out of a five-byte stack buffer, so anything else reads or writes out of bounds. With no mode set, only SETUP_AW is written and any address and size are accepted. The same holds for NRF24L01.Controller.WriteAddresses.
- NRF24L01.Controller.constructor: the static payload width is left uninitialised, as in the source. `ReadData(buf, 0)` before `SetReceivedPacketLength` therefore reads an arbitrary width, which the model leaves unconstrained.
- The chip is simulated only as far as the driver sees it.
  - Pipes 1-5, ACK payloads, REUSE_TX_PL and the radio's own timing are not modelled.
  - Transmission and reception are the explicit events `PacketArrived`, `PacketSent` and `RetransmitsExhausted`. No CE-driven state machine produces them.
  - W_TX_PAYLOAD_NO_ACK is accepted without checking that EN_DYN_ACK is set.
  - Address registers are kept at five bytes whatever SETUP_AW says.
  - Registers the model does not track read as 0.
  - R_RX_PL_WID answers 0 when the RX FIFO is empty. This is a choice of the simulated chip, so the "0 when none waits" in the GetNextPacketSize row describes the simulation, not a promise of the driver.
- NRF24L01.Controller.GetStatusAndConfigRegisters: returns a 16-bit value, where the source returns an `unsigned int`. The upper bits of the source's value are always 0.
