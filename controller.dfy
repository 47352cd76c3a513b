/**
 * nRF24L01::Controller: the protocol and state-machine layer of the driver.
 * Each operation issues its sequence of bus transactions (read-modify-write
 * setters use two: one to read, one to write back) and keeps the local
 * shadow state: power state, mode, static packet length and the latched
 * interrupt snapshot.
 */
module NRF24L01 {
  import opened Protocol
  import opened Chip
  import opened Bus

  datatype Mode = None | PTX | PRX

  /**
   * The address writes of SetAddress after SETUP_AW: the first `addressSize`
   * bytes go to TX_ADDR and RX_ADDR_P0 in PTX, to RX_ADDR_P0 only in PRX, and
   * nowhere in None (where the address is not read at all).
   */
  function AddressTraffic(mode: Mode, address: seq<byte>, addressSize: byte): seq<Event>
    requires mode != None ==> addressSize as nat <= |address|
  {
    match mode
    case PTX => [Transaction(W_REGISTER | TX_ADDR, address[..addressSize])] + [Transaction(W_REGISTER | RX_ADDR_P0, address[..addressSize])]
    case PRX => [Transaction(W_REGISTER | RX_ADDR_P0, address[..addressSize])]
    case None => []
  }

  /**
   * Address traffic leaves alone every one-byte register other than STATUS
   * and the address registers themselves, on any chip.
   */
  lemma AddressTrafficKeepsRegisters(c: ChipState, mode: Mode, address: seq<byte>, addressSize: byte, a: byte)
    requires mode != None ==> addressSize as nat <= |address|
    requires a != STATUS && !IsAddressRegister(a)
    ensures Reg(Replay(c, AddressTraffic(mode, address, addressSize)), a) == Reg(c, a)
  {
    var t := AddressTraffic(mode, address, addressSize);
    assert (W_REGISTER | TX_ADDR) & REGISTER_ADDRESS == TX_ADDR;
    assert (W_REGISTER | RX_ADDR_P0) & REGISTER_ADDRESS == RX_ADDR_P0;
    assert forall i :: 0 <= i < |t| ==> !WritesRegister(t[i], a);
    UnwrittenRegisterKept(c, t, a);
  }

  /** The source's spelling of a one-flag update (`v | mask` or `v & ~mask`) is WithBits. */
  lemma FlagUpdate(v: byte, mask: byte, on: bool)
    ensures (if on then v | mask else v & !mask) == WithBits(v, mask, on)
  {
  }

  /** The source's spelling of the SETUP_RETR update is WithField on ARC. */
  lemma RetryUpdate(v: byte, retryCount: byte)
    ensures (v & ARD) | (retryCount & ARC) == WithField(v, ARC, retryCount)
    ensures (WithField(v, ARC, retryCount) & ARC) as int == retryCount as int % 16
  {
  }

  class Controller {
    const bus: SimulatedBus
    var poweredUp: bool
    var mode: Mode
    var receivedPacketLength: byte
    var lastInterruptBits: byte

    /** Between operations the bus is consistent and no transaction is open. */
    ghost predicate Valid()
      reads this, bus
    {
      bus.Valid() && !bus.inTransaction
    }

    /**
     * Waits for the chip to power on, opens the bus, clears stale interrupt
     * bits and flushes the RX FIFO. The static packet length is left
     * uninitialised, as in the source.
     */
    constructor (bus: SimulatedBus)
      requires bus.Valid() && !bus.inTransaction
      modifies bus
      ensures Valid() && this.bus == bus
      ensures !poweredUp && mode == None
      ensures lastInterruptBits == Latch(Status(old(bus.chip)))
      ensures bus.trace == old(bus.trace) + [Delay(100)] + [Opened] + [Transaction(NOP, [])]
                                           + [WriteEvent(STATUS, INTERRUPT_BITS)] + [Transaction(FLUSH_RX, [0x00])]
      ensures bus.chip == SetRegister(old(bus.chip), STATUS, Reg(old(bus.chip), STATUS) & !INTERRUPT_BITS).(rx := [])
      ensures bus.isOpen && bus.ce == old(bus.ce)
    {
      this.bus := bus;
      poweredUp := false;
      mode := None;
      lastInterruptBits := 0;
      new;
      bus.Delay(100);
      bus.Open();
      ReadAndClearInterruptBits();
      FlushRXFIFO();
    }

    // -------------------------------------------------------------------
    // Transaction helpers
    // -------------------------------------------------------------------

    /** One transaction of a command byte and one data byte; returns both bytes shifted out. */
    method Exchange(command: byte, b: byte) returns (status: byte, reply: byte)
      requires Valid()
      modifies bus
      ensures Valid() && bus.ce == old(bus.ce) && bus.isOpen == old(bus.isOpen)
      ensures status == Status(old(bus.chip)) && reply == ReplyAt(old(bus.chip), command, 1)
      ensures bus.trace == old(bus.trace) + [Transaction(command, [b])]
      ensures bus.chip == Execute(old(bus.chip), command, [b])
    {
      bus.BeginTransaction();
      status := bus.TransferByte(command);
      reply := bus.TransferByte(b);
      bus.EndTransaction();
    }

    /** Reads one-byte register `a`, clocking out `dummy` for its value. */
    method ReadByte(a: byte, dummy: byte) returns (v: byte)
      requires Valid() && a <= REGISTER_ADDRESS && !IsAddressRegister(a)
      modifies bus
      ensures Valid() && bus.ce == old(bus.ce) && bus.isOpen == old(bus.isOpen)
      ensures v == ReadRegister(old(bus.chip), a)
      ensures bus.trace == old(bus.trace) + [ReadEvent(a, dummy)] && bus.chip == old(bus.chip)
    {
      var _, r := Exchange(R_REGISTER | a, dummy);
      v := r;
    }

    /** Writes `v` to one-byte register `a` (not STATUS or FIFO_STATUS). */
    method WriteByte(a: byte, v: byte)
      requires Valid() && a <= REGISTER_ADDRESS && !IsAddressRegister(a) && a != STATUS && a != FIFO_STATUS
      modifies bus
      ensures Valid() && bus.ce == old(bus.ce) && bus.isOpen == old(bus.isOpen)
      ensures bus.trace == old(bus.trace) + [WriteEvent(a, v)]
      ensures bus.chip == SetRegister(old(bus.chip), a, v)
    {
      var _, _ := Exchange(W_REGISTER | a, v);
    }

    /** One transaction of `command` followed by the first `size` bytes of `buf`, exchanged in place. */
    method BlockTransaction(command: byte, buf: array<byte>, size: byte)
      requires Valid() && size as int <= buf.Length
      modifies bus, buf
      ensures Valid() && bus.ce == old(bus.ce) && bus.isOpen == old(bus.isOpen)
      ensures bus.trace == old(bus.trace) + [Transaction(command, old(buf[..size]))]
      ensures bus.chip == Execute(old(bus.chip), command, old(buf[..size]))
      ensures buf[..size] == Replies(old(bus.chip), command, 1, size as nat)
      ensures buf[size..] == old(buf[size..])
    {
      bus.BeginTransaction();
      var _ := bus.TransferByte(command);
      bus.TransferBytes(buf, size);
      bus.EndTransaction();
    }

    // -------------------------------------------------------------------
    // Power and mode
    // -------------------------------------------------------------------

    /**
     * Powers the chip up or down. When the shadow state already matches there
     * is no bus traffic; otherwise CONFIG is read and written back with only
     * PWR_UP changed, followed by a settling delay when powering up.
     */
    method SetPoweredUp(shouldPowerUp: bool)
      requires Valid()
      modifies this`poweredUp, bus
      ensures Valid() && bus.ce == old(bus.ce) && bus.isOpen == old(bus.isOpen)
      ensures poweredUp == shouldPowerUp
      ensures old(poweredUp) == shouldPowerUp ==> bus.trace == old(bus.trace) && bus.chip == old(bus.chip)
      ensures old(poweredUp) != shouldPowerUp ==>
        var config := WithBits(old(Reg(bus.chip, CONFIG)), PWR_UP, shouldPowerUp);
        && bus.trace == old(bus.trace) + [ReadEvent(CONFIG, NOP)] + [WriteEvent(CONFIG, config)]
                                       + (if shouldPowerUp then [Delay(2)] else [])
        && bus.chip == SetRegister(old(bus.chip), CONFIG, config)
    {
      if shouldPowerUp {
        if !poweredUp {
          var config := ReadByte(CONFIG, NOP);
          WriteByte(CONFIG, config | PWR_UP);
          bus.Delay(2);
          poweredUp := true;
        }
      } else {
        if poweredUp {
          var config := ReadByte(CONFIG, NOP);
          WriteByte(CONFIG, config & !PWR_UP);
          poweredUp := false;
        }
      }
    }

    /** Clears PRIM_RX (and nothing else) in CONFIG; CE is left alone. */
    method SetPrimaryTransmitter()
      requires Valid()
      modifies this`mode, bus
      ensures Valid() && bus.ce == old(bus.ce) && bus.isOpen == old(bus.isOpen)
      ensures mode == PTX
      ensures var config := WithBits(old(Reg(bus.chip, CONFIG)), PRIM_RX, false);
        && bus.trace == old(bus.trace) + [ReadEvent(CONFIG, NOP)] + [WriteEvent(CONFIG, config)]
        && bus.chip == SetRegister(old(bus.chip), CONFIG, config)
    {
      var config := ReadByte(CONFIG, NOP);
      WriteByte(CONFIG, config & !PRIM_RX);
      mode := PTX;
    }

    /** Sets PRIM_RX (and nothing else) in CONFIG, then holds CE high to listen. */
    method SetPrimaryReceiver()
      requires Valid()
      modifies this`mode, bus
      ensures Valid() && bus.ce && bus.isOpen == old(bus.isOpen)
      ensures mode == PRX
      ensures var config := WithBits(old(Reg(bus.chip, CONFIG)), PRIM_RX, true);
        && bus.trace == old(bus.trace) + [ReadEvent(CONFIG, NOP)] + [WriteEvent(CONFIG, config)] + [ChipEnable(true)]
        && bus.chip == SetRegister(old(bus.chip), CONFIG, config)
    {
      var config := ReadByte(CONFIG, NOP);
      WriteByte(CONFIG, config | PRIM_RX);
      bus.WriteCEHigh();
      mode := PRX;
    }

    // -------------------------------------------------------------------
    // Link configuration
    // -------------------------------------------------------------------

    /** Enables or disables auto-acknowledgement on all six pipes at once. */
    method SetAutoAcknowledgementEnabled(enabled: bool)
      requires Valid()
      modifies bus
      ensures Valid() && bus.ce == old(bus.ce) && bus.isOpen == old(bus.isOpen)
      ensures var value: byte := if enabled then BITS_EN_AA else 0x00;
        && bus.trace == old(bus.trace) + [WriteEvent(EN_AA, value)]
        && bus.chip == SetRegister(old(bus.chip), EN_AA, value)
    {
      WriteByte(EN_AA, if enabled then BITS_EN_AA else 0x00);
    }

    /**
     * Writes DYNPD for all pipes, then read-modify-writes FEATURE so that
     * EN_DPL (and no other FEATURE bit) agrees with it.
     */
    method SetUsesDynamicPayloadLength(uses: bool)
      requires Valid()
      modifies bus
      ensures Valid() && bus.ce == old(bus.ce) && bus.isOpen == old(bus.isOpen)
      ensures var dynpd: byte := if uses then DPL_P else 0x00;
        var feature := WithBits(old(Reg(bus.chip, FEATURE)), EN_DPL, uses);
        && bus.trace == old(bus.trace) + [WriteEvent(DYNPD, dynpd)] + [ReadEvent(FEATURE, 0x00)] + [WriteEvent(FEATURE, feature)]
        && bus.chip == SetRegister(SetRegister(old(bus.chip), DYNPD, dynpd), FEATURE, feature)
    {
      WriteByte(DYNPD, if uses then DPL_P else 0x00);
      var feature := ReadByte(FEATURE, 0x00);
      WriteByte(FEATURE, if uses then feature | EN_DPL else feature & !EN_DPL);
    }

    /** Stores the static payload width, clamped to six bits, and writes it to RX_PW_P0. */
    method SetReceivedPacketLength(numberBytes: byte)
      requires Valid()
      modifies this`receivedPacketLength, bus
      ensures Valid() && bus.ce == old(bus.ce) && bus.isOpen == old(bus.isOpen)
      ensures receivedPacketLength == PacketLengthMask(numberBytes)
      ensures bus.trace == old(bus.trace) + [WriteEvent(RX_PW_P0, receivedPacketLength)]
      ensures bus.chip == SetRegister(old(bus.chip), RX_PW_P0, receivedPacketLength)
    {
      receivedPacketLength := numberBytes & 0x3F;
      WriteByte(RX_PW_P0, receivedPacketLength);
    }

    /**
     * Writes the address width code, then the first `addressSize` address
     * bytes to the registers the mode calls for. The bytes go through a
     * five-byte buffer that each in-place exchange overwrites, so it is
     * refilled before every write. In mode None only SETUP_AW is written.
     */
    method SetAddress(address: seq<byte>, addressSize: byte)
      requires Valid()
      requires mode != None ==> |address| >= ADDRESS_BYTES && addressSize as nat <= ADDRESS_BYTES
      modifies bus
      ensures Valid() && bus.ce == old(bus.ce) && bus.isOpen == old(bus.isOpen)
      ensures bus.trace == old(bus.trace) + [WriteEvent(SETUP_AW, AddressWidthCode(addressSize))]
                                          + AddressTraffic(mode, address, addressSize)
      ensures bus.chip == Replay(old(bus.chip), [WriteEvent(SETUP_AW, AddressWidthCode(addressSize))]
                                                + AddressTraffic(mode, address, addressSize))
      ensures bus.chip.regs == old(bus.chip.regs)[SETUP_AW as nat := AddressWidthCode(addressSize)]
      ensures bus.chip.rx == old(bus.chip.rx) && bus.chip.tx == old(bus.chip.tx)
      ensures mode == PTX ==> Address(bus.chip, TX_ADDR) == Overlay(old(Address(bus.chip, TX_ADDR)), address[..addressSize])
      ensures mode != None ==> Address(bus.chip, RX_ADDR_P0) == Overlay(old(Address(bus.chip, RX_ADDR_P0)), address[..addressSize])
      ensures mode != PTX ==> Address(bus.chip, TX_ADDR) == old(Address(bus.chip, TX_ADDR))
      ensures mode == None ==> Address(bus.chip, RX_ADDR_P0) == old(Address(bus.chip, RX_ADDR_P0))
      ensures forall b :: b != TX_ADDR && b != RX_ADDR_P0 ==> Address(bus.chip, b) == old(Address(bus.chip, b))
    {
      ghost var t0, c0 := bus.trace, bus.chip;
      ghost var write := [WriteEvent(SETUP_AW, AddressWidthCode(addressSize))];
      ghost var traffic := write + AddressTraffic(mode, address, addressSize);
      assert t0 + traffic == t0 + write + AddressTraffic(mode, address, addressSize);
      WriteByte(SETUP_AW, AddressWidthCode(addressSize));
      SameAddresses(c0, bus.chip);
      WriteAddresses(address, addressSize);
      ReplayExtends(bus.initial, t0, traffic, c0, bus.chip);
    }

    /** The address writes of SetAddress after SETUP_AW, chosen by the mode. */
    method WriteAddresses(address: seq<byte>, addressSize: byte)
      requires Valid()
      requires mode != None ==> |address| >= ADDRESS_BYTES && addressSize as nat <= ADDRESS_BYTES
      modifies bus
      ensures Valid() && bus.ce == old(bus.ce) && bus.isOpen == old(bus.isOpen)
      ensures bus.trace == old(bus.trace) + AddressTraffic(mode, address, addressSize)
      ensures bus.chip.regs == old(bus.chip.regs) && bus.chip.rx == old(bus.chip.rx) && bus.chip.tx == old(bus.chip.tx)
      ensures mode == PTX ==> Address(bus.chip, TX_ADDR) == Overlay(old(Address(bus.chip, TX_ADDR)), address[..addressSize])
      ensures mode != None ==> Address(bus.chip, RX_ADDR_P0) == Overlay(old(Address(bus.chip, RX_ADDR_P0)), address[..addressSize])
      ensures mode != PTX ==> Address(bus.chip, TX_ADDR) == old(Address(bus.chip, TX_ADDR))
      ensures mode == None ==> Address(bus.chip, RX_ADDR_P0) == old(Address(bus.chip, RX_ADDR_P0))
      ensures forall b :: b != TX_ADDR && b != RX_ADDR_P0 ==> Address(bus.chip, b) == old(Address(bus.chip, b))
    {
      match mode {
        case PTX =>
          var storage := new byte[ADDRESS_BYTES];
          WriteAddress(TX_ADDR, storage, address, addressSize);
          WriteAddress(RX_ADDR_P0, storage, address, addressSize);
        case PRX =>
          var storage := new byte[ADDRESS_BYTES];
          WriteAddress(RX_ADDR_P0, storage, address, addressSize);
        case None =>
      }
    }

    /**
     * Refills the transfer buffer from `address` and writes its first
     * `addressSize` bytes to address register `a` in one transaction.
     */
    method WriteAddress(a: byte, storage: array<byte>, address: seq<byte>, addressSize: byte)
      requires Valid() && IsAddressRegister(a)
      requires storage.Length == ADDRESS_BYTES && |address| >= ADDRESS_BYTES
      requires addressSize as nat <= ADDRESS_BYTES
      modifies bus, storage
      ensures Valid() && bus.ce == old(bus.ce) && bus.isOpen == old(bus.isOpen)
      ensures bus.trace == old(bus.trace) + [Transaction(W_REGISTER | a, address[..addressSize])]
      ensures bus.chip.regs == old(bus.chip.regs) && bus.chip.rx == old(bus.chip.rx) && bus.chip.tx == old(bus.chip.tx)
      ensures Address(bus.chip, a) == Overlay(old(Address(bus.chip, a)), address[..addressSize])
      ensures forall b :: b != a ==> Address(bus.chip, b) == old(Address(bus.chip, b))
    {
      LoadAddress(storage, address);
      assert storage[..addressSize] == address[..addressSize];
      BlockTransaction(W_REGISTER | a, storage, addressSize);
      assert (W_REGISTER | a) & REGISTER_ADDRESS == a;
    }

    /** Copies the first five address bytes into the transfer buffer. */
    static method LoadAddress(storage: array<byte>, address: seq<byte>)
      requires storage.Length == ADDRESS_BYTES && |address| >= ADDRESS_BYTES
      modifies storage
      ensures storage[..] == address[..ADDRESS_BYTES]
    {
      storage[0] := address[0];
      storage[1] := address[1];
      storage[2] := address[2];
      storage[3] := address[3];
      storage[4] := address[4];
    }

    /** Writes the channel, clamped to seven bits, to RF_CH. */
    method SetChannel(channel: byte)
      requires Valid()
      modifies bus
      ensures Valid() && bus.ce == old(bus.ce) && bus.isOpen == old(bus.isOpen)
      ensures bus.trace == old(bus.trace) + [WriteEvent(REGISTER_RF_CH, ChannelMask(channel))]
      ensures bus.chip == SetRegister(old(bus.chip), REGISTER_RF_CH, ChannelMask(channel))
    {
      var masked := channel & BITS_RF_CH;
      WriteByte(REGISTER_RF_CH, masked);
    }

    /** Sets or clears EN_CRC (and nothing else) in CONFIG. */
    method SetCRCEnabled(enabled: bool)
      requires Valid()
      modifies bus
      ensures Valid() && bus.ce == old(bus.ce) && bus.isOpen == old(bus.isOpen)
      ensures var config := WithBits(old(Reg(bus.chip, CONFIG)), EN_CRC, enabled);
        && bus.trace == old(bus.trace) + [ReadEvent(CONFIG, 0x00)] + [WriteEvent(CONFIG, config)]
        && bus.chip == SetRegister(old(bus.chip), CONFIG, config)
    {
      var config := ReadByte(CONFIG, 0x00);
      FlagUpdate(config, EN_CRC, enabled);
      WriteByte(CONFIG, if enabled then config | EN_CRC else config & !EN_CRC);
    }

    /** Replaces the two data-rate bits of RF_SETUP, keeping its other bits. */
    method SetBitrate(bitrate: byte)
      requires Valid()
      modifies bus
      ensures Valid() && bus.ce == old(bus.ce) && bus.isOpen == old(bus.isOpen)
      ensures var rfSetup := WithField(old(Reg(bus.chip, RF_SETUP)), RF_DR_LOW | RF_DR_HIGH, BitrateBits(bitrate));
        && bus.trace == old(bus.trace) + [ReadEvent(RF_SETUP, 0x00)] + [WriteEvent(RF_SETUP, rfSetup)]
        && bus.chip == SetRegister(old(bus.chip), RF_SETUP, rfSetup)
      ensures RateOf(Reg(bus.chip, RF_SETUP)) == if bitrate == 0 then Kbps250 else if bitrate == 1 then Mbps1 else Mbps2
    {
      var bits := BitrateBits(bitrate);
      var rfsetup := ReadByte(RF_SETUP, 0x00);
      rfsetup := (rfsetup & !(RF_DR_LOW | RF_DR_HIGH)) | bits;
      WriteByte(RF_SETUP, rfsetup);
    }

    /** Sets the retry count (low nibble of SETUP_RETR), keeping the retry delay (high nibble). */
    method SetAutoRetransmitCount(retryCount: byte)
      requires Valid()
      modifies bus
      ensures Valid() && bus.ce == old(bus.ce) && bus.isOpen == old(bus.isOpen)
      ensures var setupRetr := WithField(old(Reg(bus.chip, SETUP_RETR)), ARC, retryCount);
        && bus.trace == old(bus.trace) + [ReadEvent(SETUP_RETR, 0x00)] + [WriteEvent(SETUP_RETR, setupRetr)]
        && bus.chip == SetRegister(old(bus.chip), SETUP_RETR, setupRetr)
      ensures (Reg(bus.chip, SETUP_RETR) & ARC) as int == retryCount as int % 16
    {
      var setupretr := ReadByte(SETUP_RETR, 0x00);
      RetryUpdate(setupretr, retryCount);
      WriteByte(SETUP_RETR, (setupretr & ARD) | (retryCount & ARC));
    }

    // -------------------------------------------------------------------
    // Payloads
    // -------------------------------------------------------------------

    /**
     * Queues a payload (with or without a request for acknowledgement) and
     * raises CE to start sending. The caller's buffer is exchanged in place,
     * so it holds the bytes the chip shifted out afterwards.
     */
    method StartSendingPacket(data: array<byte>, size: byte, noACK: bool)
      requires Valid() && size as int <= data.Length
      modifies bus, data
      ensures Valid() && bus.ce && bus.isOpen == old(bus.isOpen)
      ensures var command := if noACK then W_TX_PAYLOAD_NO_ACK else W_TX_PAYLOAD;
        && bus.trace == old(bus.trace) + [Transaction(command, old(data[..size]))] + [ChipEnable(true)]
        && bus.chip == Execute(old(bus.chip), command, old(data[..size]))
        && data[..size] == Replies(old(bus.chip), command, 1, size as nat)
      ensures 1 <= size as nat <= MAX_PAYLOAD && |old(bus.chip.tx)| < FIFO_DEPTH ==>
        bus.chip.tx == old(bus.chip.tx) + [old(data[..size])]
      ensures data[size..] == old(data[size..])
    {
      var writeCommand := if noACK then W_TX_PAYLOAD_NO_ACK else W_TX_PAYLOAD;
      BlockTransaction(writeCommand, data, size);
      bus.WriteCEHigh();
    }

    /** Ends a send started by StartSendingPacket by dropping CE. */
    method ConcludeSendingPacket()
      requires Valid()
      modifies bus
      ensures Valid() && !bus.ce && bus.isOpen == old(bus.isOpen)
      ensures bus.trace == old(bus.trace) + [ChipEnable(false)] && bus.chip == old(bus.chip)
    {
      bus.WriteCELow();
    }

    /** The width of the payload at the head of the RX FIFO (0 when none is waiting). */
    method GetNextPacketSize() returns (packetSize: byte)
      requires Valid()
      modifies bus
      ensures Valid() && bus.ce == old(bus.ce) && bus.isOpen == old(bus.isOpen)
      ensures bus.trace == old(bus.trace) + [Transaction(R_RX_PL_WID, [0x00])] && bus.chip == old(bus.chip)
      ensures |bus.chip.rx| > 0 ==> packetSize as int == |bus.chip.rx[0]|
      ensures |bus.chip.rx| == 0 ==> packetSize == 0
    {
      var _, r := Exchange(R_RX_PL_WID, 0x00);
      packetSize := r;
    }

    /**
     * Reads `length` payload bytes, or the stored static width when `length`
     * is 0, into the caller's buffer, which the exchange overwrites in place.
     */
    method ReadData(dataOut: array<byte>, length: byte)
      requires Valid()
      requires (if length != 0 then length else receivedPacketLength) as int <= dataOut.Length
      modifies bus, dataOut
      ensures Valid() && bus.ce == old(bus.ce) && bus.isOpen == old(bus.isOpen)
      ensures var n := if length != 0 then length else receivedPacketLength;
        && bus.trace == old(bus.trace) + [Transaction(R_RX_PAYLOAD, old(dataOut[..n]))]
        && dataOut[..n] == Replies(old(bus.chip), R_RX_PAYLOAD, 1, n as nat)
        && dataOut[n..] == old(dataOut[n..])
        && (|old(bus.chip.rx)| > 0 && n as int <= |old(bus.chip.rx)[0]| ==> dataOut[..n] == old(bus.chip.rx)[0][..n])
      ensures bus.chip == old(bus.chip).(rx := if |old(bus.chip.rx)| > 0 then old(bus.chip.rx)[1..] else [])
    {
      var n := if length != 0 then length else receivedPacketLength;
      BlockTransaction(R_RX_PAYLOAD, dataOut, n);
      if |old(bus.chip.rx)| > 0 && n as int <= |old(bus.chip.rx)[0]| {
        PayloadReadReturnsHead(old(bus.chip), n as nat);
      }
    }

    /** Empties the RX FIFO. */
    method FlushRXFIFO()
      requires Valid()
      modifies bus
      ensures Valid() && bus.ce == old(bus.ce) && bus.isOpen == old(bus.isOpen)
      ensures bus.trace == old(bus.trace) + [Transaction(FLUSH_RX, [0x00])]
      ensures bus.chip == old(bus.chip).(rx := [])
    {
      var _, _ := Exchange(FLUSH_RX, 0x00);
    }

    // -------------------------------------------------------------------
    // Status
    // -------------------------------------------------------------------

    /** STATUS (shifted out with the command byte) in the high byte, CONFIG in the low byte. */
    method GetStatusAndConfigRegisters() returns (r: bv16)
      requires Valid()
      modifies bus
      ensures Valid() && bus.ce == old(bus.ce) && bus.isOpen == old(bus.isOpen)
      ensures bus.trace == old(bus.trace) + [ReadEvent(CONFIG, NOP)] && bus.chip == old(bus.chip)
      ensures (r >> 8) as byte == Status(bus.chip) && (r & 0xFF) as byte == Reg(bus.chip, CONFIG)
    {
      var status, config := Exchange(R_REGISTER | CONFIG, NOP);
      r := StatusAndConfig(status, config);
    }

    method GetFIFOStatus() returns (fifo: byte)
      requires Valid()
      modifies bus
      ensures Valid() && bus.ce == old(bus.ce) && bus.isOpen == old(bus.isOpen)
      ensures bus.trace == old(bus.trace) + [ReadEvent(FIFO_STATUS, NOP)] && bus.chip == old(bus.chip)
      ensures fifo == FifoStatus(bus.chip)
    {
      fifo := ReadByte(FIFO_STATUS, NOP);
    }

    /** Whether a payload is waiting in the RX FIFO, decided from FIFO_STATUS. */
    method DataInRXFIFO() returns (present: bool)
      requires Valid()
      modifies bus
      ensures Valid() && bus.ce == old(bus.ce) && bus.isOpen == old(bus.isOpen)
      ensures bus.trace == old(bus.trace) + [ReadEvent(FIFO_STATUS, NOP)] && bus.chip == old(bus.chip)
      ensures present <==> |bus.chip.rx| > 0
    {
      var fifo := ReadByte(FIFO_STATUS, NOP);
      present := (fifo & 0x02) > 0 || (fifo & 0x01) == 0;
      DataInRxFifoIffPending(bus.chip);
    }

    /**
     * Reads STATUS (with a lone NOP), writes the three interrupt bits back as
     * 1s to clear them, and latches the interrupt bits that were read.
     */
    method ReadAndClearInterruptBits()
      requires Valid()
      modifies this`lastInterruptBits, bus
      ensures Valid() && bus.ce == old(bus.ce) && bus.isOpen == old(bus.isOpen)
      ensures lastInterruptBits == Latch(Status(old(bus.chip)))
      ensures DidReceivePayload() <==> Status(old(bus.chip)) & RX_DR != 0
      ensures DidSendPayload() <==> Status(old(bus.chip)) & TX_DS != 0
      ensures DidHitMaxRetry() <==> Status(old(bus.chip)) & MAX_RT != 0
      ensures bus.trace == old(bus.trace) + [Transaction(NOP, [])] + [WriteEvent(STATUS, INTERRUPT_BITS)]
      ensures bus.chip == SetRegister(old(bus.chip), STATUS, Reg(old(bus.chip), STATUS) & !INTERRUPT_BITS)
      ensures Latch(Status(bus.chip)) == 0
    {
      var mask := RX_DR | TX_DS | MAX_RT;

      bus.BeginTransaction();
      var status := bus.TransferByte(NOP);
      bus.EndTransaction();

      var _, _ := Exchange(W_REGISTER | STATUS, mask);

      lastInterruptBits := mask & status;
      ClearedStatusLatchesNothing(old(bus.chip));
    }

    predicate DidReceivePayload()
      reads this
    {
      (lastInterruptBits & INTERRUPT_BIT_RX_DR) > 0
    }

    predicate DidSendPayload()
      reads this
    {
      (lastInterruptBits & INTERRUPT_BIT_TX_DS) > 0
    }

    predicate DidHitMaxRetry()
      reads this
    {
      (lastInterruptBits & INTERRUPT_BIT_MAX_RT) > 0
    }
  }
}
