/**
 * Client code driving the controller the way a sketch would: construct it
 * on a freshly powered chip, configure it and send, or take an interrupt and
 * read what arrived. Each scenario owns its bus and controller, so its
 * contract speaks only of what it returns: the exact bus traffic and the
 * answers the controller gave.
 */
module Scenarios {
  import opened Protocol
  import opened Chip
  import opened Bus
  import opened NRF24L01

  /**
   * A chip just after power-on reset: CONFIG holds its reset value (CRC
   * enabled, powered down, primary transmitter), the other registers the
   * model tracks read 0, no address is stored and both FIFOs are empty.
   */
  function ResetChip(): ChipState
  {
    ChipState(map[CONFIG as nat := EN_CRC], map[], [], [])
  }

  /** The traffic of the constructor: wait, open, read-and-clear the interrupts, flush RX. */
  function BringUp(): seq<Event>
  {
    [Delay(100)] + [Opened] + [Transaction(NOP, [])] + [WriteEvent(STATUS, INTERRUPT_BITS)] + [Transaction(FLUSH_RX, [0x00])]
  }

  /** A fresh buffer holding `s`, as a sketch would declare one. */
  method Buffer(s: seq<byte>) returns (a: array<byte>)
    ensures fresh(a) && a[..] == s
  {
    a := new byte[|s|](i requires 0 <= i < |s| => s[i]);
  }

  /**
   * Bring-up, power-up (asked for twice), primary-transmitter mode, a
   * five-byte address and one payload sent. The second power-up request
   * costs no traffic, the address lands in TX_ADDR and RX_ADDR_P0, and the
   * payload is the one entry of the TX FIFO.
   */
  method TransmitOnce(address: seq<byte>, payload: seq<byte>, size: byte)
    returns (trace: seq<Event>, txAddress: seq<byte>, rxAddress: seq<byte>, queued: seq<seq<byte>>, ceAfter: bool)
    requires |address| == ADDRESS_BYTES
    requires 1 <= |payload| <= MAX_PAYLOAD && size as int == |payload|
    ensures trace == BringUp() + ConfigureTraffic(address) + SendTraffic(payload)
    ensures txAddress == address && rxAddress == address
    ensures queued == [payload]
    ensures !ceAfter
  {
    var bus := new SimulatedBus(ResetChip());
    var radio := new Controller(bus);
    assert bus.trace == BringUp();
    assert Reg(bus.chip, CONFIG) == EN_CRC && bus.chip.tx == [];

    ConfigureTransmitter(radio, address);
    txAddress := Address(bus.chip, TX_ADDR);
    rxAddress := Address(bus.chip, RX_ADDR_P0);
    SendOne(radio, payload, size);

    trace := bus.trace;
    queued := bus.chip.tx;
    ceAfter := bus.ce;
  }

  /** The traffic of ConfigureTransmitter on a chip whose CONFIG holds its reset value. */
  function ConfigureTraffic(address: seq<byte>): seq<Event>
  {
    PowerUpTraffic()
    + [WriteEvent(SETUP_AW, 0x03)]
    + [Transaction(W_REGISTER | TX_ADDR, address)] + [Transaction(W_REGISTER | RX_ADDR_P0, address)]
  }

  /** The traffic of SendOne. */
  function SendTraffic(payload: seq<byte>): seq<Event>
  {
    [Transaction(W_TX_PAYLOAD, payload)] + [ChipEnable(true)] + [ChipEnable(false)]
  }

  /** Power up twice, become a primary transmitter, set a five-byte address. */
  method ConfigureTransmitter(radio: Controller, address: seq<byte>)
    requires radio.Valid() && !radio.poweredUp && Reg(radio.bus.chip, CONFIG) == EN_CRC
    requires |address| == ADDRESS_BYTES
    modifies radio, radio.bus
    ensures radio.Valid() && radio.mode == PTX
    ensures radio.bus.trace == old(radio.bus.trace) + ConfigureTraffic(address)
    ensures radio.bus.chip.tx == old(radio.bus.chip.tx)
    ensures Address(radio.bus.chip, TX_ADDR) == address && Address(radio.bus.chip, RX_ADDR_P0) == address
  {
    PowerUpAsTransmitter(radio);
    radio.SetAddress(address, 5);
    assert address[..5] == address;
  }

  /** The traffic of PowerUpAsTransmitter on a chip whose CONFIG holds its reset value. */
  function PowerUpTraffic(): seq<Event>
  {
    [ReadEvent(CONFIG, NOP)] + [WriteEvent(CONFIG, EN_CRC | PWR_UP)] + [Delay(2)]
    + [ReadEvent(CONFIG, NOP)] + [WriteEvent(CONFIG, EN_CRC | PWR_UP)]
  }

  /** Power up twice, then become a primary transmitter. */
  method PowerUpAsTransmitter(radio: Controller)
    requires radio.Valid() && !radio.poweredUp && Reg(radio.bus.chip, CONFIG) == EN_CRC
    modifies radio, radio.bus
    ensures radio.Valid() && radio.mode == PTX
    ensures radio.bus.trace == old(radio.bus.trace) + PowerUpTraffic()
    ensures radio.bus.chip.tx == old(radio.bus.chip.tx)
  {
    ghost var t := radio.bus.trace;
    radio.SetPoweredUp(true);
    t := t + [ReadEvent(CONFIG, NOP)] + [WriteEvent(CONFIG, EN_CRC | PWR_UP)] + [Delay(2)];
    assert radio.bus.trace == t && Reg(radio.bus.chip, CONFIG) == EN_CRC | PWR_UP;
    radio.SetPoweredUp(true);
    radio.SetPrimaryTransmitter();
  }

  /** Queue one payload with a request for acknowledgement, then conclude the send. */
  method SendOne(radio: Controller, payload: seq<byte>, size: byte)
    requires radio.Valid() && |radio.bus.chip.tx| < FIFO_DEPTH
    requires 1 <= |payload| <= MAX_PAYLOAD && size as int == |payload|
    modifies radio.bus
    ensures radio.Valid() && !radio.bus.ce
    ensures radio.bus.trace == old(radio.bus.trace) + SendTraffic(payload)
    ensures radio.bus.chip.tx == old(radio.bus.chip.tx) + [payload]
  {
    var data := Buffer(payload);
    assert data[..size] == payload;
    radio.StartSendingPacket(data, size, false);
    radio.ConcludeSendingPacket();
  }

  /**
   * One payload arrives while another is sent; the interrupt handler
   * reads-and-clears, finds the payload pending, asks its width and reads it.
   * A second read-and-clear with nothing new on the air latches nothing.
   */
  method InterruptCycle(sent: seq<byte>, incoming: seq<byte>)
    returns (first: (bool, bool, bool), pending: bool, width: byte, received: seq<byte>, second: (bool, bool, bool))
    requires 1 <= |sent| <= MAX_PAYLOAD && 1 <= |incoming| <= MAX_PAYLOAD
    ensures first == (true, true, false)
    ensures pending && width as int == |incoming| && received == incoming
    ensures second == (false, false, false)
  {
    var bus := new SimulatedBus(ChipState(map[], map[], [], [sent]));
    var radio := new Controller(bus);
    assert Reg(bus.chip, STATUS) & INTERRUPT_BITS == 0 && bus.chip.rx == [] && bus.chip.tx == [sent];

    bus.Air(PacketArrived(incoming));
    bus.Air(PacketSent);
    assert bus.chip.rx == [incoming];
    assert Reg(bus.chip, STATUS) & INTERRUPT_BITS == RX_DR | TX_DS;

    first := Interrupt(radio);
    pending, width, received := Receive(radio);
    second := Interrupt(radio);
  }

  /** The interrupt handler's first step: read-and-clear, then ask the three questions. */
  method Interrupt(radio: Controller) returns (flags: (bool, bool, bool))
    requires radio.Valid()
    modifies radio`lastInterruptBits, radio.bus
    ensures radio.Valid() && radio.bus.chip.rx == old(radio.bus.chip.rx)
    ensures Latch(Status(radio.bus.chip)) == 0
    ensures flags == (Status(old(radio.bus.chip)) & RX_DR != 0,
                      Status(old(radio.bus.chip)) & TX_DS != 0,
                      Status(old(radio.bus.chip)) & MAX_RT != 0)
  {
    radio.ReadAndClearInterruptBits();
    flags := (radio.DidReceivePayload(), radio.DidSendPayload(), radio.DidHitMaxRetry());
  }

  /** Checks the RX FIFO, asks the width of the waiting payload and reads exactly that many bytes. */
  method Receive(radio: Controller) returns (pending: bool, width: byte, received: seq<byte>)
    requires radio.Valid() && |radio.bus.chip.rx| > 0
    modifies radio.bus
    ensures radio.Valid() && Status(radio.bus.chip) & INTERRUPT_BITS == Status(old(radio.bus.chip)) & INTERRUPT_BITS
    ensures pending && width as int == |old(radio.bus.chip.rx)[0]| && received == old(radio.bus.chip.rx)[0]
  {
    pending := radio.DataInRXFIFO();
    width := radio.GetNextPacketSize();
    var buffer := new byte[MAX_PAYLOAD];
    radio.ReadData(buffer, width);
    received := buffer[..width];
    assert received == old(radio.bus.chip.rx)[0][..width];
  }
}
