/**
 * The wire-level vocabulary of the nRF24L01+ radio as the driver uses it:
 * SPI command bytes (section 8.3.1 of the nRF24L01+ Product Specification
 * v1.0), register addresses (section 9.1) and register bit masks, together
 * with the pure encodings the controller applies before it writes a byte.
 */
module Protocol {

  type byte = bv8

  // ---------------------------------------------------------------------
  // SPI command bytes
  // ---------------------------------------------------------------------

  const R_REGISTER: byte := 0x00            // 000A AAAA
  const W_REGISTER: byte := 0x20            // 001A AAAA
  const R_RX_PAYLOAD: byte := 0x61
  const W_TX_PAYLOAD: byte := 0xA0
  const FLUSH_TX: byte := 0xE1
  const FLUSH_RX: byte := 0xE2
  const REUSE_TX_PL: byte := 0xE3
  const R_RX_PL_WID: byte := 0x60
  const W_ACK_PAYLOAD: byte := 0xA8
  const W_TX_PAYLOAD_NO_ACK: byte := 0xB0
  const NOP: byte := 0xFF

  /** The five address bits of R_REGISTER and W_REGISTER. */
  const REGISTER_ADDRESS: byte := 0x1F
  /** The three opcode bits that distinguish R_REGISTER and W_REGISTER. */
  const REGISTER_OPCODE: byte := 0xE0

  // ---------------------------------------------------------------------
  // Register map (the registers the driver names)
  // ---------------------------------------------------------------------

  const CONFIG: byte := 0x00
  const EN_AA: byte := 0x01
  const SETUP_AW: byte := 0x03
  const SETUP_RETR: byte := 0x04
  const REGISTER_RF_CH: byte := 0x05
  const RF_SETUP: byte := 0x06
  const STATUS: byte := 0x07
  const OBSERVE_TX: byte := 0x08
  const RX_ADDR_P0: byte := 0x0A
  const TX_ADDR: byte := 0x10
  const RX_PW_P0: byte := 0x11
  const FIFO_STATUS: byte := 0x17
  const DYNPD: byte := 0x1C
  const FEATURE: byte := 0x1D

  // ---------------------------------------------------------------------
  // Bit masks, grouped by register
  // ---------------------------------------------------------------------

  // CONFIG
  const MASK_RX_DR: byte := 0x40
  const MASK_TX_DS: byte := 0x20
  const MASK_MAX_RT: byte := 0x10
  const EN_CRC: byte := 0x08
  const CRCO: byte := 0x04
  const PWR_UP: byte := 0x02
  const PRIM_RX: byte := 0x01          // 1: primary receiver, 0: primary transmitter

  // EN_AA
  const BITS_EN_AA: byte := 0x3F

  // SETUP_AW
  const AW: byte := 0x03

  // SETUP_RETR
  const ARD: byte := 0xF0
  const ARC: byte := 0x0F

  // RF_CH
  const BITS_RF_CH: byte := 0x7F

  // RF_SETUP
  const CONT_WAVE: byte := 0x80
  const RF_DR_LOW: byte := 0x20
  const PLL_LOCK: byte := 0x10
  const RF_DR_HIGH: byte := 0x08
  const RF_PWR: byte := 0x0E

  // STATUS
  const RX_DR: byte := 0x40
  const TX_DS: byte := 0x20
  const MAX_RT: byte := 0x10
  const RX_P_NO: byte := 0x0E
  const TX_FULL_STATUS: byte := 0x01

  // OBSERVE_TX
  const PLOS_CNT: byte := 0xF0
  const ARC_CNT: byte := 0x0F

  // FIFO_STATUS
  const TX_REUSE: byte := 0x40
  const TX_FULL_FIFO_STATUS: byte := 0x20
  const TX_EMPTY: byte := 0x10
  const RX_FULL: byte := 0x02
  const RX_EMPTY: byte := 0x01

  // DYNPD
  const DPL_P: byte := 0x3F

  // FEATURE
  const EN_DPL: byte := 0x04
  const EN_ACK_PAY: byte := 0x02
  const EN_DYN_ACK: byte := 0x01

  /** The three interrupt sources of STATUS; writing 1 to them clears them. */
  const INTERRUPT_BITS: byte := RX_DR | TX_DS | MAX_RT

  const INTERRUPT_BIT_RX_DR: byte := 0x40
  const INTERRUPT_BIT_TX_DS: byte := 0x20
  const INTERRUPT_BIT_MAX_RT: byte := 0x10

  // ---------------------------------------------------------------------
  // Read-modify-write of bit fields
  // ---------------------------------------------------------------------

  /** `v` with the bits of `field` replaced by those of `bits` and every other bit kept. */
  function WithField(v: byte, field: byte, bits: byte): (r: byte)
    ensures r & !field == v & !field
    ensures r & field == bits & field
  {
    (v & !field) | (bits & field)
  }

  /** `v` with every bit of `mask` set when `on` holds and cleared otherwise, the rest kept. */
  function WithBits(v: byte, mask: byte, on: bool): (r: byte)
    ensures r & !mask == v & !mask
    ensures on ==> r & mask == mask
    ensures !on ==> r & mask == 0
  {
    WithField(v, mask, if on then mask else 0)
  }

  // ---------------------------------------------------------------------
  // Input clamping
  // ---------------------------------------------------------------------

  /** The RF channel actually written: the input's low seven bits. */
  function ChannelMask(channel: byte): (r: byte)
    ensures r as int == channel as int % 128
    ensures r <= 127
    ensures channel <= 127 ==> r == channel
  {
    channel & BITS_RF_CH
  }

  /** The static payload width actually stored and written: the input's low six bits. */
  function PacketLengthMask(numberBytes: byte): (r: byte)
    ensures r as int == numberBytes as int % 64
    ensures r <= 63
    ensures numberBytes <= 63 ==> r == numberBytes
  {
    numberBytes & 0x3F
  }

  // ---------------------------------------------------------------------
  // Address width (SETUP_AW)
  // ---------------------------------------------------------------------

  /** The address width, in bytes, that a SETUP_AW code selects (code 0b00 is illegal). */
  function AddressWidth(code: byte): nat
  {
    match code & AW
    case 1 => 3
    case 2 => 4
    case 3 => 5
    case _ => 0
  }

  /**
   * The SETUP_AW code written for an address of `addressSize` bytes: three and
   * four bytes get their own codes, every other size falls back to five bytes.
   */
  function AddressWidthCode(addressSize: byte): (code: byte)
    ensures code & !AW == 0 && code != 0
    ensures AddressWidth(code) == if addressSize == 3 || addressSize == 4 then addressSize as nat else 5
  {
    match addressSize
    case 3 => 0x01
    case 4 => 0x02
    case _ => 0x03
  }

  // ---------------------------------------------------------------------
  // Air data rate (RF_SETUP bits RF_DR_LOW and RF_DR_HIGH)
  // ---------------------------------------------------------------------

  datatype DataRate = Kbps250 | Mbps1 | Mbps2

  /** The data rate the chip runs at for given RF_SETUP contents (RF_DR_LOW wins). */
  function RateOf(rfSetup: byte): DataRate
  {
    if rfSetup & RF_DR_LOW != 0 then Kbps250
    else if rfSetup & RF_DR_HIGH != 0 then Mbps2
    else Mbps1
  }

  /**
   * The RF_DR bits for a requested bitrate: 0 selects 250 kbps, 1 selects
   * 1 Mbps and any other value 2 Mbps; at most one of the two bits is set.
   */
  function BitrateBits(bitrate: byte): (bits: byte)
    ensures bits & !(RF_DR_LOW | RF_DR_HIGH) == 0
    ensures bits != RF_DR_LOW | RF_DR_HIGH
    ensures RateOf(bits) == if bitrate == 0 then Kbps250 else if bitrate == 1 then Mbps1 else Mbps2
  {
    match bitrate
    case 0 => RF_DR_LOW
    case 1 => 0
    case _ => RF_DR_HIGH
  }

  // ---------------------------------------------------------------------
  // Interrupt snapshot and register packing
  // ---------------------------------------------------------------------

  /** The snapshot latched from a STATUS byte: the three interrupt bits and nothing else. */
  function Latch(status: byte): (bits: byte)
    ensures bits & !INTERRUPT_BITS == 0
    ensures bits == (if status & RX_DR != 0 then INTERRUPT_BIT_RX_DR else 0)
                  | (if status & TX_DS != 0 then INTERRUPT_BIT_TX_DS else 0)
                  | (if status & MAX_RT != 0 then INTERRUPT_BIT_MAX_RT else 0)
  {
    INTERRUPT_BITS & status
  }

  /** STATUS in the high byte and CONFIG in the low byte of one 16-bit value. */
  function StatusAndConfig(status: byte, config: byte): (r: bv16)
    ensures (r >> 8) as byte == status
    ensures (r & 0xFF) as byte == config
  {
    ((status as bv16) << 8) | (config as bv16)
  }

  /**
   * Whether a FIFO_STATUS byte reports received data: RX_FULL set or RX_EMPTY
   * clear. In C++ the comparisons bind tighter than `|`, so the source's
   * expression is the disjunction of the two tests.
   */
  predicate DataInRxFifo(fifo: byte)
  {
    (fifo & RX_FULL) > 0 || (fifo & RX_EMPTY) == 0
  }
}
