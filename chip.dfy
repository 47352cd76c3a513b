/**
 * A simulated nRF24L01+ as seen from its SPI port: the register file, the
 * three five-byte address registers, and the RX and TX payload FIFOs
 * (three entries of 1 to 32 bytes each). The chip is a value; what one SPI
 * transaction does to it is the function Execute, and the byte it shifts
 * back at each position of a transaction is Reply.
 */
module Chip {
  import opened Protocol

  /** RX_ADDR_P1, the third five-byte address register (the driver never names it). */
  const RX_ADDR_P1: byte := 0x0B
  const ADDRESS_BYTES: nat := 5
  const MAX_PAYLOAD: nat := 32
  const FIFO_DEPTH: nat := 3

  datatype ChipState = ChipState(
    regs: map<nat, byte>,           // one-byte registers by address; an absent one reads as 0
    addrs: map<nat, seq<byte>>,     // five-byte address registers, least significant byte first
    rx: seq<seq<byte>>,             // RX FIFO, oldest payload first
    tx: seq<seq<byte>>)             // TX FIFO, oldest payload first

  /** FIFO bounds and payload sizes the chip itself maintains. */
  predicate Wellformed(c: ChipState)
  {
    && |c.rx| <= FIFO_DEPTH && |c.tx| <= FIFO_DEPTH
    && (forall i :: 0 <= i < |c.rx| ==> 1 <= |c.rx[i]| <= MAX_PAYLOAD)
    && (forall i :: 0 <= i < |c.tx| ==> 1 <= |c.tx[i]| <= MAX_PAYLOAD)
  }

  function Reg(c: ChipState, a: byte): byte
  {
    if a as nat in c.regs then c.regs[a as nat] else 0
  }

  function SetRegister(c: ChipState, a: byte, v: byte): ChipState
  {
    c.(regs := c.regs[a as nat := v])
  }

  /** Two chips storing the same address bytes report the same addresses. */
  lemma SameAddresses(c: ChipState, d: ChipState)
    requires c.addrs == d.addrs
    ensures forall a :: Address(c, a) == Address(d, a)
  {
  }

  predicate IsAddressRegister(a: byte)
  {
    a == RX_ADDR_P0 || a == RX_ADDR_P1 || a == TX_ADDR
  }

  /** The five bytes of an address register; bytes never written read as 0. */
  function Address(c: ChipState, a: byte): (r: seq<byte>)
    ensures |r| == ADDRESS_BYTES
  {
    var stored := if a as nat in c.addrs then c.addrs[a as nat] else [];
    seq(ADDRESS_BYTES, i requires 0 <= i < ADDRESS_BYTES => if i < |stored| then stored[i] else 0)
  }

  /** An address register after a write of `data`: the written bytes replace its low bytes. */
  function Overlay(current: seq<byte>, data: seq<byte>): (r: seq<byte>)
    requires |current| == ADDRESS_BYTES
    ensures |r| == ADDRESS_BYTES
    ensures |data| <= ADDRESS_BYTES ==> r[..|data|] == data && r[|data|..] == current[|data|..]
  {
    seq(ADDRESS_BYTES, i requires 0 <= i < ADDRESS_BYTES => if i < |data| then data[i] else current[i])
  }

  /**
   * STATUS as the chip presents it: the latched interrupt bits, RX_P_NO
   * (0b111 when the RX FIFO is empty, pipe 0 otherwise) and TX_FULL.
   */
  function Status(c: ChipState): byte
  {
    (Reg(c, STATUS) & INTERRUPT_BITS)
    | (if |c.rx| == 0 then RX_P_NO else 0)
    | (if |c.tx| >= FIFO_DEPTH then TX_FULL_STATUS else 0)
  }

  /** FIFO_STATUS, derived from the two FIFOs. */
  function FifoStatus(c: ChipState): byte
  {
    (if |c.tx| >= FIFO_DEPTH then TX_FULL_FIFO_STATUS else 0)
    | (if |c.tx| == 0 then TX_EMPTY else 0)
    | (if |c.rx| >= FIFO_DEPTH then RX_FULL else 0)
    | (if |c.rx| == 0 then RX_EMPTY else 0)
  }

  /** The value R_REGISTER returns for a one-byte register. */
  function ReadRegister(c: ChipState, a: byte): byte
  {
    if a == STATUS then Status(c)
    else if a == FIFO_STATUS then FifoStatus(c)
    else Reg(c, a)
  }

  /** The width of the payload at the head of the RX FIFO, 0 when it is empty. */
  function HeadWidth(c: ChipState): byte
  {
    if |c.rx| > 0 && |c.rx[0]| < 256 then |c.rx[0]| as byte else 0
  }

  /**
   * The byte the chip shifts out at position `p` (p >= 1) of a transaction
   * whose command byte is `command`.
   */
  function ReplyAt(c: ChipState, command: byte, p: nat): byte
  {
    if p == 0 then Status(c)
    else if command & REGISTER_OPCODE == R_REGISTER then
      var a := command & REGISTER_ADDRESS;
      if IsAddressRegister(a) then (if p <= ADDRESS_BYTES then Address(c, a)[p - 1] else 0)
      else if p == 1 then ReadRegister(c, a)
      else 0
    else if command == R_RX_PAYLOAD then
      if |c.rx| > 0 && p <= |c.rx[0]| then c.rx[0][p - 1] else 0
    else if command == R_RX_PL_WID then
      if p == 1 then HeadWidth(c) else 0
    else 0
  }

  /** The byte returned for the next byte of a transaction of which `sent` has been shifted in. */
  function Reply(c: ChipState, sent: seq<byte>): byte
  {
    if sent == [] then Status(c) else ReplyAt(c, sent[0], |sent|)
  }

  /** The `n` bytes returned at positions `from`, `from + 1`, ... of a transaction. */
  function Replies(c: ChipState, command: byte, from: nat, n: nat): (r: seq<byte>)
    ensures |r| == n
  {
    seq(n, k requires 0 <= k < n => ReplyAt(c, command, from + k))
  }

  /**
   * What a completed transaction (command byte, then data bytes) does to the
   * chip. A write to STATUS clears the interrupt bits written as 1;
   * FIFO_STATUS is read-only; reading a payload removes it from the RX FIFO.
   */
  function Execute(c: ChipState, command: byte, data: seq<byte>): ChipState
  {
    if command & REGISTER_OPCODE == W_REGISTER then
      var a := command & REGISTER_ADDRESS;
      if |data| == 0 then c
      else if IsAddressRegister(a) then c.(addrs := c.addrs[a as nat := Overlay(Address(c, a), data)])
      else if a == STATUS then SetRegister(c, STATUS, Reg(c, STATUS) & !(data[0] & INTERRUPT_BITS))
      else if a == FIFO_STATUS then c
      else SetRegister(c, a, data[0])
    else if command == R_RX_PAYLOAD then
      if |c.rx| > 0 then c.(rx := c.rx[1..]) else c
    else if command == W_TX_PAYLOAD || command == W_TX_PAYLOAD_NO_ACK then
      if 1 <= |data| <= MAX_PAYLOAD && |c.tx| < FIFO_DEPTH then c.(tx := c.tx + [data]) else c
    else if command == FLUSH_TX then c.(tx := [])
    else if command == FLUSH_RX then c.(rx := [])
    else c
  }

  /** Events on the air side of the chip, which raise its interrupt bits. */
  datatype RadioEvent =
    | PacketArrived(payload: seq<byte>)   // a payload was received on pipe 0
    | PacketSent                          // the oldest TX payload was sent (and acknowledged)
    | RetransmitsExhausted                // the retry budget ran out

  function Deliver(c: ChipState, e: RadioEvent): ChipState
  {
    match e
    case PacketArrived(p) =>
      if 1 <= |p| <= MAX_PAYLOAD && |c.rx| < FIFO_DEPTH
      then SetRegister(c.(rx := c.rx + [p]), STATUS, Reg(c, STATUS) | RX_DR)
      else c
    case PacketSent =>
      if |c.tx| > 0 then SetRegister(c.(tx := c.tx[1..]), STATUS, Reg(c, STATUS) | TX_DS) else c
    case RetransmitsExhausted =>
      SetRegister(c, STATUS, Reg(c, STATUS) | MAX_RT)
  }

  // ---------------------------------------------------------------------
  // Properties of the chip model
  // ---------------------------------------------------------------------

  lemma ExecutePreservesWellformed(c: ChipState, command: byte, data: seq<byte>)
    requires Wellformed(c)
    ensures Wellformed(Execute(c, command, data))
  {
  }

  lemma DeliverPreservesWellformed(c: ChipState, e: RadioEvent)
    requires Wellformed(c)
    ensures Wellformed(Deliver(c, e))
  {
  }

  /** The FIFO_STATUS test the driver uses holds exactly when a payload is waiting. */
  lemma DataInRxFifoIffPending(c: ChipState)
    ensures DataInRxFifo(FifoStatus(c)) <==> |c.rx| > 0
  {
  }

  /**
   * After the interrupt bits are written back as 1s, STATUS latches nothing:
   * a second read-and-clear with no radio event in between finds no interrupt.
   */
  lemma ClearedStatusLatchesNothing(c: ChipState)
    ensures Latch(Status(Execute(c, W_REGISTER | STATUS, [INTERRUPT_BITS]))) == 0
  {
    var after := Execute(c, W_REGISTER | STATUS, [INTERRUPT_BITS]);
    assert (W_REGISTER | STATUS) & REGISTER_ADDRESS == STATUS;
    assert after == SetRegister(c, STATUS, Reg(c, STATUS) & !INTERRUPT_BITS);
    assert Reg(after, STATUS) & INTERRUPT_BITS == 0;
    assert Status(after) & INTERRUPT_BITS == 0;
  }

  /** A one-byte register that is written and then read gives back the value written. */
  lemma WriteThenRead(c: ChipState, a: byte, v: byte)
    requires a <= REGISTER_ADDRESS && !IsAddressRegister(a) && a != STATUS && a != FIFO_STATUS
    ensures ReplyAt(Execute(c, W_REGISTER | a, [v]), R_REGISTER | a, 1) == v
  {
    assert (W_REGISTER | a) & REGISTER_OPCODE == W_REGISTER && (W_REGISTER | a) & REGISTER_ADDRESS == a;
    assert (R_REGISTER | a) & REGISTER_OPCODE == R_REGISTER && (R_REGISTER | a) & REGISTER_ADDRESS == a;
  }

  /** An address register written with up to five bytes reads back those bytes first. */
  lemma AddressWriteThenRead(c: ChipState, a: byte, data: seq<byte>)
    requires IsAddressRegister(a) && 1 <= |data| <= ADDRESS_BYTES
    ensures Replies(Execute(c, W_REGISTER | a, data), R_REGISTER | a, 1, |data|) == data
  {
    assert (W_REGISTER | a) & REGISTER_OPCODE == W_REGISTER && (W_REGISTER | a) & REGISTER_ADDRESS == a;
    assert (R_REGISTER | a) & REGISTER_OPCODE == R_REGISTER && (R_REGISTER | a) & REGISTER_ADDRESS == a;
  }

  /** Reading a whole payload returns exactly the oldest payload in the RX FIFO. */
  lemma PayloadReadReturnsHead(c: ChipState, n: nat)
    requires |c.rx| > 0 && n <= |c.rx[0]|
    ensures Replies(c, R_RX_PAYLOAD, 1, n) == c.rx[0][..n]
  {
  }

  /** The width command reports the true width of a waiting payload. */
  lemma WidthReportsHead(c: ChipState)
    requires Wellformed(c) && |c.rx| > 0
    ensures ReplyAt(c, R_RX_PL_WID, 1) as int == |c.rx[0]|
  {
  }
}
