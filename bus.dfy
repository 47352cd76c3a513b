/**
 * The bus adapter the controller drives, in the shape of the abstract
 * interface NRF24L01Interface: open/close, a begin/end transaction bracket,
 * full-duplex byte and block transfers, the CE line and delays. Here it is
 * a simulation: it owns a simulated chip and records every bus event in a
 * trace, and its invariant is that the chip is exactly the replay of that
 * trace on the chip it started with.
 */
module Bus {
  import opened Protocol
  import opened Chip

  datatype Event =
    | Opened
    | Closed
    | Transaction(command: byte, data: seq<byte>)   // bytes shifted in between a begin and an end
    | ChipEnable(high: bool)
    | Delay(ms: nat)
    | DelayMicroseconds(us: nat)
    | Radio(event: RadioEvent)                       // something happened on the air side

  /** What one recorded event does to the chip. */
  function Step(c: ChipState, e: Event): ChipState
  {
    match e
    case Transaction(command, data) => Execute(c, command, data)
    case Radio(r) => Deliver(c, r)
    case _ => c
  }

  /** The chip after every event of `t`, in order, starting from `c`. */
  function Replay(c: ChipState, t: seq<Event>): ChipState
    decreases |t|
  {
    if t == [] then c else Step(Replay(c, t[..|t| - 1]), t[|t| - 1])
  }

  /** A transaction that reads one-byte register `a`, clocking out `dummy`. */
  function ReadEvent(a: byte, dummy: byte): Event
  {
    Transaction(R_REGISTER | a, [dummy])
  }

  /** A transaction that writes `v` to one-byte register `a`. */
  function WriteEvent(a: byte, v: byte): Event
  {
    Transaction(W_REGISTER | a, [v])
  }

  /** Whether event `e` is a W_REGISTER transaction addressed to register `a`. */
  predicate WritesRegister(e: Event, a: byte)
  {
    e.Transaction? && e.command & REGISTER_OPCODE == W_REGISTER && e.command & REGISTER_ADDRESS == a
  }

  lemma ReplaySnoc(c: ChipState, t: seq<Event>, e: Event)
    ensures Replay(c, t + [e]) == Step(Replay(c, t), e)
  {
    assert (t + [e])[..|t|] == t;
  }

  /** No event breaks the chip's own FIFO and payload bounds. */
  lemma StepPreservesWellformed(c: ChipState, e: Event)
    requires Wellformed(c)
    ensures Wellformed(Step(c, e))
  {
    match e {
      case Transaction(command, data) => ExecutePreservesWellformed(c, command, data);
      case Radio(r) => DeliverPreservesWellformed(c, r);
      case _ =>
    }
  }

  /** Appending an event and stepping the chip keeps the chip the well-formed replay of the trace. */
  lemma RecordKeepsReplay(start: ChipState, t: seq<Event>, c: ChipState, e: Event)
    requires Wellformed(c) && c == Replay(start, t)
    ensures Wellformed(Step(c, e)) && Step(c, e) == Replay(start, t + [e])
  {
    ReplaySnoc(start, t, e);
    StepPreservesWellformed(c, e);
  }

  /** Replaying two pieces of traffic one after the other is replaying their concatenation. */
  lemma {:induction false} ReplayAppend(c: ChipState, t1: seq<Event>, t2: seq<Event>)
    ensures Replay(c, t1 + t2) == Replay(Replay(c, t1), t2)
    decreases |t2|
  {
    if t2 == [] {
      assert t1 + t2 == t1;
    } else {
      var front, last := t2[..|t2| - 1], t2[|t2| - 1];
      assert t2 == front + [last];
      assert t1 + t2 == (t1 + front) + [last];
      ReplaySnoc(c, t1 + front, last);
      ReplayAppend(c, t1, front);
      ReplaySnoc(Replay(c, t1), front, last);
    }
  }

  /**
   * If a chip is the replay of `t` and a later chip the replay of `t` plus
   * `traffic`, the later chip is the earlier one with `traffic` replayed.
   */
  lemma ReplayExtends(start: ChipState, t: seq<Event>, traffic: seq<Event>, before: ChipState, after: ChipState)
    requires before == Replay(start, t) && after == Replay(start, t + traffic)
    ensures after == Replay(before, traffic)
  {
    ReplayAppend(start, t, traffic);
  }

  /**
   * A one-byte register other than STATUS that no transaction of `t` writes
   * keeps its value: traffic touches only the registers it addresses.
   */
  lemma {:induction false} UnwrittenRegisterKept(c: ChipState, t: seq<Event>, a: byte)
    requires a != STATUS
    requires forall i :: 0 <= i < |t| ==> !WritesRegister(t[i], a)
    ensures Reg(Replay(c, t), a) == Reg(c, a)
    decreases |t|
  {
    if t != [] {
      var front, last := t[..|t| - 1], t[|t| - 1];
      UnwrittenRegisterKept(c, front, a);
      assert !WritesRegister(last, a);
      StepKeepsUnwritten(Replay(c, front), last, a);
    }
  }

  /** One event that does not write register `a` (other than STATUS) leaves it alone. */
  lemma StepKeepsUnwritten(c: ChipState, e: Event, a: byte)
    requires a != STATUS && !WritesRegister(e, a)
    ensures Reg(Step(c, e), a) == Reg(c, a)
  {
  }

  class SimulatedBus {
    /** The chip as it was when the bus was created. */
    ghost const initial: ChipState
    var chip: ChipState
    var isOpen: bool
    var inTransaction: bool
    /** The bytes shifted in since the current transaction began. */
    var pending: seq<byte>
    /** The level of the CE line. */
    var ce: bool
    var trace: seq<Event>

    ghost predicate Valid()
      reads this
    {
      && Wellformed(chip)
      && chip == Replay(initial, trace)
      && (!inTransaction ==> pending == [])
    }

    constructor (start: ChipState)
      requires Wellformed(start)
      ensures Valid() && initial == start && chip == start
      ensures !isOpen && !inTransaction && !ce && trace == []
    {
      initial := start;
      chip := start;
      isOpen := false;
      inTransaction := false;
      pending := [];
      ce := false;
      trace := [];
    }

    /** Appends `e` to the trace and applies it to the chip. */
    method Record(e: Event)
      requires Valid()
      modifies this`chip, this`trace
      ensures Valid()
      ensures trace == old(trace) + [e] && chip == Step(old(chip), e)
    {
      RecordKeepsReplay(initial, trace, chip, e);
      trace := trace + [e];
      chip := Step(chip, e);
    }

    method Open()
      requires Valid() && !inTransaction
      modifies this`isOpen, this`chip, this`trace
      ensures Valid() && isOpen
      ensures trace == old(trace) + [Opened] && chip == old(chip)
    {
      Record(Opened);
      isOpen := true;
    }

    method Close()
      requires Valid() && !inTransaction
      modifies this`isOpen, this`chip, this`trace
      ensures Valid() && !isOpen
      ensures trace == old(trace) + [Closed] && chip == old(chip)
    {
      Record(Closed);
      isOpen := false;
    }

    /** Selects the chip; transactions do not nest. */
    method BeginTransaction()
      requires Valid() && !inTransaction
      modifies this`inTransaction
      ensures Valid() && inTransaction && pending == []
    {
      inTransaction := true;
    }

    /** Deselects the chip, which then carries out the command shifted in. */
    method EndTransaction()
      requires Valid() && inTransaction && pending != []
      modifies this`inTransaction, this`pending, this`chip, this`trace
      ensures Valid() && !inTransaction
      ensures trace == old(trace) + [Transaction(old(pending)[0], old(pending)[1..])]
      ensures chip == Execute(old(chip), old(pending)[0], old(pending)[1..])
    {
      Record(Transaction(pending[0], pending[1..]));
      pending := [];
      inTransaction := false;
    }

    /** Shifts `b` in and returns the byte the chip shifts out at the same time. */
    method TransferByte(b: byte) returns (r: byte)
      requires Valid() && inTransaction
      modifies this`pending
      ensures Valid()
      ensures pending == old(pending) + [b]
      ensures r == Reply(chip, old(pending))
    {
      r := Reply(chip, pending);
      pending := pending + [b];
    }

    /**
     * Full-duplex block transfer in place: shifts in the first `size` bytes of
     * `buf` and overwrites each with the byte the chip shifted out.
     */
    method TransferBytes(buf: array<byte>, size: byte)
      requires Valid() && inTransaction && pending != []
      requires size as int <= buf.Length
      modifies this`pending, buf
      ensures Valid()
      ensures pending == old(pending) + old(buf[..size])
      ensures buf[..size] == Replies(chip, pending[0], |old(pending)|, size as nat)
      ensures buf[size..] == old(buf[size..])
    {
      ShiftBlock(buf, size as nat);
    }

    /** The exchange loop of TransferBytes, counting in `nat`. */
    method ShiftBlock(buf: array<byte>, n: nat)
      requires Valid() && inTransaction && pending != []
      requires n <= buf.Length
      modifies this`pending, buf
      ensures Valid()
      ensures pending == old(pending) + old(buf[..n])
      ensures buf[..n] == Replies(chip, pending[0], |old(pending)|, n)
      ensures buf[n..] == old(buf[n..])
    {
      ghost var command, start, original := pending[0], |pending|, buf[..];
      var i := 0;
      while i < n
        invariant 0 <= i <= n
        invariant Valid() && inTransaction
        invariant pending == old(pending) + original[..i] && pending[0] == command
        invariant forall k :: 0 <= k < i ==> buf[k] == ReplyAt(chip, command, start + k)
        invariant forall k :: i <= k < buf.Length ==> buf[k] == original[k]
      {
        var r := Reply(chip, pending);
        pending := pending + [buf[i]];
        buf[i] := r;
        assert original[..i + 1] == original[..i] + [original[i]];
        i := i + 1;
      }
      assert buf[..n] == Replies(chip, command, start, n);
      assert buf[n..] == original[n..];
    }

    method WriteCEHigh()
      requires Valid() && !inTransaction
      modifies this`ce, this`chip, this`trace
      ensures Valid() && ce
      ensures trace == old(trace) + [ChipEnable(true)] && chip == old(chip)
    {
      Record(ChipEnable(true));
      ce := true;
    }

    method WriteCELow()
      requires Valid() && !inTransaction
      modifies this`ce, this`chip, this`trace
      ensures Valid() && !ce
      ensures trace == old(trace) + [ChipEnable(false)] && chip == old(chip)
    {
      Record(ChipEnable(false));
      ce := false;
    }

    method Delay(ms: nat)
      requires Valid() && !inTransaction
      modifies this`chip, this`trace
      ensures Valid()
      ensures trace == old(trace) + [Event.Delay(ms)] && chip == old(chip)
    {
      Record(Event.Delay(ms));
    }

    method DelayMicroseconds(us: nat)
      requires Valid() && !inTransaction
      modifies this`chip, this`trace
      ensures Valid()
      ensures trace == old(trace) + [Event.DelayMicroseconds(us)] && chip == old(chip)
    {
      Record(Event.DelayMicroseconds(us));
    }

    /** The air side of the simulation: a radio event reaches the chip between transactions. */
    method Air(e: RadioEvent)
      requires Valid() && !inTransaction
      modifies this`chip, this`trace
      ensures Valid()
      ensures trace == old(trace) + [Radio(e)] && chip == Deliver(old(chip), e)
    {
      Record(Radio(e));
    }
  }
}
