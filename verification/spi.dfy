/**
 * The SPI link the MMC driver talks through, reduced to what the driver can
 * observe: the bytes the card clocks back when the driver reads, and the
 * sequence of bus operations the driver issues.
 *
 * The SPI peripheral driver (`spiStart`, `spiSelect`, `spiSend`, `spiReceive`,
 * `spiIgnore`, `spiStop`) is not part of this model. A `Link` stands for it:
 * `input` is everything the card will return, `pos` is how much of it the
 * driver has consumed, and `log` records every operation that changes the
 * bus. A card that has stopped driving the data-out line leaves it pulled
 * high, so reading past the end of `input` yields 0xFF.
 */
module Spi {

  /** The two clock configurations the driver switches between. */
  datatype Speed = LowSpeed | HighSpeed

  /** What the driver does to the bus. `Ignore(n)` clocks n bytes and drops
      what comes back; plain reads are not logged, they advance the cursor. */
  datatype BusEvent =
    | Start(speed: Speed)
    | Stop
    | Select
    | Unselect
    | Send(data: seq<bv8>)
    | Ignore(count: nat)

  /** The observable state of the link: the read cursor and the operation log. */
  datatype Wire = Wire(pos: nat, log: seq<BusEvent>)

  /** The byte the card returns at position k of the stream. */
  function Peek(input: seq<bv8>, k: nat): bv8
  {
    if k < |input| then input[k] else 0xFF
  }

  /** The n bytes returned from position p on. */
  function Window(input: seq<bv8>, p: nat, n: nat): (r: seq<bv8>)
    ensures |r| == n
    ensures forall k :: 0 <= k < n ==> r[k] == Peek(input, p + k)
  {
    seq(n, k requires 0 <= k < n => Peek(input, p + k))
  }

  /** Records one bus operation. */
  function Emit(w: Wire, e: BusEvent): Wire
  {
    w.(log := w.log + [e])
  }

  /** Consumes n bytes of input. */
  function Advance(w: Wire, n: nat): Wire
  {
    w.(pos := w.pos + n)
  }

  class Link {
    const input: seq<bv8>
    var pos: nat
    var log: seq<BusEvent>

    constructor (input: seq<bv8>)
      ensures this.input == input && pos == 0 && log == []
    {
      this.input := input;
      pos := 0;
      log := [];
    }

    function State(): Wire
      reads this
    {
      Wire(pos, log)
    }

    /** `spiStart`: (re)configures the peripheral. */
    method Start(speed: Speed)
      modifies this
      ensures State() == Emit(old(State()), BusEvent.Start(speed))
    {
      log := log + [BusEvent.Start(speed)];
    }

    /** `spiStop`. */
    method Stop()
      modifies this
      ensures State() == Emit(old(State()), BusEvent.Stop)
    {
      log := log + [BusEvent.Stop];
    }

    /** `spiSelect`: asserts the card's chip select. */
    method Select()
      modifies this
      ensures State() == Emit(old(State()), BusEvent.Select)
    {
      log := log + [BusEvent.Select];
    }

    /** `spiUnselect`. */
    method Unselect()
      modifies this
      ensures State() == Emit(old(State()), BusEvent.Unselect)
    {
      log := log + [BusEvent.Unselect];
    }

    /** `spiSend`: clocks `data` out; what comes back is dropped. */
    method Send(data: seq<bv8>)
      modifies this
      ensures State() == Emit(old(State()), BusEvent.Send(data))
    {
      log := log + [BusEvent.Send(data)];
    }

    /** `spiIgnore`: clocks n idle bytes and drops the n bytes that come back. */
    method Ignore(n: nat)
      modifies this
      ensures State() == Emit(Advance(old(State()), n), BusEvent.Ignore(n))
    {
      pos := pos + n;
      log := log + [BusEvent.Ignore(n)];
    }

    /** `spiReceive` into a fresh buffer: the next n bytes of the stream. */
    method Receive(n: nat) returns (r: seq<bv8>)
      modifies this
      ensures r == Window(input, old(pos), n)
      ensures State() == Advance(old(State()), n)
    {
      r := Window(input, pos, n);
      pos := pos + n;
    }

    /** `spiReceive` into `buf` at offset `off`: the next n bytes of the stream
        land in `buf[off..off + n]` and nothing else in `buf` changes. */
    method ReceiveInto(buf: array<bv8>, off: nat, n: nat)
      requires off + n <= buf.Length
      modifies this, buf
      ensures buf[..off] == old(buf[..off])
      ensures buf[off..off + n] == Window(input, old(pos), n)
      ensures buf[off + n..] == old(buf[off + n..])
      ensures State() == Advance(old(State()), n)
    {
      var j := 0;
      while j < n
        invariant 0 <= j <= n
        invariant pos == old(pos) && log == old(log)
        invariant forall k :: off <= k < off + j ==> buf[k] == Peek(input, pos + (k - off))
        invariant forall k :: 0 <= k < off ==> buf[k] == old(buf[k])
        invariant forall k :: off + j <= k < buf.Length ==> buf[k] == old(buf[k])
      {
        buf[off + j] := Peek(input, pos + j);
        j := j + 1;
      }
      pos := pos + n;
    }
  }
}
