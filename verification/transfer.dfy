/**
 * What the sequential block transfers of os/hal/src/mmc_spi.c do on the bus,
 * as functions of the card's byte stream: opening a multiple-block read or
 * write, one block step, the stop sequences, and the whole transfers that
 * `mmc_read` and `mmc_write` run. The driver methods in module Mmc are proved
 * to follow these functions; the lemmas here say what the functions mean.
 */
module Transfer {
  import opened Bytes
  import opened Spi
  import opened Protocol
  import Crc7

  /** Start block token of a multiple-block write, sent after one idle byte. */
  const WRITE_PROLOGUE: seq<bv8> := [0xFF, 0xFC]

  /** "Stop transmission" token of a multiple-block write, then an idle byte. */
  const STOP_TRAN: seq<bv8> := [0xFD, 0xFF]

  /** The fixed STOP_TRANSMISSION frame of `mmcStopSequentialRead`, followed by
      one stuff byte. Its CRC field is zero rather than the CRC-7 of the
      frame. */
  const STOP_READ: seq<bv8> := [0x4C, 0x00, 0x00, 0x00, 0x00, 0x01, 0xFF]

  /** The status field of a data response token that means "data accepted". */
  const DATA_ACCEPTED: bv8 := 0x05

  /** The argument of READ/WRITE_MULTIPLE_BLOCK. Block-addressed cards take
      the block number; byte-addressed cards take the block number times 512
      in 32-bit unsigned arithmetic (a shift by nine), so the top nine bits of
      the block number are lost. */
  function StartAddress(blockAddresses: bool, startblk: bv32): (a: bv32)
    ensures blockAddresses ==> a == startblk
  {
    if blockAddresses then startblk else startblk << 9
  }

  /** A byte address is a multiple of the block size. */
  lemma ByteAddressAligned(startblk: bv32)
    ensures StartAddress(false, startblk) & 0x1FF == 0
  {
  }

  /** A byte address keeps the low 23 bits of the block number. */
  lemma ByteAddressBlock(startblk: bv32)
    ensures StartAddress(false, startblk) >> 9 == startblk & 0x7F_FFFF
  {
  }

  /** A byte address names the requested block exactly when the block number
      fits in 23 bits. */
  lemma ByteAddressExact(startblk: bv32)
    ensures StartAddress(false, startblk) >> 9 == startblk <==> startblk < 0x80_0000
  {
    ByteAddressBlock(startblk);
    LowBits(startblk);
  }

  /** Masking to 23 bits is the identity exactly below 2^23. */
  lemma LowBits(x: bv32)
    ensures x & 0x7F_FFFF == x <==> x < 0x80_0000
  {
  }

  /** The opening of a sequential read or write: high speed, select, the
      command header after the idle wait, and the R1 poll. A reply other than
      0x00, a timeout included, deselects the card. */
  function Opened(input: seq<bv8>, w: Wire, cmd: bv8, addr: bv32): (r: Response)
    ensures var p := IdleEnd(input, w.pos);
      r.value == R1At(input, p).value && p < r.wire.pos <= p + R1_TRIES
    ensures r.wire.log == w.log + [Start(HighSpeed), Select, Send(Frame(cmd, addr))]
                          + (if r.value == 0x00 then [] else [Unselect])
    ensures r.payload == []
  {
    var h := HeaderSent(input, Emit(Emit(w, Start(HighSpeed)), Select), cmd, addr);
    var r1 := R1At(input, h.pos);
    var after := h.(pos := r1.next);
    Response(r1.value, [], if r1.value == 0x00 then after else Emit(after, Unselect))
  }

  /** The result of a read step or of a whole read: whether it failed, the
      block bytes delivered, and the link state after it. */
  datatype Blocks = Blocks(failed: bool, data: seq<bv8>, wire: Wire)

  /** `mmcSequentialRead` on the bus: up to WAIT_DATA polls for the start
      token; then 512 data bytes and two CRC bytes clocked away; on timeout
      the card is deselected. */
  function BlockRead(input: seq<bv8>, w: Wire): (r: Blocks)
    ensures r.failed ==> r.data == [] && r.wire == Emit(w.(pos := w.pos + WAIT_DATA), Unselect)
    ensures !r.failed ==> |r.data| == BLOCK_SIZE && r.wire.log == w.log + [Ignore(2)]
    ensures w.pos < r.wire.pos
  {
    match Seek(input, w.pos, WAIT_DATA, IsStartBlock)
    case None => Blocks(true, [], Emit(w.(pos := w.pos + WAIT_DATA), Unselect))
    case Some(t) => Blocks(false, Window(input, t + 1, BLOCK_SIZE), Emit(w.(pos := t + 1 + BLOCK_SIZE + 2), Ignore(2)))
  }

  /** A block that was read is the 512 bytes after the first start token found
      within WAIT_DATA polls; the two bytes after it are the skipped CRC. */
  lemma {:induction false} BlockReadContents(input: seq<bv8>, w: Wire)
    requires !BlockRead(input, w).failed
    ensures var r := BlockRead(input, w); var t := r.wire.pos - (BLOCK_SIZE + 3);
      w.pos <= t < w.pos + WAIT_DATA && Peek(input, t) == START_BLOCK &&
      (forall k :: w.pos <= k < t ==> Peek(input, k) != START_BLOCK) &&
      r.data == Window(input, t + 1, BLOCK_SIZE)
  {
    SeekFirst(input, w.pos, WAIT_DATA, IsStartBlock);
  }

  /** A timed-out read step saw no start token in all WAIT_DATA polls. */
  lemma {:induction false} BlockReadTimeout(input: seq<bv8>, w: Wire)
    requires BlockRead(input, w).failed
    ensures forall k :: w.pos <= k < w.pos + WAIT_DATA ==> Peek(input, k) != START_BLOCK
  {
    SeekFirst(input, w.pos, WAIT_DATA, IsStartBlock);
  }

  /** n read steps in a row, stopping at the first failure. */
  function BlockReads(input: seq<bv8>, w: Wire, n: nat): (r: Blocks)
    ensures !r.failed ==> |r.data| == BLOCK_SIZE * n && r.wire.log == w.log + seq(n, _ => Ignore(2))
    ensures r.failed ==> |r.wire.log| > 0 && r.wire.log[|r.wire.log| - 1] == Unselect
    decreases n
  {
    if n == 0 then Blocks(false, [], w)
    else
      var b := BlockRead(input, w);
      if b.failed then b
      else
        var rest := BlockReads(input, b.wire, n - 1);
        assert !rest.failed ==> [Ignore(2)] + seq(n - 1, _ => Ignore(2)) == seq(n, _ => Ignore(2));
        Blocks(rest.failed, b.data + rest.data, rest.wire)
  }

  /** Block k of a successful run is what the k-th read step delivered. */
  lemma {:induction false} BlockReadsSplit(input: seq<bv8>, w: Wire, n: nat)
    requires n > 0 && !BlockReads(input, w, n).failed
    ensures var b := BlockRead(input, w);
      !b.failed && BlockReads(input, w, n).data == b.data + BlockReads(input, b.wire, n - 1).data
  {
  }

  /** `mmcStopSequentialRead` on the bus: the stop frame, an R1 poll whose
      value is discarded, deselect. */
  function ReadStopped(input: seq<bv8>, w: Wire): (r: Wire)
    ensures r.log == w.log + [Send(STOP_READ), Unselect]
    ensures w.pos < r.pos <= w.pos + R1_TRIES
  {
    Emit(Emit(w, Send(STOP_READ)).(pos := R1At(input, w.pos).next), Unselect)
  }

  /** The bus side of `mmc_read` from READY: open, n read steps, stop. */
  function ReadTransfer(input: seq<bv8>, w: Wire, addr: bv32, n: nat): (r: Blocks)
  {
    var o := Opened(input, w, READ_MULTIPLE_BLOCK, addr);
    if o.value != 0x00 then Blocks(true, [], o.wire)
    else
      var b := BlockReads(input, o.wire, n);
      if b.failed then b else Blocks(false, b.data, ReadStopped(input, b.wire))
  }

  /** Whatever happens, a read transfer sends the READ_MULTIPLE_BLOCK frame
      for its address first and ends with the card deselected; a successful
      one delivers n blocks and sends the stop frame exactly once. */
  lemma ReadTransferDeselects(input: seq<bv8>, w: Wire, addr: bv32, n: nat)
    ensures var r := ReadTransfer(input, w, addr, n);
      var opening := w.log + [Start(HighSpeed), Select, Send(Frame(READ_MULTIPLE_BLOCK, addr))];
      opening <= r.wire.log && r.wire.log[|r.wire.log| - 1] == Unselect &&
      (!r.failed ==> |r.data| == BLOCK_SIZE * n &&
                     r.wire.log == opening + seq(n, _ => Ignore(2)) + [Send(STOP_READ), Unselect])
  {
    var o := Opened(input, w, READ_MULTIPLE_BLOCK, addr);
    if o.value == 0x00 {
      var b := BlockReads(input, o.wire, n);
      assert o.wire.log <= b.wire.log by {
        if !b.failed {
          assert b.wire.log == o.wire.log + seq(n, _ => Ignore(2));
        } else {
          BlockReadsExtend(input, o.wire, n);
        }
      }
    }
  }

  /** Read steps only ever append to the log. */
  lemma {:induction false} BlockReadsExtend(input: seq<bv8>, w: Wire, n: nat)
    ensures w.log <= BlockReads(input, w, n).wire.log
    decreases n
  {
    if n > 0 {
      var b := BlockRead(input, w);
      if !b.failed {
        BlockReadsExtend(input, b.wire, n - 1);
      }
    }
  }

  /** The stop frame decodes as STOP_TRANSMISSION with argument 0 but carries
      a zero CRC field, so a card that checked CRCs would reject it. */
  lemma StopReadFrame()
    ensures STOP_READ[..5] == Frame(STOP_TRANSMISSION, 0)[..5]
    ensures Frame(STOP_TRANSMISSION, 0)[5] == 0x61
    ensures ParseFrame(STOP_READ[..6]) == None
  {
    assert [0x40 | STOP_TRANSMISSION] + BeBytes(0) == [0x4C, 0x00, 0x00, 0x00, 0x00];
    calc {
      Crc7.Crc7(0, [0x4C, 0x00, 0x00, 0x00, 0x00]);
      { assert Crc7.Lookup(0x4C) == 0x08; }
      Crc7.Crc7(0x08, [0x00, 0x00, 0x00, 0x00]);
      { assert Crc7.Lookup(0x10) == 0x19; }
      Crc7.Crc7(0x19, [0x00, 0x00, 0x00]);
      { assert Crc7.Lookup(0x32) == 0x39; }
      Crc7.Crc7(0x39, [0x00, 0x00]);
      { assert Crc7.Lookup(0x72) == 0x5D; }
      Crc7.Crc7(0x5D, [0x00]);
      { assert Crc7.Lookup(0xBA) == 0x30; }
      0x30;
    }
    Crc7.Crc7IsPolynomialDivision(0, STOP_READ[..5]);
    assert STOP_READ[..6][..5] == STOP_READ[..5];
  }

  /** The result of a write step or of a whole write. */
  datatype Done = Done(failed: bool, wire: Wire)

  /** `mmcSequentialWrite` on the bus: the prologue, the block, two CRC
      placeholder bytes clocked, one data response byte read. An accepted
      block is followed by the idle wait; any other response deselects. */
  function BlockWrite(input: seq<bv8>, w: Wire, block: seq<bv8>): (r: Done)
    ensures var sent := w.log + [Send(WRITE_PROLOGUE), Send(block), Ignore(2)];
      var status := Peek(input, w.pos + 2);
      (r.failed <==> status & 0x1F != DATA_ACCEPTED) &&
      (r.failed ==> r.wire == Wire(w.pos + 3, sent + [Unselect])) &&
      (!r.failed ==> r.wire == Wire(IdleEnd(input, w.pos + 3), sent))
  {
    var clocked := Emit(Advance(Emit(Emit(w, Send(WRITE_PROLOGUE)), Send(block)), 2), Ignore(2));
    var status := Peek(input, clocked.pos);
    var read := clocked.(pos := clocked.pos + 1);
    if status & 0x1F == DATA_ACCEPTED then Done(false, read.(pos := IdleEnd(input, read.pos)))
    else Done(true, Emit(read, Unselect))
  }

  /** The data response tokens of section 7.3.3.1 of the SD Physical Layer
      Simplified Specification: "accepted" passes, "CRC error" and "write
      error" fail, and so does an idle line. */
  lemma DataResponses(input: seq<bv8>, w: Wire, block: seq<bv8>)
    ensures Peek(input, w.pos + 2) in {0x05, 0xE5} ==> !BlockWrite(input, w, block).failed
    ensures Peek(input, w.pos + 2) in {0x0B, 0x0D, 0xFF} ==> BlockWrite(input, w, block).failed
  {
  }

  /** The block bytes a log carries: the payloads of its 512-byte sends, in
      order. Frames, tokens and stop sequences are shorter and carry none. */
  function Payload(log: seq<BusEvent>): seq<bv8>
    decreases |log|
  {
    if log == [] then []
    else
      var e := log[|log| - 1];
      Payload(log[..|log| - 1]) + (if e.Send? && |e.data| == BLOCK_SIZE then e.data else [])
  }

  /** Payload distributes over log concatenation. */
  lemma {:induction false} PayloadAppend(a: seq<BusEvent>, b: seq<BusEvent>)
    ensures Payload(a + b) == Payload(a) + Payload(b)
    decreases |b|
  {
    if b == [] {
      assert a + b == a;
    } else {
      var c := b[..|b| - 1];
      assert (a + b)[..|a + b| - 1] == a + c;
      PayloadAppend(a, c);
    }
  }

  /** n write steps in a row over consecutive 512-byte blocks of `data`,
      stopping at the first rejection. */
  function BlockWrites(input: seq<bv8>, w: Wire, data: seq<bv8>, n: nat): (r: Done)
    requires |data| == BLOCK_SIZE * n
    ensures r.failed ==> |r.wire.log| > 0 && r.wire.log[|r.wire.log| - 1] == Unselect
    ensures w.log <= r.wire.log
    decreases n
  {
    if n == 0 then Done(false, w)
    else
      var b := BlockWrite(input, w, data[..BLOCK_SIZE]);
      if b.failed then b
      else BlockWrites(input, b.wire, data[BLOCK_SIZE..], n - 1)
  }

  /** A successful run of write steps has sent exactly `data` as block
      payload, in order. */
  lemma {:induction false} BlockWritesPayload(input: seq<bv8>, w: Wire, data: seq<bv8>, n: nat)
    requires |data| == BLOCK_SIZE * n && !BlockWrites(input, w, data, n).failed
    ensures Payload(BlockWrites(input, w, data, n).wire.log) == Payload(w.log) + data
    decreases n
  {
    if n > 0 {
      var block := data[..BLOCK_SIZE];
      var b := BlockWrite(input, w, block);
      var rest := data[BLOCK_SIZE..];
      assert BlockWrites(input, w, data, n) == BlockWrites(input, b.wire, rest, n - 1);
      BlockWritesPayload(input, b.wire, rest, n - 1);
      StepPayload(w.log, block);
      assert Payload(b.wire.log) == Payload(w.log) + block;
      assert data == block + rest;
      assert (Payload(w.log) + block) + rest == Payload(w.log) + data;
    } else {
      assert data == [];
    }
  }

  /** One write step adds its block to the payload. */
  lemma StepPayload(log: seq<BusEvent>, block: seq<bv8>)
    requires |block| == BLOCK_SIZE
    ensures Payload(log + [Send(WRITE_PROLOGUE), Send(block), Ignore(2)]) == Payload(log) + block
  {
    var step := [Send(WRITE_PROLOGUE), Send(block), Ignore(2)];
    assert Payload([Send(WRITE_PROLOGUE)]) == [];
    assert [Send(WRITE_PROLOGUE), Send(block)][..1] == [Send(WRITE_PROLOGUE)];
    assert Payload([Send(WRITE_PROLOGUE), Send(block)]) == block;
    assert step[..2] == [Send(WRITE_PROLOGUE), Send(block)];
    assert Payload(step) == block;
    PayloadAppend(log, step);
  }

  /** `mmcStopSequentialWrite` on the bus. */
  function WriteStopped(w: Wire): (r: Wire)
    ensures r.pos == w.pos && r.log == w.log + [Send(STOP_TRAN), Unselect]
  {
    Emit(Emit(w, Send(STOP_TRAN)), Unselect)
  }

  /** The bus side of `mmc_write` from READY: open, n write steps, stop. */
  function WriteTransfer(input: seq<bv8>, w: Wire, addr: bv32, data: seq<bv8>, n: nat): (r: Done)
    requires |data| == BLOCK_SIZE * n
  {
    var o := Opened(input, w, WRITE_MULTIPLE_BLOCK, addr);
    if o.value != 0x00 then Done(true, o.wire)
    else
      var b := BlockWrites(input, o.wire, data, n);
      if b.failed then b else Done(false, WriteStopped(b.wire))
  }

  /** Whatever happens, a write transfer sends the WRITE_MULTIPLE_BLOCK frame
      for its address first and ends with the card deselected. */
  lemma WriteTransferDeselects(input: seq<bv8>, w: Wire, addr: bv32, data: seq<bv8>, n: nat)
    requires |data| == BLOCK_SIZE * n
    ensures var r := WriteTransfer(input, w, addr, data, n);
      w.log + [Start(HighSpeed), Select, Send(Frame(WRITE_MULTIPLE_BLOCK, addr))] <= r.wire.log &&
      r.wire.log[|r.wire.log| - 1] == Unselect
  {
    var o := Opened(input, w, WRITE_MULTIPLE_BLOCK, addr);
    if o.value == 0x00 {
      var b := BlockWrites(input, o.wire, data, n);
      assert o.wire.log == w.log + [Start(HighSpeed), Select, Send(Frame(WRITE_MULTIPLE_BLOCK, addr))];
    }
  }

  /** A successful write transfer has sent exactly the caller's blocks, in
      order, as payload. */
  lemma WriteTransferPayload(input: seq<bv8>, w: Wire, addr: bv32, data: seq<bv8>, n: nat)
    requires |data| == BLOCK_SIZE * n
    ensures var r := WriteTransfer(input, w, addr, data, n);
      !r.failed ==> Payload(r.wire.log) == Payload(w.log) + data
  {
    var o := Opened(input, w, WRITE_MULTIPLE_BLOCK, addr);
    if o.value == 0x00 {
      var b := BlockWrites(input, o.wire, data, n);
      if !b.failed {
        BlockWritesPayload(input, o.wire, data, n);
        OpeningPayload(w.log, addr);
        StopPayload(b.wire.log);
        assert o.wire.log == w.log + [Start(HighSpeed), Select, Send(Frame(WRITE_MULTIPLE_BLOCK, addr))];
        assert WriteTransfer(input, w, addr, data, n).wire == WriteStopped(b.wire);
      }
    }
  }

  /** The opening of a write carries no payload. */
  lemma OpeningPayload(log: seq<BusEvent>, addr: bv32)
    ensures Payload(log + [Start(HighSpeed), Select, Send(Frame(WRITE_MULTIPLE_BLOCK, addr))]) == Payload(log)
  {
    var opening := [Start(HighSpeed), Select, Send(Frame(WRITE_MULTIPLE_BLOCK, addr))];
    assert Payload([Start(HighSpeed)]) == [];
    assert [Start(HighSpeed), Select][..1] == [Start(HighSpeed)];
    assert Payload([Start(HighSpeed), Select]) == [];
    assert opening[..2] == [Start(HighSpeed), Select];
    assert Payload(opening) == [];
    PayloadAppend(log, opening);
  }

  /** The stop sequence of a write carries no payload. */
  lemma StopPayload(log: seq<BusEvent>)
    ensures Payload(log + [Send(STOP_TRAN), Unselect]) == Payload(log)
  {
    assert Payload([Send(STOP_TRAN)]) == [];
    assert [Send(STOP_TRAN), Unselect][..1] == [Send(STOP_TRAN)];
    assert Payload([Send(STOP_TRAN), Unselect]) == [];
    PayloadAppend(log, [Send(STOP_TRAN), Unselect]);
  }

  /** The invariant of the write loop: what is left of the transfer `goal`
      is writing the `m` blocks of `rest` from `w`. */
  predicate WriteSoFar(input: seq<bv8>, w: Wire, rest: seq<bv8>, m: nat, goal: Done)
    requires |rest| == BLOCK_SIZE * m
  {
    BlockWrites(input, w, rest, m) == goal
  }

  /** The invariant of the read loop: `m` blocks are still to come from `w`,
      and what was stored so far, followed by them, is what the whole
      transfer delivers. */
  predicate ReadSoFar(input: seq<bv8>, w: Wire, m: nat, stored: seq<bv8>, goal: Blocks)
  {
    var rest := BlockReads(input, w, m);
    goal == rest.(data := stored + rest.data)
  }

  /** One successful read step, storing its block at `off`, keeps the read
      loop's invariant. */
  lemma ReadStepKeeps(input: seq<bv8>, w: Wire, m: nat, got: seq<bv8>, post: seq<bv8>, off: nat,
                      goal: Blocks, orig: seq<bv8>)
    requires m > 0 && |got| == off && off + BLOCK_SIZE <= |post| == |orig|
    requires ReadSoFar(input, w, m, got, goal)
    requires !BlockRead(input, w).failed
    requires post[..off] == got && post[off..off + BLOCK_SIZE] == BlockRead(input, w).data
    requires post[off + BLOCK_SIZE..] == orig[off + BLOCK_SIZE..]
    ensures post == post[..off + BLOCK_SIZE] + orig[off + BLOCK_SIZE..]
    ensures ReadSoFar(input, BlockRead(input, w).wire, m - 1, post[..off + BLOCK_SIZE], goal)
  {
    var b := BlockRead(input, w);
    assert post[..off + BLOCK_SIZE] == got + b.data;
    var rest := BlockReads(input, b.wire, m - 1);
    assert got + (b.data + rest.data) == (got + b.data) + rest.data;
  }
}
