/**
 * The MMC-over-SPI driver object of os/hal/src/mmc_spi.c: its state machine
 * (STOP, WAIT, INSERTED, READY, READING, WRITING), the card-presence monitor
 * fed by the insertion sensor, bring-up, sequential block transfers, and the
 * block-device entry points built on them.
 *
 * Each `chSysLock`..`chSysUnlock` region is one step of a method. The monitor
 * is the only other context that changes the driver: where the source
 * re-checks the state after talking to the card, the method takes the sensor
 * readings seen by the monitor meanwhile (`readings`) and runs the monitor on
 * them first. The SPI peripheral is the `Link` of module Spi.
 */
module Mmc {
  import opened Bytes
  import opened Spi
  import opened Protocol
  import opened Transfer
  import P = Presence
  import Bringup

  /** What `mmcGetInfo` reports. */
  datatype BlockDeviceInfo = BlockDeviceInfo(blkNum: bv32, blkSize: nat)

  /** The driver fields, as one value: the state, the debounce counter, the
      addressing mode, the capacity in blocks, whether the monitor's timer is
      armed, and the events broadcast so far. */
  datatype Snapshot = Snapshot(state: P.State, cnt: nat, blockAddresses: bool, capacity: bv32,
                               armed: bool, signals: seq<P.Signal>)

  /** The driver invariant: initialised, the monitor running exactly when the
      driver is started, and a coherent debounce counter while it runs. */
  predicate Sound(v: Snapshot)
  {
    v.state != P.Uninit && (v.armed <==> v.state != P.Stop) &&
    (v.state != P.Stop ==> P.Coherent(P.Monitor(v.state, v.cnt)))
  }

  /** One firing of the monitor (`tmrfunc`) on a sensor reading. */
  function Fire(v: Snapshot, inserted: bool): Snapshot
  {
    var s := P.Debounce(P.Monitor(v.state, v.cnt), inserted);
    v.(state := s.after.state, cnt := s.after.cnt, signals := v.signals + P.SignalsOf(s))
  }

  /** The monitor firing once per reading. */
  function Settle(v: Snapshot, readings: seq<bool>): Snapshot
  {
    var t := P.Run(P.Monitor(v.state, v.cnt), readings);
    v.(state := t.after.state, cnt := t.after.cnt, signals := v.signals + t.signals)
  }

  /** A guarded transition of the source's re-checks: `from` becomes `to`,
      any other state is left alone. */
  function Recheck(v: Snapshot, from: P.State, to: P.State): Snapshot
  {
    if v.state == from then v.(state := to) else v
  }

  /** Firing once more extends a settled run by that reading. */
  lemma SettleStep(v: Snapshot, readings: seq<bool>, i: nat)
    requires i < |readings|
    ensures Settle(v, readings[..i + 1]) == Fire(Settle(v, readings[..i]), readings[i])
  {
    var m := P.Monitor(v.state, v.cnt);
    assert readings[..i + 1] == readings[..i] + [readings[i]];
    P.RunAppend(m, readings[..i], [readings[i]]);
    var t := P.Run(m, readings[..i]);
    var s := P.Debounce(t.after, readings[i]);
    assert P.Run(t.after, [readings[i]]) == P.Trace(s.after, P.SignalsOf(s) + []);
    assert P.SignalsOf(s) + [] == P.SignalsOf(s);
  }

  /** The monitor keeps the driver sound and never moves it anywhere but
      WAIT or INSERTED; it touches neither addressing nor capacity. */
  lemma SettleKeepsSound(v: Snapshot, readings: seq<bool>)
    requires Sound(v) && v.state != P.Stop
    ensures var u := Settle(v, readings);
      Sound(u) && u.state in {v.state, P.Wait, P.Inserted} &&
      u == v.(state := u.state, cnt := u.cnt, signals := u.signals)
  {
    P.RunKeepsCoherent(P.Monitor(v.state, v.cnt), readings);
  }

  /** A re-check between the counter-free states keeps the driver sound. */
  lemma RecheckKeepsSound(v: Snapshot, from: P.State, to: P.State)
    requires Sound(v)
    requires from in {P.Inserted, P.Ready, P.Reading, P.Writing}
    requires to in {P.Inserted, P.Ready, P.Reading, P.Writing}
    ensures Sound(Recheck(v, from, to))
  {
  }

  /** Every failure of a transfer lands in READY, or in WAIT or INSERTED when
      the monitor saw the card leave or come back meanwhile; never in a
      transfer state. */
  lemma {:induction false} FailureLands(v: Snapshot, readings: seq<bool>, from: P.State)
    requires Sound(v) && v.state == from && from in {P.Reading, P.Writing}
    ensures var u := Recheck(Settle(v, readings), from, P.Ready);
      Sound(u) && u.state in {P.Ready, P.Wait, P.Inserted} &&
      (u.state == P.Ready <==> Settle(v, readings).state == from)
  {
    SettleKeepsSound(v, readings);
    RecheckKeepsSound(Settle(v, readings), from, P.Ready);
  }

  /** The final re-check of `mmcConnect`: the driver becomes READY exactly
      when the monitor still reports the card INSERTED; otherwise the card was
      removed meanwhile and the driver is in WAIT. */
  lemma {:induction false} ConnectLands(v: Snapshot, readings: seq<bool>)
    requires Sound(v) && v.state == P.Inserted
    ensures var s := Settle(v, readings); var u := Recheck(s, P.Inserted, P.Ready);
      Sound(u) && (u.state == P.Ready <==> s.state == P.Inserted) &&
      (u.state != P.Ready ==> u.state == P.Wait && u.cnt > 0)
  {
    SettleKeepsSound(v, readings);
    RecheckKeepsSound(Settle(v, readings), P.Inserted, P.Ready);
  }

  /** The fields bring-up assigns: the addressing mode always, the capacity
      once the CSD has been read. */
  function Configured(v: Snapshot, o: Bringup.Outcome): (u: Snapshot)
    ensures u.state == v.state && u.cnt == v.cnt && u.armed == v.armed && u.signals == v.signals
    ensures u.blockAddresses == o.blockAddresses
    ensures o.capacity.Some? ==> u.capacity == o.capacity.value
    ensures o.capacity.None? ==> u.capacity == v.capacity
  {
    v.(blockAddresses := o.blockAddresses, capacity := if o.capacity.Some? then o.capacity.value else v.capacity)
  }

  /** Bring-up leaves the state, and so soundness, as it was. */
  lemma ConfiguredKeepsSound(v: Snapshot, o: Bringup.Outcome)
    requires Sound(v)
    ensures Sound(Configured(v, o)) && Configured(v, o).state == v.state
  {
  }

  /** No readings, no change. */
  lemma SettleNothing(v: Snapshot)
    ensures Settle(v, []) == v
  {
    assert v.signals + [] == v.signals;
  }

  /** `MMCDriver`. */
  class MmcDriver {
    var state: P.State
    var cnt: nat
    var blockAddresses: bool
    var capacity: bv32
    /** Whether the monitor's virtual timer is armed. */
    var armed: bool
    /** The events broadcast on `inserted_event` and `removed_event`, in order. */
    var signals: seq<P.Signal>
    /** The SPI driver behind `config->spip`. */
    const spi: Link

    function Snap(): Snapshot
      reads this
    {
      Snapshot(state, cnt, blockAddresses, capacity, armed, signals)
    }

    predicate Valid()
      reads this
    {
      Sound(Snap())
    }

    /** `mmcObjectInit`. The counter and the capacity are not initialised by
        the source; `cnt` and `capacity` stand for whatever they held. */
    constructor (spi: Link, cnt: nat, capacity: bv32)
      ensures Valid() && this.spi == spi
      ensures Snap() == Snapshot(P.Stop, cnt, false, capacity, false, [])
    {
      this.spi := spi;
      state := P.Stop;
      this.cnt := cnt;
      blockAddresses := false;
      this.capacity := capacity;
      armed := false;
      signals := [];
    }

    /** `tmrfunc`: one firing of the monitor. The timer re-arms itself. */
    method Tick(inserted: bool)
      requires Valid() && state != P.Stop
      modifies this
      ensures Valid() && state != P.Stop
      ensures Snap() == Fire(old(Snap()), inserted)
    {
      P.DebounceKeepsCoherent(P.Monitor(state, cnt), inserted);
      if cnt > 0 {
        if inserted {
          cnt := cnt - 1;
          if cnt == 0 {
            state := P.Inserted;
            signals := signals + [P.CardInserted];
          }
        } else {
          cnt := P.POLLING_INTERVAL;
        }
      } else if !inserted {
        state := P.Wait;
        cnt := P.POLLING_INTERVAL;
        signals := signals + [P.CardRemoved];
      }
    }

    /** The monitor firing once per reading, between two steps of a method. */
    method Interleave(readings: seq<bool>)
      requires Valid() && state != P.Stop
      modifies this
      ensures Valid() && state != P.Stop
      ensures Snap() == Settle(old(Snap()), readings)
    {
      var i := 0;
      assert readings[..0] == [];
      SettleNothing(Snap());
      while i < |readings|
        invariant 0 <= i <= |readings|
        invariant Valid() && state != P.Stop
        invariant Snap() == Settle(old(Snap()), readings[..i])
      {
        SettleStep(old(Snap()), readings, i);
        Tick(readings[i]);
        i := i + 1;
      }
      assert readings[..i] == readings;
    }

    /** The re-check that ends every failed transfer step: after the monitor
        has run, a driver still in `from` returns to READY. */
    method ReturnToReady(from: P.State, readings: seq<bool>)
      requires Valid() && state == from && from in {P.Reading, P.Writing}
      modifies this
      ensures Valid()
      ensures Snap() == Recheck(Settle(old(Snap()), readings), from, P.Ready)
    {
      FailureLands(Snap(), readings, from);
      Interleave(readings);
      if state == from {
        state := P.Ready;
      }
    }

    /** `mmcStart`: STOP to WAIT with a full counter, monitor armed. */
    method Start()
      requires Valid() && state == P.Stop
      modifies this
      ensures Valid()
      ensures Snap() == old(Snap()).(state := P.Wait, cnt := P.POLLING_INTERVAL, armed := true)
    {
      state := P.Wait;
      cnt := P.POLLING_INTERVAL;
      armed := true;
    }

    /** `mmcStop`: any state but a transfer goes to STOP with the monitor
        disarmed, and the SPI driver is stopped. */
    method Stop()
      requires Valid() && state != P.Reading && state != P.Writing
      modifies this, spi
      ensures Valid()
      ensures Snap() == old(Snap()).(state := P.Stop, armed := false)
      ensures spi.State() == Emit(old(spi.State()), BusEvent.Stop)
    {
      if state != P.Stop {
        state := P.Stop;
        armed := false;
      }
      spi.Stop();
    }

    /** The INSERTED branch of `mmcConnect` up to its final re-check: the
        card is brought up, and the addressing mode and, once the CSD was
        read, the capacity are stored, whether or not bring-up succeeds. */
    method BringUp(decode: seq<bv32> -> bv32) returns (ok: bool)
      requires Valid() && state == P.Inserted
      modifies this, spi
      ensures var o := Bringup.Bringup(spi.input, old(spi.State()), old(blockAddresses), decode);
        ok == o.ok && spi.State() == o.wire && Snap() == Configured(old(Snap()), o)
    {
      var addressing, c;
      ok, addressing, c := Bringup.BringupCard(spi, blockAddresses, decode);
      blockAddresses := addressing;
      if c.Some? {
        capacity := c.value;
      }
    }

    /** `mmcConnect`. From INSERTED it runs bring-up (`ConnectInserted`).
        READY succeeds at once; any other state fails at once. Returns true
        on failure. */
    method Connect(decode: seq<bv32> -> bv32, readings: seq<bool>) returns (failed: bool)
      requires Valid() && state != P.Stop
      modifies this, spi
      ensures Valid()
      ensures old(state) != P.Inserted ==>
        failed == (old(state) != P.Ready) && Snap() == old(Snap()) && spi.State() == old(spi.State())
      ensures old(state) == P.Inserted ==>
        var o := Bringup.Bringup(spi.input, old(spi.State()), old(blockAddresses), decode);
        var v := Configured(old(Snap()), o);
        spi.State() == o.wire &&
        (!o.ok ==> failed && Snap() == v) &&
        (o.ok ==> failed == (Settle(v, readings).state != P.Inserted) &&
                  Snap() == Recheck(Settle(v, readings), P.Inserted, P.Ready))
    {
      if state == P.Inserted {
        failed := ConnectInserted(decode, readings);
        return;
      }
      if state == P.Ready {
        return false;
      }
      return true;
    }

    /** The INSERTED branch of `mmcConnect`: an early failure of bring-up
        leaves the state alone, while addressing and capacity keep what
        bring-up assigned; after a full bring-up the driver becomes READY if
        the monitor still reports the card INSERTED. */
    method ConnectInserted(decode: seq<bv32> -> bv32, readings: seq<bool>) returns (failed: bool)
      requires Valid() && state == P.Inserted
      modifies this, spi
      ensures Valid()
      ensures var o := Bringup.Bringup(spi.input, old(spi.State()), old(blockAddresses), decode);
        var v := Configured(old(Snap()), o);
        spi.State() == o.wire &&
        (!o.ok ==> failed && Snap() == v) &&
        (o.ok ==> failed == (Settle(v, readings).state != P.Inserted) &&
                  Snap() == Recheck(Settle(v, readings), P.Inserted, P.Ready))
    {
      ConfiguredKeepsSound(Snap(), Bringup.Bringup(spi.input, spi.State(), blockAddresses, decode));
      var ok := BringUp(decode);
      if !ok {
        return true;
      }
      failed := ConnectRecheck(readings);
    }

    /** The final re-check of `mmcConnect` after a full bring-up: the monitor
        runs, then the driver becomes READY if it still reports the card
        INSERTED. Returns true on failure. */
    method ConnectRecheck(readings: seq<bool>) returns (failed: bool)
      requires Valid() && state == P.Inserted
      modifies this
      ensures Valid()
      ensures failed == (Settle(old(Snap()), readings).state != P.Inserted)
      ensures Snap() == Recheck(Settle(old(Snap()), readings), P.Inserted, P.Ready)
    {
      ConnectLands(Snap(), readings);
      Interleave(readings);
      if state == P.Inserted {
        state := P.Ready;
        return false;
      }
      return true;
    }

    /** `mmcDisconnect`. From READY it waits for the card to finish, then
        returns to INSERTED if the card is still READY. Its `switch` has no
        `break`, so every case falls through to the failure status: the
        operation reports failure whatever the state, and always stops the
        SPI driver. */
    method Disconnect(readings: seq<bool>) returns (failed: bool)
      requires Valid() && state != P.Stop
      modifies this, spi
      ensures Valid() && failed
      ensures old(state) == P.Ready ==>
        spi.State() == Emit(Synced(spi.input, old(spi.State())), BusEvent.Stop) &&
        Snap() == Recheck(Settle(old(Snap()), readings), P.Ready, P.Inserted)
      ensures old(state) != P.Ready ==>
        spi.State() == Emit(old(spi.State()), BusEvent.Stop) && Snap() == old(Snap())
    {
      if state == P.Ready {
        Protocol.Sync(spi);
        SettleKeepsSound(Snap(), readings);
        RecheckKeepsSound(Settle(Snap(), readings), P.Ready, P.Inserted);
        Interleave(readings);
        if state == P.Ready {
          state := P.Inserted;
        }
      }
      failed := true;
      spi.Stop();
    }

    /** `mmcStartSequentialRead`: from READY, enter READING and open a
        multiple-block read at `startblk`; a rejected command deselects and
        falls back. Returns true on failure. */
    method StartSequentialRead(startblk: bv32, readings: seq<bool>) returns (failed: bool)
      requires Valid()
      modifies this, spi
      ensures Valid()
      ensures old(state) != P.Ready ==>
        failed && Snap() == old(Snap()) && spi.State() == old(spi.State())
      ensures old(state) == P.Ready ==>
        var o := Opened(spi.input, old(spi.State()), READ_MULTIPLE_BLOCK, StartAddress(old(blockAddresses), startblk));
        var reading := old(Snap()).(state := P.Reading);
        spi.State() == o.wire && failed == (o.value != 0x00) &&
        Snap() == if failed then Recheck(Settle(reading, readings), P.Reading, P.Ready) else reading
    {
      if state != P.Ready {
        return true;
      }
      state := P.Reading;
      spi.Start(HighSpeed);
      spi.Select();
      SendHdr(spi, READ_MULTIPLE_BLOCK, StartAddress(blockAddresses, startblk));
      var r1 := RecvR1(spi);
      if r1 != 0x00 {
        spi.Unselect();
        ReturnToReady(P.Reading, readings);
        return true;
      }
      return false;
    }

    /** `mmcSequentialRead` into `buf[off..off + 512]`. While polling, each
        byte read lands in `buf[off]`, so a timeout leaves the last polled
        byte there. Returns true on failure. */
    method SequentialRead(buf: array<bv8>, off: nat, readings: seq<bool>) returns (failed: bool)
      requires Valid() && off + BLOCK_SIZE <= buf.Length
      modifies this, spi, buf
      ensures Valid()
      ensures old(state) != P.Reading ==>
        failed && Snap() == old(Snap()) && spi.State() == old(spi.State()) && buf[..] == old(buf[..])
      ensures old(state) == P.Reading ==>
        var b := BlockRead(spi.input, old(spi.State()));
        failed == b.failed && spi.State() == b.wire &&
        (!failed ==> Snap() == old(Snap()) && buf[off..off + BLOCK_SIZE] == b.data &&
                     buf[..off] == old(buf[..off]) && buf[off + BLOCK_SIZE..] == old(buf[off + BLOCK_SIZE..])) &&
        (failed ==> Snap() == Recheck(Settle(old(Snap()), readings), P.Reading, P.Ready) &&
                    buf[..] == old(buf[..])[off := Peek(spi.input, old(spi.pos) + WAIT_DATA - 1)])
    {
      if state != P.Reading {
        return true;
      }
      var found, last := PollToken(spi);
      if found {
        spi.ReceiveInto(buf, off, BLOCK_SIZE);
        spi.Ignore(2);
        return false;
      }
      buf[off] := last;
      spi.Unselect();
      ReturnToReady(P.Reading, readings);
      return true;
    }

    /** `mmcStopSequentialRead`: the stop frame, an R1 poll whose value is
        ignored, deselect, back to READY. Always succeeds from READING. */
    method StopSequentialRead(readings: seq<bool>) returns (failed: bool)
      requires Valid()
      modifies this, spi
      ensures Valid()
      ensures old(state) != P.Reading ==>
        failed && Snap() == old(Snap()) && spi.State() == old(spi.State())
      ensures old(state) == P.Reading ==>
        !failed && spi.State() == ReadStopped(spi.input, old(spi.State())) &&
        Snap() == Recheck(Settle(old(Snap()), readings), P.Reading, P.Ready)
    {
      if state != P.Reading {
        return true;
      }
      spi.Send(STOP_READ);
      var _ := RecvR1(spi);
      spi.Unselect();
      ReturnToReady(P.Reading, readings);
      return false;
    }

    /** `mmcStartSequentialWrite`: as the read, with WRITE_MULTIPLE_BLOCK and
        WRITING. */
    method StartSequentialWrite(startblk: bv32, readings: seq<bool>) returns (failed: bool)
      requires Valid()
      modifies this, spi
      ensures Valid()
      ensures old(state) != P.Ready ==>
        failed && Snap() == old(Snap()) && spi.State() == old(spi.State())
      ensures old(state) == P.Ready ==>
        var o := Opened(spi.input, old(spi.State()), WRITE_MULTIPLE_BLOCK, StartAddress(old(blockAddresses), startblk));
        var writing := old(Snap()).(state := P.Writing);
        spi.State() == o.wire && failed == (o.value != 0x00) &&
        Snap() == if failed then Recheck(Settle(writing, readings), P.Writing, P.Ready) else writing
    {
      if state != P.Ready {
        return true;
      }
      state := P.Writing;
      spi.Start(HighSpeed);
      spi.Select();
      SendHdr(spi, WRITE_MULTIPLE_BLOCK, StartAddress(blockAddresses, startblk));
      var r1 := RecvR1(spi);
      if r1 != 0x00 {
        spi.Unselect();
        ReturnToReady(P.Writing, readings);
        return true;
      }
      return false;
    }

    /** `mmcSequentialWrite` of `buf[off..off + 512]`: prologue, block, two
        CRC placeholder bytes, data response; an accepted block is followed
        by the idle wait, a rejected one deselects and falls back. */
    method SequentialWrite(buf: array<bv8>, off: nat, readings: seq<bool>) returns (failed: bool)
      requires Valid() && off + BLOCK_SIZE <= buf.Length
      modifies this, spi
      ensures Valid()
      ensures old(state) != P.Writing ==>
        failed && Snap() == old(Snap()) && spi.State() == old(spi.State())
      ensures old(state) == P.Writing ==>
        var b := BlockWrite(spi.input, old(spi.State()), buf[off..off + BLOCK_SIZE]);
        failed == b.failed && spi.State() == b.wire &&
        Snap() == if failed then Recheck(Settle(old(Snap()), readings), P.Writing, P.Ready) else old(Snap())
    {
      if state != P.Writing {
        return true;
      }
      spi.Send(WRITE_PROLOGUE);
      spi.Send(buf[off..off + BLOCK_SIZE]);
      spi.Ignore(2);
      var status := spi.Receive(1);
      if status[0] & 0x1F == DATA_ACCEPTED {
        Wait(spi);
        return false;
      }
      spi.Unselect();
      ReturnToReady(P.Writing, readings);
      return true;
    }

    /** `mmcStopSequentialWrite`: the stop token, deselect; succeeds only if
        the driver is still WRITING at the re-check. */
    method StopSequentialWrite(readings: seq<bool>) returns (failed: bool)
      requires Valid()
      modifies this, spi
      ensures Valid()
      ensures old(state) != P.Writing ==>
        failed && Snap() == old(Snap()) && spi.State() == old(spi.State())
      ensures old(state) == P.Writing ==>
        var s := Settle(old(Snap()), readings);
        spi.State() == WriteStopped(old(spi.State())) &&
        failed == (s.state != P.Writing) && Snap() == Recheck(s, P.Writing, P.Ready)
    {
      if state != P.Writing {
        return true;
      }
      spi.Send(STOP_TRAN);
      spi.Unselect();
      SettleKeepsSound(Snap(), readings);
      RecheckKeepsSound(Settle(Snap(), readings), P.Writing, P.Ready);
      Interleave(readings);
      if state == P.Writing {
        state := P.Ready;
        return false;
      }
      return true;
    }

    /** `mmcSync`: READY only; waits for the card and changes no state. */
    method Sync() returns (failed: bool)
      requires Valid()
      modifies spi
      ensures failed == (state != P.Ready)
      ensures spi.State() == if failed then old(spi.State()) else Synced(spi.input, old(spi.State()))
    {
      if state != P.Ready {
        return true;
      }
      Protocol.Sync(spi);
      return false;
    }

    /** `mmcGetInfo`: READY only; the capacity and the block size. `prior` is
        what the caller's structure held, left as it was on failure. */
    method GetInfo(prior: BlockDeviceInfo) returns (failed: bool, info: BlockDeviceInfo)
      requires Valid()
      ensures failed <==> state != P.Ready
      ensures failed ==> info == prior
      ensures !failed ==> info.blkNum == capacity && info.blkSize == BLOCK_SIZE
    {
      if state != P.Ready {
        return true, prior;
      }
      return false, BlockDeviceInfo(capacity, BLOCK_SIZE);
    }

    /** `mmc_read`: n blocks from `startblk` into `buf`, one sequential read
        step per block. The monitor is not run in between, so the driver
        ends in READY whatever happens. Returns true on failure. */
    method ReadBlocks(startblk: bv32, buf: array<bv8>, n: nat) returns (failed: bool)
      requires Valid() && BLOCK_SIZE * n <= buf.Length
      modifies this, spi, buf
      ensures Valid() && Snap() == old(Snap())
      ensures old(state) != P.Ready ==>
        failed && spi.State() == old(spi.State()) && buf[..] == old(buf[..])
      ensures old(state) == P.Ready ==>
        var t := ReadTransfer(spi.input, old(spi.State()), StartAddress(old(blockAddresses), startblk), n);
        failed == t.failed && spi.State() == t.wire &&
        (!failed ==> buf[..BLOCK_SIZE * n] == t.data && buf[BLOCK_SIZE * n..] == old(buf[BLOCK_SIZE * n..]))
    {
      SettleNothing(Snap().(state := P.Reading));
      failed := StartSequentialRead(startblk, []);
      if failed {
        return;
      }
      failed := ReadSteps(buf, n);
      if failed {
        return;
      }
      SettleNothing(Snap());
      failed := StopSequentialRead([]);
    }

    /** The block loop of `mmc_read`: step i reads into `buf` at 512 * i. */
    method ReadSteps(buf: array<bv8>, n: nat) returns (failed: bool)
      requires Valid() && state == P.Reading && BLOCK_SIZE * n <= buf.Length
      modifies this, spi, buf
      ensures Valid()
      ensures var r := BlockReads(spi.input, old(spi.State()), n);
        failed == r.failed && spi.State() == r.wire &&
        Snap() == old(Snap()).(state := if failed then P.Ready else P.Reading) &&
        (!failed ==> buf[..BLOCK_SIZE * n] == r.data && buf[BLOCK_SIZE * n..] == old(buf[BLOCK_SIZE * n..]))
    {
      ghost var goal := BlockReads(spi.input, spi.State(), n);
      ghost var orig := buf[..];
      ghost var got: seq<bv8> := [];
      var i, off := 0, 0;
      ghost var m := n;
      while i < n
        invariant 0 <= i <= n && off == BLOCK_SIZE * i && m == n - i
        invariant Valid() && Snap() == old(Snap())
        invariant |got| == off && buf[..] == got + orig[off..]
        invariant ReadSoFar(spi.input, spi.State(), m, got, goal)
      {
        failed, got, m := ReadStep(buf, off, m, goal, orig, got);
        if failed {
          return;
        }
        i, off := i + 1, off + BLOCK_SIZE;
      }
      assert buf[..off] == got && buf[off..] == orig[off..];
      return false;
    }

    /** One pass of the read loop: a sequential read step storing at `off`
        after the blocks `got`, with `m` blocks still to read out of the
        transfer `goal`; `stored` is `got` with the new block. */
    method ReadStep(buf: array<bv8>, off: nat, ghost m: nat, ghost goal: Blocks, ghost orig: seq<bv8>,
                    ghost got: seq<bv8>)
      returns (failed: bool, ghost stored: seq<bv8>, ghost left: nat)
      requires Valid() && state == P.Reading && m > 0
      requires off + BLOCK_SIZE <= buf.Length == |orig| && |got| == off && buf[..] == got + orig[off..]
      requires ReadSoFar(spi.input, spi.State(), m, got, goal)
      modifies this, spi, buf
      ensures Valid()
      ensures failed ==> goal.failed && spi.State() == goal.wire && Snap() == old(Snap()).(state := P.Ready)
      ensures !failed ==> Snap() == old(Snap())
      ensures !failed ==> |stored| == off + BLOCK_SIZE && buf[..] == stored + orig[off + BLOCK_SIZE..]
      ensures left == m - 1
      ensures !failed ==> ReadSoFar(spi.input, spi.State(), left, stored, goal)
    {
      ghost var before := spi.State();
      SettleNothing(Snap());
      failed := SequentialRead(buf, off, []);
      stored, left := buf[..off + BLOCK_SIZE], m - 1;
      if !failed {
        ReadStepKeeps(spi.input, before, m, got, buf[..], off, goal, orig);
      }
    }

    /** `mmc_write`: n blocks of `buf` from `startblk`, one sequential write
        step per block. The monitor is not run in between, so the driver
        ends in READY whatever happens. Returns true on failure. */
    method WriteBlocks(startblk: bv32, buf: array<bv8>, n: nat) returns (failed: bool)
      requires Valid() && BLOCK_SIZE * n <= buf.Length
      modifies this, spi
      ensures Valid() && Snap() == old(Snap())
      ensures old(state) != P.Ready ==> failed && spi.State() == old(spi.State())
      ensures old(state) == P.Ready ==>
        var t := WriteTransfer(spi.input, old(spi.State()), StartAddress(old(blockAddresses), startblk),
                               buf[..BLOCK_SIZE * n], n);
        failed == t.failed && spi.State() == t.wire
    {
      SettleNothing(Snap().(state := P.Writing));
      failed := StartSequentialWrite(startblk, []);
      if failed {
        return;
      }
      failed := WriteSteps(buf, n);
      if failed {
        return;
      }
      SettleNothing(Snap());
      failed := StopSequentialWrite([]);
    }

    /** The block loop of `mmc_write`: step i sends `buf` from 512 * i. */
    method WriteSteps(buf: array<bv8>, n: nat) returns (failed: bool)
      requires Valid() && state == P.Writing && BLOCK_SIZE * n <= buf.Length
      modifies this, spi
      ensures Valid()
      ensures var r := BlockWrites(spi.input, old(spi.State()), buf[..BLOCK_SIZE * n], n);
        failed == r.failed && spi.State() == r.wire &&
        Snap() == old(Snap()).(state := if failed then P.Ready else P.Writing)
    {
      ghost var goal := BlockWrites(spi.input, spi.State(), buf[..BLOCK_SIZE * n], n);
      ghost var rest := buf[..BLOCK_SIZE * n];
      var i, off := 0, 0;
      ghost var m := n;
      while i < n
        invariant 0 <= i <= n && off == BLOCK_SIZE * i && m == n - i
        invariant Valid() && Snap() == old(Snap())
        invariant |rest| == BLOCK_SIZE * m && rest == buf[off..BLOCK_SIZE * n]
        invariant WriteSoFar(spi.input, spi.State(), rest, m, goal)
      {
        failed, rest, m := WriteStep(buf, off, rest, m, goal);
        if failed {
          return;
        }
        i, off := i + 1, off + BLOCK_SIZE;
      }
      return false;
    }

    /** One pass of the write loop: a sequential write step sending `buf`
        from `off`, where `rest`, `m` blocks long, is still to be written out
        of the transfer `goal`. */
    method WriteStep(buf: array<bv8>, off: nat, ghost rest: seq<bv8>, ghost m: nat, ghost goal: Done)
      returns (failed: bool, ghost rest': seq<bv8>, ghost left: nat)
      requires Valid() && state == P.Writing && m > 0
      requires off + BLOCK_SIZE <= buf.Length && |rest| == BLOCK_SIZE * m
      requires rest[..BLOCK_SIZE] == buf[off..off + BLOCK_SIZE]
      requires WriteSoFar(spi.input, spi.State(), rest, m, goal)
      modifies this, spi
      ensures Valid()
      ensures failed ==> goal.failed && spi.State() == goal.wire && Snap() == old(Snap()).(state := P.Ready)
      ensures !failed ==> Snap() == old(Snap())
      ensures rest' == rest[BLOCK_SIZE..] && left == m - 1
      ensures !failed ==> WriteSoFar(spi.input, spi.State(), rest', left, goal)
    {
      rest', left := rest[BLOCK_SIZE..], m - 1;
      SettleNothing(Snap());
      failed := SequentialWrite(buf, off, []);
    }
  }
}
