/**
 * Card initialisation, the INSERTED branch of `mmcConnect` in
 * os/hal/src/mmc_spi.c: 128 clocks at low speed, GO_IDLE_STATE until the card
 * reports idle, the SEND_IF_COND probe, for cards that answer it the
 * APP_CMD/APP_OP_COND negotiation and the OCR read that decides block
 * addressing, SEND_OP_COND until the card is ready, then full speed,
 * SET_BLOCKLEN and the CSD read that yields the capacity.
 *
 * The sequence is a function of the card's byte stream (`Bringup`); the three
 * bounded retry loops are methods proved to compute the matching parts of it.
 * The sleeps between retries are not modelled.
 */
module Bringup {
  import opened Bytes
  import opened Spi
  import opened Protocol

  /** Retry ceilings of the three loops, fixed at the driver header's
      defaults. The functions below that specify the loops write these
      ceilings as literals. */
  const CMD0_RETRY: nat := 10
  const ACMD41_RETRY: nat := 100
  const CMD1_RETRY: nat := 100

  /** APP_OP_COND argument: host supports high capacity (HCS), plus the
      voltage window bits the driver sends. */
  const ACMD41_ARG: bv32 := 0x400001AA

  /** Card Capacity Status, bit 30 of the OCR, i.e. 0x40 in its first byte. */
  const OCR_CCS: bv8 := 0x40

  /** The R1 "in idle state" status. */
  const R1_IDLE: bv8 := 0x01

  /** The R1 status of a legacy card that rejects SEND_IF_COND as illegal
      while idle. */
  const R1_ILLEGAL_IDLE: bv8 := 0x05

  /** How a retry loop ended and where it left the link. */
  datatype Attempt = Attempt(ok: bool, wire: Wire)

  /** Number of times frame f was sent in log. */
  function Sent(log: seq<BusEvent>, f: seq<bv8>): nat
  {
    multiset(log)[Send(f)]
  }

  /** The GO_IDLE_STATE loop from its i-th attempt on: it stops as soon as the
      card answers 0x01 and gives up after CMD0_RETRY (10) attempts. */
  function GoIdle(input: seq<bv8>, w: Wire, i: nat): Attempt
    requires i < 10
    decreases 10 - i
  {
    var x := CommandR1(input, w, GO_IDLE_STATE, 0);
    if x.value == R1_IDLE then Attempt(true, x.wire)
    else if i + 1 >= 10 then Attempt(false, x.wire)
    else GoIdle(input, x.wire, i + 1)
  }

  /** Each attempt sends one GO_IDLE_STATE frame: from attempt i on, at most
      10 - i frames are sent, and exactly that many when the loop
      gives up. */
  lemma {:induction false} GoIdleFrames(input: seq<bv8>, w: Wire, i: nat)
    requires i < 10
    ensures var a := GoIdle(input, w, i);
      var f := Frame(GO_IDLE_STATE, 0);
      Sent(w.log, f) < Sent(a.wire.log, f) <= Sent(w.log, f) + (10 - i) &&
      (!a.ok ==> Sent(a.wire.log, f) == Sent(w.log, f) + (10 - i))
    decreases 10 - i
  {
    var f := Frame(GO_IDLE_STATE, 0);
    var x := CommandR1(input, w, GO_IDLE_STATE, 0);
    assert Sent(x.wire.log, f) == Sent(w.log, f) + 1 by {
      assert x.wire.log == w.log + [Select, Send(f), Unselect];
    }
    if x.value != R1_IDLE && i + 1 < 10 {
      GoIdleFrames(input, x.wire, i + 1);
    }
  }

  /** A card whose data-out line stays idle never reaches the idle state: the
      loop fails after exactly 10 attempts. */
  lemma {:induction false} GoIdleSilent(input: seq<bv8>, w: Wire, i: nat)
    requires i < 10
    requires forall k :: 0 <= k < |input| ==> input[k] == IDLE
    ensures !GoIdle(input, w, i).ok
    decreases 10 - i
  {
    var x := CommandR1(input, w, GO_IDLE_STATE, 0);
    var p := IdleEnd(input, Emit(w, Select).pos);
    R1Meaning(input, p);
    assert x.value == IDLE;
    if i + 1 < 10 {
      GoIdleSilent(input, x.wire, i + 1);
    }
  }

  /** The APP_CMD/APP_OP_COND loop from its i-th attempt on. APP_OP_COND is
      sent only when APP_CMD was answered with 0x01; the loop stops when
      APP_OP_COND is answered with 0x00 and gives up after ACMD41_RETRY (100)
      attempts. */
  function Negotiate(input: seq<bv8>, w: Wire, i: nat): Attempt
    requires i < 100
    decreases 100 - i
  {
    var a := AppOpCond(input, w);
    if a.ok || i + 1 >= 100 then a
    else Negotiate(input, a.wire, i + 1)
  }

  /** One round of the negotiation: APP_CMD, and APP_OP_COND only when APP_CMD
      was answered with 0x01; the round succeeds when APP_OP_COND is answered
      with 0x00. */
  function AppOpCond(input: seq<bv8>, w: Wire): Attempt
  {
    var x := CommandR1(input, w, APP_CMD, 0);
    if x.value != R1_IDLE then Attempt(false, x.wire)
    else
      var y := CommandR3(input, x.wire, APP_OP_COND, ACMD41_ARG);
      Attempt(y.value == 0x00, y.wire)
  }

  /** Between two points of the log, at most n `first` frames were sent, and
      no more `second` frames than `first` frames. */
  predicate PairedWithin(before: seq<BusEvent>, after: seq<BusEvent>, first: seq<bv8>, second: seq<bv8>, n: nat)
  {
    Sent(before, first) <= Sent(after, first) <= Sent(before, first) + n &&
    Sent(before, second) <= Sent(after, second) &&
    Sent(after, second) - Sent(before, second) <= Sent(after, first) - Sent(before, first)
  }

  /** Stretches of the log compose: their bounds add up. */
  lemma PairedCompose(a: seq<BusEvent>, b: seq<BusEvent>, c: seq<BusEvent>, first: seq<bv8>, second: seq<bv8>, m: nat, n: nat)
    requires PairedWithin(a, b, first, second, m) && PairedWithin(b, c, first, second, n)
    ensures PairedWithin(a, c, first, second, m + n)
  {
  }

  /** No more APP_OP_COND frames than APP_CMD frames are sent, and at most
      100 APP_CMD frames. */
  lemma {:induction false} NegotiateFrames(input: seq<bv8>, w: Wire, i: nat)
    requires i < 100
    ensures PairedWithin(w.log, Negotiate(input, w, i).wire.log, Frame(APP_CMD, 0), Frame(APP_OP_COND, ACMD41_ARG), 100 - i)
    decreases 100 - i
  {
    var app, op := Frame(APP_CMD, 0), Frame(APP_OP_COND, ACMD41_ARG);
    var a := AppOpCond(input, w);
    AppOpCondFrames(input, w);
    if !a.ok && i + 1 < 100 {
      NegotiateFrames(input, a.wire, i + 1);
      var r := Negotiate(input, a.wire, i + 1);
      PairedCompose(w.log, a.wire.log, r.wire.log, app, op, 1, 100 - (i + 1));
      assert Negotiate(input, w, i) == r;
    } else {
      assert Negotiate(input, w, i) == a;
    }
  }

  /** One round sends exactly one APP_CMD frame and at most one APP_OP_COND
      frame, and the latter only when APP_CMD was answered with 0x01. */
  lemma AppOpCondFrames(input: seq<bv8>, w: Wire)
    ensures var a := AppOpCond(input, w);
      var app, op := Frame(APP_CMD, 0), Frame(APP_OP_COND, ACMD41_ARG);
      PairedWithin(w.log, a.wire.log, app, op, 1) &&
      Sent(a.wire.log, app) == Sent(w.log, app) + 1 &&
      (CommandR1(input, w, APP_CMD, 0).value != R1_IDLE ==> Sent(a.wire.log, op) == Sent(w.log, op))
  {
    var app, op := Frame(APP_CMD, 0), Frame(APP_OP_COND, ACMD41_ARG);
    FrameDiffers();
    var x := CommandR1(input, w, APP_CMD, 0);
    assert x.wire.log == w.log + [Select, Send(app), Unselect];
    assert Sent(x.wire.log, app) == Sent(w.log, app) + 1;
    assert Sent(x.wire.log, op) == Sent(w.log, op);
    var a := AppOpCond(input, w);
    if x.value == R1_IDLE {
      assert a.wire.log == x.wire.log + [Select, Send(op), Unselect];
    }
  }

  /** The APP_CMD and APP_OP_COND frames are different byte strings. */
  lemma FrameDiffers()
    ensures Frame(APP_CMD, 0) != Frame(APP_OP_COND, ACMD41_ARG)
  {
    FrameLayout(APP_CMD, 0);
    FrameLayout(APP_OP_COND, ACMD41_ARG);
  }

  /** The SEND_OP_COND loop from its i-th attempt on: done at 0x00, retried at
      0x01, abandoned at once on any other status or after CMD1_RETRY (100)
      attempts. */
  function Initialize(input: seq<bv8>, w: Wire, i: nat): Attempt
    requires i < 100
    decreases 100 - i
  {
    var x := CommandR1(input, w, SEND_OP_COND, 0);
    if x.value == 0x00 then Attempt(true, x.wire)
    else if x.value != R1_IDLE then Attempt(false, x.wire)
    else if i + 1 >= 100 then Attempt(false, x.wire)
    else Initialize(input, x.wire, i + 1)
  }

  /** Initialisation succeeds only on a 0x00 status; a status other than 0x00
      and 0x01 ends it after that one exchange. */
  lemma InitializeOutcome(input: seq<bv8>, w: Wire, i: nat)
    requires i < 100
    ensures var x := CommandR1(input, w, SEND_OP_COND, 0);
      (x.value == 0x00 ==> Initialize(input, w, i) == Attempt(true, x.wire)) &&
      (x.value != 0x00 && x.value != R1_IDLE ==> Initialize(input, w, i) == Attempt(false, x.wire))
  {
  }

  /** From attempt i on, between one and 100 - i SEND_OP_COND frames are sent. */
  lemma {:induction false} InitializeFrames(input: seq<bv8>, w: Wire, i: nat)
    requires i < 100
    ensures var a := Initialize(input, w, i);
      var f := Frame(SEND_OP_COND, 0);
      Sent(w.log, f) < Sent(a.wire.log, f) <= Sent(w.log, f) + (100 - i)
    decreases 100 - i
  {
    var f := Frame(SEND_OP_COND, 0);
    var x := CommandR1(input, w, SEND_OP_COND, 0);
    assert Sent(x.wire.log, f) == Sent(w.log, f) + 1 by {
      assert x.wire.log == w.log + [Select, Send(f), Unselect];
    }
    if x.value == R1_IDLE && i + 1 < 100 {
      InitializeFrames(input, x.wire, i + 1);
    }
  }

  /** What bring-up leaves behind: its verdict, the link, the addressing mode
      and, once the CSD was read, the capacity assigned from it. */
  datatype Outcome = Outcome(ok: bool, wire: Wire, blockAddresses: bool, capacity: Option<bv32>)

  /** The INSERTED branch of `mmcConnect` up to its final state re-check.
      `decode` stands for `mmcsdGetCapacity`, which is not part of this model. */
  function Bringup(input: seq<bv8>, w: Wire, blockAddresses: bool, decode: seq<bv32> -> bv32): (o: Outcome)
    ensures blockAddresses ==> o.blockAddresses
    ensures o.ok ==> o.capacity.Some? && o.capacity.value != 0
    ensures CommandR3(input, GoIdle(input, Clocked(w), 0).wire, SEND_IF_COND, IF_COND_PATTERN).value == R1_ILLEGAL_IDLE
            ==> o.blockAddresses == blockAddresses
  {
    var idle := GoIdle(input, Clocked(w), 0);
    if !idle.ok then Outcome(false, idle.wire, blockAddresses, None)
    else
      var probe := CommandR3(input, idle.wire, SEND_IF_COND, IF_COND_PATTERN);
      if probe.value != R1_ILLEGAL_IDLE then
        var neg := Negotiate(input, probe.wire, 0);
        if !neg.ok then Outcome(false, neg.wire, blockAddresses, None)
        else
          var ocr := CommandR3(input, neg.wire, READ_OCR, 0);
          Configure(input, ocr.wire, blockAddresses || ocr.payload[0] & OCR_CCS != 0, decode)
      else Configure(input, probe.wire, blockAddresses, decode)
  }

  /** Low-speed start and 128 idle clocks (16 ignored bytes). */
  function Clocked(w: Wire): Wire
  {
    Emit(Advance(Emit(w, Start(LowSpeed)), 16), Ignore(16))
  }

  /** From SEND_OP_COND to the capacity check. The capacity is assigned as soon
      as the CSD is read, even when it is zero and bring-up then fails. */
  function Configure(input: seq<bv8>, w: Wire, blockAddresses: bool, decode: seq<bv32> -> bv32): (o: Outcome)
    ensures o.blockAddresses == blockAddresses
    ensures o.ok <==> o.capacity.Some? && o.capacity.value != 0
  {
    var init := Initialize(input, w, 0);
    if !init.ok then Outcome(false, init.wire, blockAddresses, None)
    else
      var blen := CommandR1(input, Emit(init.wire, Start(HighSpeed)), SET_BLOCKLEN, BLOCK_SIZE as bv32);
      if blen.value != 0x00 then Outcome(false, blen.wire, blockAddresses, None)
      else
        var csd := CsdRead(input, blen.wire);
        if csd.failed then Outcome(false, csd.wire, blockAddresses, None)
        else
          var capacity := decode(csd.csd);
          Outcome(capacity != 0, csd.wire, blockAddresses, Some(capacity))
  }

  /** How bring-up chooses the addressing mode. A card that answers
      SEND_IF_COND with 0x05 keeps the mode as it was. A card that answers
      otherwise and completes the negotiation is block-addressed when the
      Card Capacity Status bit (0x40 of the first OCR byte) is set, or when
      the driver already was. */
  lemma BringupAddressing(input: seq<bv8>, w: Wire, blockAddresses: bool, decode: seq<bv32> -> bv32)
    ensures var idle := GoIdle(input, Clocked(w), 0);
      var probe := CommandR3(input, idle.wire, SEND_IF_COND, IF_COND_PATTERN);
      var neg := Negotiate(input, probe.wire, 0);
      var ocr := CommandR3(input, neg.wire, READ_OCR, 0);
      var o := Bringup(input, w, blockAddresses, decode);
      (idle.ok && probe.value == R1_ILLEGAL_IDLE ==> o.blockAddresses == blockAddresses) &&
      (idle.ok && probe.value != R1_ILLEGAL_IDLE && neg.ok ==>
         o.blockAddresses == (blockAddresses || ocr.payload[0] & OCR_CCS != 0))
  {
  }

  /** A card that never drives its data-out line fails bring-up after exactly
      10 GO_IDLE_STATE frames, and nothing else is changed. */
  lemma SilentCardFails(input: seq<bv8>, w: Wire, blockAddresses: bool, decode: seq<bv32> -> bv32)
    requires forall k :: 0 <= k < |input| ==> input[k] == IDLE
    ensures var o := Bringup(input, w, blockAddresses, decode);
      !o.ok && o.capacity == None && o.blockAddresses == blockAddresses &&
      Sent(o.wire.log, Frame(GO_IDLE_STATE, 0)) == Sent(w.log, Frame(GO_IDLE_STATE, 0)) + 10
  {
    GoIdleSilent(input, Clocked(w), 0);
    GoIdleFrames(input, Clocked(w), 0);
    assert Sent(Clocked(w).log, Frame(GO_IDLE_STATE, 0)) == Sent(w.log, Frame(GO_IDLE_STATE, 0));
  }

  /** The GO_IDLE_STATE loop of `mmcConnect`. */
  method GoIdleLoop(spi: Link) returns (ok: bool)
    modifies spi
    ensures var a := GoIdle(spi.input, old(spi.State()), 0);
      ok == a.ok && spi.State() == a.wire
  {
    var i := 0;
    ghost var k := 0;
    ghost var goal := GoIdle(spi.input, spi.State(), 0);
    while true
      invariant 0 <= i < CMD0_RETRY && k == i
      invariant GoIdle(spi.input, spi.State(), k) == goal
      decreases CMD0_RETRY - i
    {
      ok, k := GoIdleRound(spi, k, goal);
      if ok {
        return;
      }
      i := i + 1;
      if i >= CMD0_RETRY {
        return;
      }
    }
  }

  /** One pass of the GO_IDLE_STATE loop: attempt i of the attempts whose
      whole run is `goal`. */
  method GoIdleRound(spi: Link, ghost i: nat, ghost goal: Attempt) returns (ok: bool, ghost next: nat)
    requires i < 10 && GoIdle(spi.input, spi.State(), i) == goal
    modifies spi
    ensures next == i + 1
    ensures ok || next >= 10 ==> goal == Attempt(ok, spi.State())
    ensures !ok && next < 10 ==> GoIdle(spi.input, spi.State(), next) == goal
  {
    next := i + 1;
    var r1 := SendCommandR1(spi, GO_IDLE_STATE, 0);
    ok := r1 == R1_IDLE;
  }

  /** One negotiation round of `mmcConnect`. */
  method AppOpCondRound(spi: Link) returns (ok: bool)
    modifies spi
    ensures var a := AppOpCond(spi.input, old(spi.State()));
      ok == a.ok && spi.State() == a.wire
  {
    var r1 := SendCommandR1(spi, APP_CMD, 0);
    if r1 != R1_IDLE {
      return false;
    }
    var r3, _ := SendCommandR3(spi, APP_OP_COND, ACMD41_ARG);
    ok := r3 == 0x00;
  }

  /** The APP_CMD/APP_OP_COND loop of `mmcConnect`. */
  method NegotiateLoop(spi: Link) returns (ok: bool)
    modifies spi
    ensures var a := Negotiate(spi.input, old(spi.State()), 0);
      ok == a.ok && spi.State() == a.wire
  {
    var i := 0;
    ghost var k := 0;
    ghost var goal := Negotiate(spi.input, spi.State(), 0);
    while true
      invariant 0 <= i < ACMD41_RETRY && k == i
      invariant Negotiate(spi.input, spi.State(), k) == goal
      decreases ACMD41_RETRY - i
    {
      ok, k := NegotiateRound(spi, k, goal);
      if ok {
        return;
      }
      i := i + 1;
      if i >= ACMD41_RETRY {
        return;
      }
    }
  }

  /** One pass of the negotiation loop: attempt i of the rounds whose whole
      run is `goal`. */
  method NegotiateRound(spi: Link, ghost i: nat, ghost goal: Attempt) returns (ok: bool, ghost next: nat)
    requires i < 100 && Negotiate(spi.input, spi.State(), i) == goal
    modifies spi
    ensures next == i + 1
    ensures ok || next >= 100 ==> goal == Attempt(ok, spi.State())
    ensures !ok && next < 100 ==> Negotiate(spi.input, spi.State(), next) == goal
  {
    next := i + 1;
    ok := AppOpCondRound(spi);
  }

  /** The SEND_OP_COND loop of `mmcConnect`. */
  method InitializeLoop(spi: Link) returns (ok: bool)
    modifies spi
    ensures var a := Initialize(spi.input, old(spi.State()), 0);
      ok == a.ok && spi.State() == a.wire
  {
    var i := 0;
    ghost var k := 0;
    ghost var goal := Initialize(spi.input, spi.State(), 0);
    while true
      invariant 0 <= i < CMD1_RETRY && k == i
      invariant Initialize(spi.input, spi.State(), k) == goal
      decreases CMD1_RETRY - i
    {
      var b;
      b, k := InitializeRound(spi, k, goal);
      if b == 0x00 {
        return true;
      }
      if b != R1_IDLE {
        return false;
      }
      i := i + 1;
      if i >= CMD1_RETRY {
        return false;
      }
    }
  }

  /** One pass of the SEND_OP_COND loop: attempt i of the attempts whose
      whole run is `goal`, returning the card's status. */
  method InitializeRound(spi: Link, ghost i: nat, ghost goal: Attempt) returns (r1: bv8, ghost next: nat)
    requires i < 100 && Initialize(spi.input, spi.State(), i) == goal
    modifies spi
    ensures next == i + 1
    ensures r1 == 0x00 ==> goal == Attempt(true, spi.State())
    ensures r1 != 0x00 && (r1 != R1_IDLE || next >= 100) ==> goal == Attempt(false, spi.State())
    ensures r1 == R1_IDLE && next < 100 ==> Initialize(spi.input, spi.State(), next) == goal
  {
    next := i + 1;
    r1 := SendCommandR1(spi, SEND_OP_COND, 0);
  }

  /** From SEND_OP_COND to the capacity: the steps `Configure` describes. */
  method ConfigureCard(spi: Link, blockAddresses: bool, decode: seq<bv32> -> bv32)
    returns (ok: bool, capacity: Option<bv32>)
    modifies spi
    ensures Configure(spi.input, old(spi.State()), blockAddresses, decode)
            == Outcome(ok, spi.State(), blockAddresses, capacity)
  {
    ok := InitializeLoop(spi);
    if !ok {
      return false, None;
    }
    spi.Start(HighSpeed);
    var r1 := SendCommandR1(spi, SET_BLOCKLEN, BLOCK_SIZE as bv32);
    if r1 != 0x00 {
      return false, None;
    }
    var csd := new bv32[4];
    var failed := ReadCsd(spi, csd);
    if failed {
      return false, None;
    }
    var c := decode(csd[..]);
    return c != 0, Some(c);
  }

  /** The INSERTED branch of `mmcConnect` up to its final re-check: the steps
      `Bringup` describes. */
  method BringupCard(spi: Link, blockAddresses: bool, decode: seq<bv32> -> bv32)
    returns (ok: bool, addressing: bool, capacity: Option<bv32>)
    modifies spi
    ensures Bringup(spi.input, old(spi.State()), blockAddresses, decode)
            == Outcome(ok, spi.State(), addressing, capacity)
  {
    addressing := blockAddresses;
    spi.Start(LowSpeed);
    spi.Ignore(16);
    ok := GoIdleLoop(spi);
    if !ok {
      return false, addressing, None;
    }
    var probe, _ := SendCommandR3(spi, SEND_IF_COND, IF_COND_PATTERN);
    if probe != R1_ILLEGAL_IDLE {
      ok := NegotiateLoop(spi);
      if !ok {
        return false, addressing, None;
      }
      var _, ocr := SendCommandR3(spi, READ_OCR, 0);
      if ocr[0] & OCR_CCS != 0 {
        addressing := true;
      }
    }
    ok, capacity := ConfigureCard(spi, addressing, decode);
  }
}
