/**
 * The SPI-mode command layer of the MMC driver (os/hal/src/mmc_spi.c): the
 * 6-byte command frame, the idle wait that precedes it, the R1 and R3
 * responses, the CSD read and the busy wait.
 *
 * Each operation is given twice: as a function of the card's byte stream and
 * the link state before the call (what the operation consumes and emits), and
 * as a method over a `Link` whose loops are proved to compute exactly that.
 * Frame layout, response shapes and tokens follow sections 7.3.1.1, 7.3.2 and
 * 7.3.3 of the SD Physical Layer Simplified Specification.
 */
module Protocol {
  import opened Bytes
  import opened Spi
  import Crc7

  /* Command indices (SD Physical Layer Simplified Specification, section 7.3.1.3). */
  const GO_IDLE_STATE: bv8 := 0
  const SEND_OP_COND: bv8 := 1
  const SEND_IF_COND: bv8 := 8
  const SEND_CSD: bv8 := 9
  const STOP_TRANSMISSION: bv8 := 12
  const SET_BLOCKLEN: bv8 := 16
  const READ_MULTIPLE_BLOCK: bv8 := 18
  const WRITE_MULTIPLE_BLOCK: bv8 := 25
  const APP_OP_COND: bv8 := 41
  const APP_CMD: bv8 := 55
  const READ_OCR: bv8 := 58

  /** Argument of SEND_IF_COND: 2.7-3.6 V supply and check pattern 0xAA. */
  const IF_COND_PATTERN: bv32 := 0x1AA

  /** Bytes per data block. */
  const BLOCK_SIZE: nat := 512

  /** Bytes polled for a start-block token before a read gives up, fixed at
      the driver header's default. */
  const WAIT_DATA: nat := 10000

  /** Bytes polled for an R1 response after a command. */
  const R1_TRIES: nat := 9

  /** Bytes the idle wait polls before it settles into its unbounded loop. */
  const FAST_WAIT_TRIES: nat := 16

  /** The start-block token that precedes a data block sent by the card. */
  const START_BLOCK: bv8 := 0xFE

  /** The value of an idle data-out line. */
  const IDLE: bv8 := 0xFF

  function IsIdle(b: bv8): bool { b == IDLE }

  function NotIdle(b: bv8): bool { b != IDLE }

  function IsStartBlock(b: bv8): bool { b == START_BLOCK }

  /** The first of `tries` positions from p whose byte satisfies `hit`, if any:
      the bounded polling loop shared by the R1 wait and the data-token waits. */
  function Seek(input: seq<bv8>, p: nat, tries: nat, hit: bv8 -> bool): (r: Option<nat>)
    ensures r.Some? ==> p <= r.value < p + tries && hit(Peek(input, r.value))
    decreases tries
  {
    if tries == 0 then None
    else if hit(Peek(input, p)) then Some(p)
    else Seek(input, p + 1, tries - 1, hit)
  }

  /** The position found is the first hit: no byte polled before it, or
      none of the `tries` bytes when nothing was found, satisfies `hit`. */
  lemma {:induction false} SeekFirst(input: seq<bv8>, p: nat, tries: nat, hit: bv8 -> bool)
    ensures var r := Seek(input, p, tries, hit);
      forall k :: p <= k < (if r.Some? then r.value else p + tries) ==> !hit(Peek(input, k))
    decreases tries
  {
    if tries > 0 && !hit(Peek(input, p)) {
      SeekFirst(input, p + 1, tries - 1, hit);
    }
  }

  /** Where the idle wait `wait` stops: just past the first 0xFF at or after p.
      The wait may be long but ends, since the line reads idle once the card
      has nothing more to say. */
  function IdleEnd(input: seq<bv8>, p: nat): (q: nat)
    ensures p < q
    decreases |input| - p
  {
    if Peek(input, p) == IDLE then p + 1 else IdleEnd(input, p + 1)
  }

  /** The wait stops on an idle byte, at the first one: every byte it skipped
      was busy, and it never runs past the end of the stream. */
  lemma {:induction false} IdleEndMeaning(input: seq<bv8>, p: nat)
    ensures var q := IdleEnd(input, p);
      Peek(input, q - 1) == IDLE &&
      (forall k :: p <= k < q - 1 ==> Peek(input, k) != IDLE) &&
      q <= if p < |input| then |input| + 1 else p + 1
    decreases |input| - p
  {
    if Peek(input, p) != IDLE {
      IdleEndMeaning(input, p + 1);
    }
  }

  /** A response byte and the cursor after it. */
  datatype Reply = Reply(value: bv8, next: nat)

  /** `recvr1`: at most nine bytes are read; the reply is the first that is not
      0xFF, or 0xFF when all nine were. */
  function R1At(input: seq<bv8>, p: nat): (r: Reply)
    ensures p < r.next <= p + R1_TRIES
  {
    match Seek(input, p, R1_TRIES, NotIdle)
    case Some(k) => Reply(Peek(input, k), k + 1)
    case None => Reply(IDLE, p + R1_TRIES)
  }

  /** The reply is the last byte read, every byte before it was idle, and an
      idle reply means all nine polls were spent. */
  lemma R1Meaning(input: seq<bv8>, p: nat)
    ensures var r := R1At(input, p);
      r.value == Peek(input, r.next - 1) &&
      (forall k :: p <= k < r.next - 1 ==> Peek(input, k) == IDLE) &&
      (r.value == IDLE ==> r.next == p + R1_TRIES)
  {
    SeekFirst(input, p, R1_TRIES, NotIdle);
  }

  /** The command frame `send_hdr` builds: start and transmission bits with the
      command index, the argument most significant byte first, and the CRC-7
      of those five bytes above the end bit. */
  function Frame(cmd: bv8, arg: bv32): (f: seq<bv8>)
    ensures |f| == 6
  {
    var head := [0x40 | cmd] + BeBytes(arg);
    head + [((Crc7.Crc7(0, head) & 0x7F) << 1) | 0x01]
  }

  /** A command as the card decodes it from a frame. */
  datatype Command = Command(index: bv8, arg: bv32)

  /** The card's side of section 7.3.1.1 of the SD Physical Layer Simplified
      Specification: a frame is accepted when its start bits are 01, its end
      bit is 1 and its CRC field is the remainder of the first five bytes by
      x^7 + x^3 + 1, computed bit by bit. */
  function ParseFrame(f: seq<bv8>): Option<Command>
  {
    if |f| != 6 || f[0] & 0xC0 != 0x40 || f[5] & 0x01 != 0x01 then None
    else if f[5] >> 1 != Crc7.Crc7Serial(0, f[..5]) then None
    else Some(Command(f[0] & 0x3F, BeWord(f[1..5])))
  }

  /** The frame layout: first byte 0x40 | cmd, then the argument big-endian,
      then a last byte that is always odd and carries the polynomial remainder
      of the first five bytes. */
  lemma FrameLayout(cmd: bv8, arg: bv32)
    ensures Frame(cmd, arg)[0] == 0x40 | cmd
    ensures Frame(cmd, arg)[1..5] == BeBytes(arg)
    ensures Frame(cmd, arg)[5] & 0x01 == 0x01
    ensures Frame(cmd, arg)[5] >> 1 == Crc7.Crc7Serial(0, Frame(cmd, arg)[..5])
  {
    var f := Frame(cmd, arg);
    var c := Crc7.Crc7(0, f[..5]);
    assert f[..5] == [0x40 | cmd] + BeBytes(arg);
    Crc7.Crc7IsPolynomialDivision(0, f[..5]);
    assert f[5] == ((c & 0x7F) << 1) | 0x01;
    LastByte(c);
  }

  /** The CRC field and the end bit share the last byte without overlap. */
  lemma LastByte(c: bv8)
    requires c < 0x80
    ensures (((c & 0x7F) << 1) | 0x01) & 0x01 == 0x01
    ensures (((c & 0x7F) << 1) | 0x01) >> 1 == c
  {
  }

  /** Every frame the driver builds for a 6-bit command index is accepted by
      the card as that command with that argument. */
  lemma FrameParses(cmd: bv8, arg: bv32)
    requires cmd < 0x40
    ensures ParseFrame(Frame(cmd, arg)) == Some(Command(cmd, arg))
  {
    var f := Frame(cmd, arg);
    FrameLayout(cmd, arg);
    assert (0x40 | cmd) & 0xC0 == 0x40 && (0x40 | cmd) & 0x3F == cmd;
    WordRoundTrip(arg);
  }

  /** Conversely, a frame the card accepts is the one the driver builds for
      the command it decodes. */
  lemma ParsedFrameIsBuilt(f: seq<bv8>)
    requires ParseFrame(f).Some?
    ensures ParseFrame(f).value.index < 0x40
    ensures Frame(ParseFrame(f).value.index, ParseFrame(f).value.arg) == f
  {
    var c := ParseFrame(f).value;
    FirstByte(f[0]);
    BuiltFrame(c.index, c.arg, f);
  }

  /** The frame layout determines the frame: a six-byte sequence laid out as
      FrameLayout describes for cmd and arg is Frame(cmd, arg). */
  lemma BuiltFrame(cmd: bv8, arg: bv32, f: seq<bv8>)
    requires |f| == 6 && f[0] == 0x40 | cmd && f[1..5] == BeBytes(arg)
    requires f[5] & 0x01 == 0x01 && f[5] >> 1 == Crc7.Crc7Serial(0, f[..5])
    ensures Frame(cmd, arg) == f
  {
    var g := Frame(cmd, arg);
    FrameLayout(cmd, arg);
    assert g[..5] == f[..5] by {
      assert g[..5] == [g[0]] + g[1..5] && f[..5] == [f[0]] + f[1..5];
    }
    SameByte(g[5], f[5]);
    SameFrame(g, f);
  }

  /** Six-byte frames that agree on their first five bytes and their last are equal. */
  lemma SameFrame(g: seq<bv8>, f: seq<bv8>)
    requires |g| == 6 && |f| == 6 && g[..5] == f[..5] && g[5] == f[5]
    ensures g == f
  {
    assert g == g[..5] + [g[5]] && f == f[..5] + [f[5]];
  }

  /** A first byte with start bits 01 is 0x40 joined to its 6-bit index. */
  lemma FirstByte(b: bv8)
    requires b & 0xC0 == 0x40
    ensures b & 0x3F < 0x40 && 0x40 | (b & 0x3F) == b
  {
  }

  /** Bytes that agree in the end bit and in the seven bits above it are equal. */
  lemma SameByte(a: bv8, b: bv8)
    requires a & 0x01 == b & 0x01 && a >> 1 == b >> 1
    ensures a == b
  {
  }

  /** Reference value from section 4.5 of the SD Physical Layer Simplified
      Specification: GO_IDLE_STATE with argument 0 ends in 0x95. */
  lemma GoIdleFrame()
    ensures Frame(GO_IDLE_STATE, 0) == [0x40, 0x00, 0x00, 0x00, 0x00, 0x95]
  {
    assert [0x40 | GO_IDLE_STATE] + BeBytes(0) == [0x40, 0x00, 0x00, 0x00, 0x00];
    calc {
      Crc7.Crc7(0, [0x40, 0x00, 0x00, 0x00, 0x00]);
      { assert Crc7.Lookup(0x40) == 0x64; }
      Crc7.Crc7(0x64, [0x00, 0x00, 0x00, 0x00]);
      { assert Crc7.Lookup(0xC8) == 0x6D; }
      Crc7.Crc7(0x6D, [0x00, 0x00, 0x00]);
      { assert Crc7.Lookup(0xDA) == 0x66; }
      Crc7.Crc7(0x66, [0x00, 0x00]);
      { assert Crc7.Lookup(0xCC) == 0x49; }
      Crc7.Crc7(0x49, [0x00]);
      { assert Crc7.Lookup(0x92) == 0x4A; }
      0x4A;
    }
  }

  /** SEND_IF_COND with the 0x1AA pattern ends in 0x87. */
  lemma IfCondFrame()
    ensures Frame(SEND_IF_COND, IF_COND_PATTERN) == [0x48, 0x00, 0x00, 0x01, 0xAA, 0x87]
  {
    assert [0x40 | SEND_IF_COND] + BeBytes(IF_COND_PATTERN) == [0x48, 0x00, 0x00, 0x01, 0xAA];
    calc {
      Crc7.Crc7(0, [0x48, 0x00, 0x00, 0x01, 0xAA]);
      { assert Crc7.Lookup(0x48) == 0x2C; }
      Crc7.Crc7(0x2C, [0x00, 0x00, 0x01, 0xAA]);
      { assert Crc7.Lookup(0x58) == 0x35; }
      Crc7.Crc7(0x35, [0x00, 0x01, 0xAA]);
      { assert Crc7.Lookup(0x6A) == 0x0C; }
      Crc7.Crc7(0x0C, [0x01, 0xAA]);
      { assert Crc7.Lookup(0x19) == 0x58; }
      Crc7.Crc7(0x58, [0xAA]);
      { assert Crc7.Lookup(0x1A) == 0x43; }
      0x43;
    }
  }

  /** A response and the link state after the exchange that produced it. */
  datatype Response = Response(value: bv8, payload: seq<bv8>, wire: Wire)

  /** `send_hdr`: the idle wait, then the frame. */
  function HeaderSent(input: seq<bv8>, w: Wire, cmd: bv8, arg: bv32): Wire
  {
    Emit(w.(pos := IdleEnd(input, w.pos)), Send(Frame(cmd, arg)))
  }

  /** `send_command_R1`: select, header, R1, unselect. The exchange always
      ends deselected, emits exactly one frame, and consumes the idle wait
      plus at most nine response bytes. */
  function CommandR1(input: seq<bv8>, w: Wire, cmd: bv8, arg: bv32): (r: Response)
    ensures r.wire.log == w.log + [Select, Send(Frame(cmd, arg)), Unselect]
    ensures IdleEnd(input, w.pos) < r.wire.pos <= IdleEnd(input, w.pos) + R1_TRIES
    ensures r.payload == []
  {
    var h := HeaderSent(input, Emit(w, Select), cmd, arg);
    var r1 := R1At(input, h.pos);
    Response(r1.value, [], Emit(h.(pos := r1.next), Unselect))
  }

  /** `send_command_R3`: as `send_command_R1`, but after the R1 byte four more
      bytes are always read, whatever the R1 byte was. */
  function CommandR3(input: seq<bv8>, w: Wire, cmd: bv8, arg: bv32): (r: Response)
    ensures r.value == CommandR1(input, w, cmd, arg).value
    ensures r.wire.log == CommandR1(input, w, cmd, arg).wire.log
    ensures r.wire.pos == CommandR1(input, w, cmd, arg).wire.pos + 4
    ensures r.payload == Window(input, CommandR1(input, w, cmd, arg).wire.pos, 4)
  {
    var h := HeaderSent(input, Emit(w, Select), cmd, arg);
    var r1 := R1At(input, h.pos);
    Response(r1.value, Window(input, r1.next, 4), Emit(h.(pos := r1.next + 4), Unselect))
  }

  /** The CSD register as `read_CSD` stores it from the 16 bytes that follow
      the start token: word 3 holds bytes 0-3 and word 0 holds bytes 12-15,
      each most significant byte first. */
  function CsdWords(b: seq<bv8>): (csd: seq<bv32>)
    requires |b| == 16
    ensures |csd| == 4
  {
    [BeWord(b[12..16]), BeWord(b[8..12]), BeWord(b[4..8]), BeWord(b[0..4])]
  }

  /** The bytes a card sends for a CSD register held as four words. */
  function CsdBytes(csd: seq<bv32>): (b: seq<bv8>)
    requires |csd| == 4
    ensures |b| == 16
  {
    BeBytes(csd[3]) + BeBytes(csd[2]) + BeBytes(csd[1]) + BeBytes(csd[0])
  }

  /** Assembling the received bytes loses nothing: they can be regenerated. */
  lemma CsdBytesRoundTrip(b: seq<bv8>)
    requires |b| == 16
    ensures CsdBytes(CsdWords(b)) == b
  {
    var csd := CsdWords(b);
    assert b == b[0..4] + b[4..8] + b[8..12] + b[12..16];
  }

  /** And every register value is received as itself. */
  lemma CsdWordsRoundTrip(csd: seq<bv32>)
    requires |csd| == 4
    ensures CsdWords(CsdBytes(csd)) == csd
  {
    var b := CsdBytes(csd);
    assert b[0..4] == BeBytes(csd[3]) && b[4..8] == BeBytes(csd[2]);
    assert b[8..12] == BeBytes(csd[1]) && b[12..16] == BeBytes(csd[0]);
    WordRoundTrip(csd[0]);
    WordRoundTrip(csd[1]);
    WordRoundTrip(csd[2]);
    WordRoundTrip(csd[3]);
  }

  /** The result of `read_CSD`: `failed` is its TRUE return. */
  datatype CsdOutcome = CsdOutcome(failed: bool, csd: seq<bv32>, wire: Wire)

  /** `read_CSD`. A rejected SEND_CSD deselects and fails; no start token
      within WAIT_DATA bytes fails and leaves the card selected; otherwise the
      16 register bytes are assembled, the two CRC bytes are clocked away and
      the card is deselected. */
  function CsdRead(input: seq<bv8>, w: Wire): (r: CsdOutcome)
    ensures r.failed <==> r.csd == []
    ensures !r.failed ==> |r.csd| == 4
    ensures !r.failed ==> r.wire.log == w.log + [Select, Send(Frame(SEND_CSD, 0)), Ignore(2), Unselect]
    ensures R1At(input, IdleEnd(input, w.pos)).value != 0x00 ==>
              r.failed && r.wire.log == w.log + [Select, Send(Frame(SEND_CSD, 0)), Unselect]
    ensures R1At(input, IdleEnd(input, w.pos)).value == 0x00 && r.failed ==>
              r.wire.log == w.log + [Select, Send(Frame(SEND_CSD, 0))]
  {
    var h := HeaderSent(input, Emit(w, Select), SEND_CSD, 0);
    var r1 := R1At(input, h.pos);
    if r1.value != 0x00 then
      CsdOutcome(true, [], Emit(h.(pos := r1.next), Unselect))
    else
      match Seek(input, r1.next, WAIT_DATA, IsStartBlock)
      case None => CsdOutcome(true, [], h.(pos := r1.next + WAIT_DATA))
      case Some(t) =>
        var data := Window(input, t + 1, 16);
        CsdOutcome(false, CsdWords(data), Emit(Emit(h.(pos := t + 19), Ignore(2)), Unselect))
  }

  /** Where a successful `read_CSD` found its data: after an accepted
      SEND_CSD, at the first start token, within WAIT_DATA polls; the sixteen
      register bytes and two CRC bytes follow the token. */
  lemma CsdReadToken(input: seq<bv8>, w: Wire)
    requires !CsdRead(input, w).failed
    ensures var r := CsdRead(input, w);
      var r1 := R1At(input, IdleEnd(input, w.pos));
      r1.value == 0x00 && r1.next + 19 <= r.wire.pos < r1.next + WAIT_DATA + 19 &&
      Peek(input, r.wire.pos - 19) == START_BLOCK &&
      (forall k :: r1.next <= k < r.wire.pos - 19 ==> Peek(input, k) != START_BLOCK)
  {
    var h := HeaderSent(input, Emit(w, Select), SEND_CSD, 0);
    assert h.pos == IdleEnd(input, w.pos);
    var r1 := R1At(input, h.pos);
    SeekFirst(input, r1.next, WAIT_DATA, IsStartBlock);
  }

  /** After an accepted SEND_CSD, `read_CSD` times out exactly when none of
      the WAIT_DATA polled bytes is a start token, and then the cursor is just
      past the last poll. */
  lemma CsdReadTimeout(input: seq<bv8>, w: Wire)
    requires R1At(input, IdleEnd(input, w.pos)).value == 0x00
    ensures var r := CsdRead(input, w);
      var r1 := R1At(input, IdleEnd(input, w.pos));
      (r.failed <==> forall k :: r1.next <= k < r1.next + WAIT_DATA ==> Peek(input, k) != START_BLOCK) &&
      (r.failed ==> r.wire.pos == r1.next + WAIT_DATA)
  {
    var h := HeaderSent(input, Emit(w, Select), SEND_CSD, 0);
    assert h.pos == IdleEnd(input, w.pos);
    var r1 := R1At(input, h.pos);
    SeekFirst(input, r1.next, WAIT_DATA, IsStartBlock);
  }

  /** What a successful `read_CSD` stores: the sixteen bytes after the start
      token, assembled into the register words. */
  lemma CsdReadContents(input: seq<bv8>, w: Wire)
    requires !CsdRead(input, w).failed
    ensures var r := CsdRead(input, w);
      CsdBytes(r.csd) == Window(input, r.wire.pos - 18, 16)
  {
    var r := CsdRead(input, w);
    var h := HeaderSent(input, Emit(w, Select), SEND_CSD, 0);
    var r1 := R1At(input, h.pos);
    var s := Seek(input, r1.next, WAIT_DATA, IsStartBlock);
    assert s.Some?;
    var t := s.value;
    assert r.wire.pos == t + 19 && r.csd == CsdWords(Window(input, t + 1, 16));
    CsdBytesRoundTrip(Window(input, t + 1, 16));
  }

  /** `sync`: select, wait for an idle byte, deselect. */
  function Synced(input: seq<bv8>, w: Wire): Wire
  {
    Emit(Emit(w, Select).(pos := IdleEnd(input, w.pos)), Unselect)
  }

  /** `wait`: sixteen quick polls, then an open-ended loop, both stopping at
      the first idle byte; together they consume exactly up to that byte. */
  method Wait(spi: Link)
    modifies spi
    ensures spi.State() == old(spi.State()).(pos := IdleEnd(spi.input, old(spi.pos)))
  {
    ghost var target := IdleEnd(spi.input, spi.pos);
    var i := 0;
    while i < FAST_WAIT_TRIES
      invariant 0 <= i <= FAST_WAIT_TRIES
      invariant spi.pos == old(spi.pos) + i && spi.log == old(spi.log)
      invariant IdleEnd(spi.input, spi.pos) == target
    {
      var b := spi.Receive(1);
      if b[0] == IDLE {
        return;
      }
      i := i + 1;
    }
    while true
      invariant spi.log == old(spi.log)
      invariant IdleEnd(spi.input, spi.pos) == target
      decreases target - spi.pos
    {
      var b := spi.Receive(1);
      if b[0] == IDLE {
        break;
      }
    }
  }

  /** `send_hdr`. */
  method SendHdr(spi: Link, cmd: bv8, arg: bv32)
    modifies spi
    ensures spi.State() == HeaderSent(spi.input, old(spi.State()), cmd, arg)
  {
    Wait(spi);
    spi.Send(Frame(cmd, arg));
  }

  /** `recvr1`: polls at most nine bytes for one that is not 0xFF. */
  method RecvR1(spi: Link) returns (r1: bv8)
    modifies spi
    ensures var r := R1At(spi.input, old(spi.pos));
      r1 == r.value && spi.State() == old(spi.State()).(pos := r.next)
  {
    var i := 0;
    while i < R1_TRIES
      invariant 0 <= i <= R1_TRIES
      invariant spi.pos == old(spi.pos) + i && spi.log == old(spi.log)
      invariant Seek(spi.input, spi.pos, R1_TRIES - i, NotIdle) == Seek(spi.input, old(spi.pos), R1_TRIES, NotIdle)
    {
      var b := spi.Receive(1);
      if b[0] != IDLE {
        assert Seek(spi.input, old(spi.pos), R1_TRIES, NotIdle) == Some(spi.pos - 1);
        return b[0];
      }
      i := i + 1;
    }
    assert Seek(spi.input, old(spi.pos), R1_TRIES, NotIdle) == None;
    return IDLE;
  }

  /** `recvr3`: the R1 byte, then four payload bytes read unconditionally. */
  method RecvR3(spi: Link) returns (r1: bv8, payload: seq<bv8>)
    modifies spi
    ensures var r := R1At(spi.input, old(spi.pos));
      r1 == r.value && payload == Window(spi.input, r.next, 4) && spi.State() == old(spi.State()).(pos := r.next + 4)
  {
    r1 := RecvR1(spi);
    payload := spi.Receive(4);
  }

  /** `send_command_R1`. */
  method SendCommandR1(spi: Link, cmd: bv8, arg: bv32) returns (r1: bv8)
    modifies spi
    ensures var r := CommandR1(spi.input, old(spi.State()), cmd, arg);
      r1 == r.value && spi.State() == r.wire
  {
    spi.Select();
    SendHdr(spi, cmd, arg);
    r1 := RecvR1(spi);
    spi.Unselect();
  }

  /** `send_command_R3`. */
  method SendCommandR3(spi: Link, cmd: bv8, arg: bv32) returns (r1: bv8, response: seq<bv8>)
    modifies spi
    ensures var r := CommandR3(spi.input, old(spi.State()), cmd, arg);
      r1 == r.value && response == r.payload && spi.State() == r.wire
  {
    spi.Select();
    SendHdr(spi, cmd, arg);
    r1, response := RecvR3(spi);
    spi.Unselect();
  }

  /** The start-token poll of `read_CSD` and `mmcSequentialRead`: up to
      WAIT_DATA single-byte reads, stopping just after a 0xFE. `last` is the
      last byte read, which the sequential read leaves in its buffer. */
  method PollToken(spi: Link) returns (found: bool, last: bv8)
    modifies spi
    ensures var s := Seek(spi.input, old(spi.pos), WAIT_DATA, IsStartBlock);
      found == s.Some? &&
      spi.State() == old(spi.State()).(pos := if found then s.value + 1 else old(spi.pos) + WAIT_DATA) &&
      last == Peek(spi.input, spi.pos - 1)
  {
    ghost var scan := Seek(spi.input, spi.pos, WAIT_DATA, IsStartBlock);
    var i := 0;
    last := 0;
    while i < WAIT_DATA
      invariant 0 <= i <= WAIT_DATA
      invariant spi.pos == old(spi.pos) + i && spi.log == old(spi.log)
      invariant Seek(spi.input, spi.pos, WAIT_DATA - i, IsStartBlock) == scan
      invariant i > 0 ==> last == Peek(spi.input, spi.pos - 1)
    {
      ghost var here := spi.pos;
      var b := spi.Receive(1);
      last := b[0];
      if last == START_BLOCK {
        assert scan == Some(here);
        return true, last;
      }
      i := i + 1;
    }
    assert scan == None;
    return false, last;
  }

  /** `read_CSD`: on success `csd` holds the register; on failure it is untouched. */
  method ReadCsd(spi: Link, csd: array<bv32>) returns (failed: bool)
    requires csd.Length == 4
    modifies spi, csd
    ensures var r := CsdRead(spi.input, old(spi.State()));
      failed == r.failed && spi.State() == r.wire &&
      csd[..] == if failed then old(csd[..]) else r.csd
  {
    ghost var w := spi.State();
    ghost var h := HeaderSent(spi.input, Emit(w, Select), SEND_CSD, 0);
    ghost var reply := R1At(spi.input, h.pos);
    ghost var scan := Seek(spi.input, reply.next, WAIT_DATA, IsStartBlock);
    spi.Select();
    SendHdr(spi, SEND_CSD, 0);
    var r1 := RecvR1(spi);
    if r1 != 0x00 {
      spi.Unselect();
      assert CsdRead(spi.input, w) == CsdOutcome(true, [], spi.State());
      return true;
    }
    var found, _ := PollToken(spi);
    if !found {
      assert CsdRead(spi.input, w) == CsdOutcome(true, [], spi.State());
      return true;
    }
    var buf := spi.Receive(16);
    assert buf == Window(spi.input, scan.value + 1, 16);
    StoreCsd(csd, buf);
    spi.Ignore(2);
    spi.Unselect();
    assert CsdRead(spi.input, w) == CsdOutcome(false, CsdWords(buf), spi.State());
    return false;
  }

  /** The word-assembly loop of `read_CSD`: word pointer from `csd[3]` down to
      `csd[0]`, byte pointer advancing four bytes per word. */
  method StoreCsd(csd: array<bv32>, buf: seq<bv8>)
    requires csd.Length == 4 && |buf| == 16
    modifies csd
    ensures csd[..] == CsdWords(buf)
  {
    var wp := 4;
    var bp := 0;
    while wp > 0
      invariant 0 <= wp <= 4 && bp == 4 * (4 - wp)
      invariant forall k :: wp <= k < 4 ==> csd[k] == CsdWords(buf)[k]
    {
      wp := wp - 1;
      csd[wp] := BeWord(buf[bp..bp + 4]);
      bp := bp + 4;
    }
    assert csd[..] == [csd[0], csd[1], csd[2], csd[3]];
  }

  /** `sync`: select, wait until the card stops signalling busy, deselect. */
  method Sync(spi: Link)
    modifies spi
    ensures spi.State() == Synced(spi.input, old(spi.State()))
  {
    spi.Select();
    ghost var target := IdleEnd(spi.input, spi.pos);
    while true
      invariant spi.log == old(spi.log) + [Select]
      invariant IdleEnd(spi.input, spi.pos) == target
      decreases target - spi.pos
    {
      var b := spi.Receive(1);
      if b[0] == IDLE {
        break;
      }
    }
    spi.Unselect();
  }
}
