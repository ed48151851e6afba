# MMC/SD over SPI driver: a Dafny model

This project models the MMC/SD-card-over-SPI driver of ChibiOS/RT,
`os/hal/src/mmc_spi.c`, and proves properties of that model. The driver turns
the raw byte stream of an SPI link into a block device. It covers:

- card detection by a debouncing presence monitor;
- card bring-up: GO_IDLE_STATE, the SEND_IF_COND probe, APP_CMD/APP_OP_COND
  negotiation, the OCR read that selects block addressing, SEND_OP_COND,
  SET_BLOCKLEN and the CSD read that yields the capacity;
- sequential multiple-block reads and writes;
- the `mmc_read`/`mmc_write` block-device entry points built on them.

The SPI link is a `Spi.Link` object. Its `input` is the byte stream the card
returns and `pos` is how far the driver has read it. `log` records every bus
operation: start at a speed, stop, select, unselect, send bytes, ignore n
bytes. Reading past the end of `input` yields 0xFF, an idle line.

Every protocol operation is written twice:

- a function of the input stream and the link state before the call. It says
  what the operation consumes and emits: `CommandR1`, `CsdRead`, `Bringup`,
  `BlockRead`, `BlockWrites`, `ReadTransfer`, and so on;
- a method over the `Link`, with the source's loops. Each method is proved to
  compute exactly that function.

Lemmas then say what the functions mean:

- the CRC-7 table fold is polynomial division by x^7 + x^3 + 1;
- every frame the driver builds parses back to its command and argument;
- the reference CRC bytes of GO_IDLE_STATE and SEND_IF_COND are reproduced;
- `recvr1` returns the first non-idle byte of at most nine;
- a CSD read stores the sixteen bytes after the first start token;
- the retry loops send bounded numbers of frames;
- a read transfer delivers the blocks after the tokens and always ends
  deselected;
- a successful write transfer sends exactly the caller's blocks, in order;
- the presence monitor keeps its counter coherent and its insertion and
  removal events strictly alternate.

The driver object is the class `Mmc.MmcDriver`. Its fields are `state`,
`cnt`, `blockAddresses`, `capacity`, `armed` (the monitor's timer) and
`signals` (the events broadcast so far). Each `chSysLock`..`chSysUnlock`
region is one atomic step. Where the source re-checks the state after talking
to the card, the method takes the sensor readings the monitor saw in the
meantime (`readings`) and runs the monitor on them first. Every method keeps
the driver invariant `Sound`:

- the monitor runs exactly when the driver is started;
- the debounce counter is non-zero exactly in WAIT.

Where the code does not do what is evidently intended, the model follows the
code:

- `mmcDisconnect` has no `break` in its `switch`, so it reports failure in
  every state. Its own doc comment (lines 596-598) promises success, with the
  driver in INSERTED.
- Bring-up takes the high-capacity branch whenever the SEND_IF_COND R1 is not
  0x05. It never checks the echoed check pattern in the R3 payload. An earlier
  `blockAddresses` of true is never cleared back to byte addressing.
- `read_CSD` returns on a start-token timeout without deselecting the card.
  Every other failure path deselects.

`mmcStopSequentialRead` sends a fixed 7-byte STOP_TRANSMISSION constant whose
CRC field is 0 (`StopReadFrame`). The R1 byte after it is read and deliberately
ignored (lines 736-738). In SPI mode a card checks the CRC of commands other
than GO_IDLE_STATE and SEND_IF_COND only after CRC_ON_OFF has enabled checking,
and this driver never sends that command, so the zero field is accepted.

`mmcStopSequentialWrite` reports failure when the monitor moved the driver out
of WRITING in the meantime, through its own final `if`/`else` (lines 863-870).

Constants follow the SD Physical Layer Simplified Specification:

- CRC-7 in section 4.5;
- the OCR CCS bit in section 5.1;
- the command frame in section 7.3.1.1;
- R1/R3 responses in section 7.3.2;
- start-block, data response and stop tokens in section 7.3.3.

## Model

| member | source | states |
|---|---|---|
| Crc7.Row | os/hal/src/mmc_spi.c:74-97 | one row of `crc7_lookup_table`; every entry of it has its top bit clear |
| Crc7.Entry | os/hal/src/mmc_spi.c:74-97 | an entry of a row whose entries have clear top bits is below 0x80 |
| Crc7.TableIndex | os/hal/src/mmc_spi.c:146 | the index `(crc << 1) ^ byte` stays inside the 256-entry table exactly when the running CRC fits in 7 bits, and then equals the byte-wide XOR |
| Crc7.Lookup | os/hal/src/mmc_spi.c:74-97 | every table entry is a 7-bit value |
| Crc7.Crc7 | os/hal/src/mmc_spi.c:143-148 | the fold keeps a 7-bit seed 7-bit, and an empty buffer returns the seed unchanged |
| Crc7.BitStep | os/hal/src/mmc_spi.c:74-97 | one clock of the x^7 + x^3 + 1 shift register keeps the register within 7 bits |
| Crc7.Crc7Serial | os/hal/src/mmc_spi.c:74-97 | the bit-serial remainder modulo x^7 + x^3 + 1 that the table encodes; `Crc7IsPolynomialDivision` proves the table fold equal to it |
| Crc7.RowMatchesDivision | os/hal/src/mmc_spi.c:74-97 | every table entry is the remainder its index leaves when shifted through a cleared register |
| Crc7.ShiftByteAligned | os/hal/src/mmc_spi.c:146 | shifting byte b into register crc equals shifting `(crc << 1) ^ b` into a cleared register, which is why one lookup per byte suffices |
| Crc7.LookupIsByteShift | os/hal/src/mmc_spi.c:146 | one step of the table fold is eight clocks of the shift register |
| Crc7.Crc7IsPolynomialDivision | os/hal/src/mmc_spi.c:143-148 | for every 7-bit seed and every buffer, `crc7` equals bit-serial polynomial division |
| Bytes.BeBytes | os/hal/src/mmc_spi.c:225-229 | the argument field has four bytes |
| Bytes.BeWord | os/hal/src/mmc_spi.c:353-354 | the word assembled from four bytes, most significant first, packs back into exactly those bytes |
| Bytes.WordRoundTrip | os/hal/src/mmc_spi.c:353-354 | packing a word into bytes and assembling it again gives the word |
| Spi.Window | os/hal/src/mmc_spi.c:350 | the n bytes received from a position, an idle 0xFF past the end of the stream |
| Spi.Link.Start | os/hal/src/mmc_spi.c:503 | `spiStart` logs a start at the given speed and changes nothing else |
| Spi.Link.Stop | os/hal/src/mmc_spi.c:471 | `spiStop` logs a stop |
| Spi.Link.Select | os/hal/src/mmc_spi.c:290 | `spiSelect` logs a select |
| Spi.Link.Unselect | os/hal/src/mmc_spi.c:293 | `spiUnselect` logs an unselect |
| Spi.Link.Send | os/hal/src/mmc_spi.c:233 | `spiSend` logs the bytes sent and reads nothing |
| Spi.Link.Ignore | os/hal/src/mmc_spi.c:504 | `spiIgnore` consumes n bytes and logs that |
| Spi.Link.Receive | os/hal/src/mmc_spi.c:194 | `spiReceive` returns the next n bytes of the stream and logs nothing |
| Spi.Link.ReceiveInto | os/hal/src/mmc_spi.c:696 | `spiReceive` into a buffer writes the next n bytes at the offset and leaves the rest of the buffer alone |
| Presence.Debounce | os/hal/src/mmc_spi.c:157-180 | the insertion event fires exactly when the countdown reaches zero, with state INSERTED; the removal event fires exactly when a zero counter is refilled, with state WAIT; otherwise the state is kept; a "not inserted" reading while counting restarts the counter; an "inserted" reading decrements a non-zero counter; with the counter at zero a "not inserted" reading gives exactly WAIT, a full counter and one removal event, and an "inserted" reading changes nothing |
| Presence.DebounceKeepsCoherent | os/hal/src/mmc_spi.c:157-180 | one callback keeps the counter in range and non-zero exactly in WAIT |
| Presence.RunAppend | os/hal/src/mmc_spi.c:157-180 | monitor runs compose: final state and events of two runs in a row equal those of the joined run |
| Presence.RunKeepsCoherent | os/hal/src/mmc_spi.c:157-180 | any run keeps the monitor coherent and leaves the state where it was or in WAIT or INSERTED |
| Presence.CountdownCompletes | os/hal/src/mmc_spi.c:161-166 | k "inserted" readings with k on the counter make the card INSERTED with exactly one insertion event |
| Presence.CountdownPending | os/hal/src/mmc_spi.c:161-163 | fewer readings than the counter holds lower it by their number and raise no event |
| Presence.RemovalSignalled | os/hal/src/mmc_spi.c:171-177 | from a settled monitor, any number of "inserted" readings followed by one "not inserted" reading end in WAIT with a full counter and exactly one removal event |
| Presence.Run | os/hal/src/mmc_spi.c:157-180 | the callback firing once per reading, collecting the events in order; its properties are `RunAppend`, `RunKeepsCoherent`, `CountdownCompletes`, `CountdownPending`, `RemovalSignalled` and `SignalsAlternate` |
| Presence.SignalsAlternate | os/hal/src/mmc_spi.c:157-180 | insertion and removal events strictly alternate, starting with the one the counter predicts |
| Protocol.Seek | os/hal/src/mmc_spi.c:249-253 | a bounded poll finds a position within its window whose byte matches |
| Protocol.SeekFirst | os/hal/src/mmc_spi.c:249-253 | the position found is the first match; no byte in the window matches when none is found |
| Protocol.IdleEnd | os/hal/src/mmc_spi.c:189-208 | the idle wait always consumes at least one byte |
| Protocol.IdleEndMeaning | os/hal/src/mmc_spi.c:189-208 | the wait stops just after the first 0xFF, every byte skipped was busy, and it never runs past the end of the stream |
| Protocol.R1At | os/hal/src/mmc_spi.c:245-255 | `recvr1` consumes between one and nine bytes |
| Protocol.R1Meaning | os/hal/src/mmc_spi.c:245-255 | the reply is the last byte read, all bytes before it were 0xFF, and a 0xFF reply means all nine polls were spent |
| Protocol.Frame | os/hal/src/mmc_spi.c:219-234 | the command frame has six bytes |
| Protocol.FrameLayout | os/hal/src/mmc_spi.c:225-231 | the frame is 0x40 OR cmd, the argument big-endian, then an odd last byte whose upper seven bits are the polynomial remainder of the first five bytes |
| Protocol.LastByte | os/hal/src/mmc_spi.c:231 | the CRC field and the end bit share the last byte without overlap |
| Protocol.ParseFrame | os/hal/src/mmc_spi.c:225-231 | the card's acceptance check of a command frame, with the CRC computed bit by bit; the partner of `Frame` in `FrameParses` and `ParsedFrameIsBuilt` |
| Protocol.FrameParses | os/hal/src/mmc_spi.c:225-231 | the card's check of section 7.3.1.1 of the SD Physical Layer Simplified Specification accepts every frame the driver builds for a 6-bit command, decoding that command and argument |
| Protocol.ParsedFrameIsBuilt | os/hal/src/mmc_spi.c:225-231 | conversely, every frame the card accepts is the driver's frame for the command it decodes |
| Protocol.BuiltFrame | os/hal/src/mmc_spi.c:225-231 | the layout determines the frame |
| Protocol.GoIdleFrame | os/hal/src/mmc_spi.c:509 | GO_IDLE_STATE with argument 0 is 40 00 00 00 00 95, the reference frame |
| Protocol.IfCondFrame | os/hal/src/mmc_spi.c:521-522 | SEND_IF_COND with pattern 0x1AA is 48 00 00 01 AA 87, the reference frame |
| Protocol.HeaderSent | os/hal/src/mmc_spi.c:219-234 | `send_hdr` on the bus: the idle wait, then the frame; computed by `SendHdr` |
| Protocol.Synced | os/hal/src/mmc_spi.c:375-388 | `sync` on the bus: select, read up to the first 0xFF, deselect; computed by `Protocol.Sync` |
| Protocol.CommandR1 | os/hal/src/mmc_spi.c:287-295 | the exchange logs select, exactly the command frame, unselect, and consumes the idle wait plus one to nine response bytes |
| Protocol.CommandR3 | os/hal/src/mmc_spi.c:310-319 | as `send_command_R1`, with the same R1 byte and log, then exactly four payload bytes read whatever R1 was |
| Protocol.CsdWords | os/hal/src/mmc_spi.c:352-356 | sixteen CSD bytes become four words |
| Protocol.CsdBytes | os/hal/src/mmc_spi.c:352-356 | four CSD words are sixteen bytes on the wire |
| Protocol.CsdBytesRoundTrip | os/hal/src/mmc_spi.c:352-356 | the words assembled from the received bytes regenerate those bytes: word 3 is bytes 0-3 and word 0 is bytes 12-15, each big-endian |
| Protocol.CsdWordsRoundTrip | os/hal/src/mmc_spi.c:352-356 | every register value sent by the card is stored as itself |
| Protocol.CsdRead | os/hal/src/mmc_spi.c:333-366 | `read_CSD` fails exactly when it stores nothing; success logs select, SEND_CSD frame, two ignored CRC bytes, unselect; an R1 other than 0x00 fails with select, frame, unselect; after an R1 of 0x00 a failure logs only select and frame, leaving the card selected; `CsdReadTimeout` proves that such a failure is exactly the start-token timeout |
| Protocol.CsdReadToken | os/hal/src/mmc_spi.c:339-350 | a successful read had R1 0x00 and found the first start token within WAIT_DATA polls, followed by 16 data and 2 CRC bytes |
| Protocol.CsdReadTimeout | os/hal/src/mmc_spi.c:345-349 | after an accepted SEND_CSD the read fails exactly when none of the WAIT_DATA polled bytes is a start token, and then the cursor is just past the last poll |
| Protocol.CsdReadContents | os/hal/src/mmc_spi.c:350-356 | a successful read stores the sixteen bytes after the start token |
| Protocol.Wait | os/hal/src/mmc_spi.c:189-208 | the sixteen fast polls and the open-ended loop together consume exactly up to the first 0xFF and log nothing |
| Protocol.SendHdr | os/hal/src/mmc_spi.c:219-234 | `send_hdr` is the idle wait followed by sending the frame |
| Protocol.RecvR1 | os/hal/src/mmc_spi.c:245-255 | the polling loop returns the reply `R1At` describes and consumes exactly its bytes |
| Protocol.RecvR3 | os/hal/src/mmc_spi.c:267-274 | R1, then the four following bytes as payload |
| Protocol.SendCommandR1 | os/hal/src/mmc_spi.c:287-295 | computes `CommandR1` |
| Protocol.SendCommandR3 | os/hal/src/mmc_spi.c:310-319 | computes `CommandR3` |
| Protocol.PollToken | os/hal/src/mmc_spi.c:345-347 | the token poll stops just after the first 0xFE within WAIT_DATA reads, or after all of them, and returns the last byte read |
| Protocol.ReadCsd | os/hal/src/mmc_spi.c:333-366 | computes `CsdRead`; the CSD array holds the register on success and is untouched on failure |
| Protocol.StoreCsd | os/hal/src/mmc_spi.c:352-356 | the pointer loop from `csd[3]` down to `csd[0]` stores `CsdWords` of the buffer |
| Protocol.Sync | os/hal/src/mmc_spi.c:375-388 | `sync` selects, consumes up to the first 0xFF, deselects |
| Bringup.GoIdle | os/hal/src/mmc_spi.c:507-514 | the GO_IDLE_STATE retry loop from attempt i: done on 0x01, given up after 10 attempts; its properties are `GoIdleFrames` and `GoIdleSilent` |
| Bringup.AppOpCond | os/hal/src/mmc_spi.c:527-530 | one APP_CMD/APP_OP_COND round; its properties are `AppOpCondFrames` |
| Bringup.Negotiate | os/hal/src/mmc_spi.c:525-535 | the negotiation retry loop, given up after 100 rounds; its properties are `NegotiateFrames` |
| Bringup.Initialize | os/hal/src/mmc_spi.c:546-556 | the SEND_OP_COND retry loop; its properties are `InitializeOutcome` and `InitializeFrames` |
| Bringup.Clocked | os/hal/src/mmc_spi.c:502-504 | low-speed start and 16 ignored bytes (128 clocks) before GO_IDLE_STATE; used by `Bringup` and `SilentCardFails` |
| Bringup.GoIdleFrames | os/hal/src/mmc_spi.c:507-514 | GO_IDLE_STATE is sent at least once and at most CMD0_RETRY (10) times, exactly 10 times when the loop gives up |
| Bringup.GoIdleSilent | os/hal/src/mmc_spi.c:507-514 | a card that never drives the line never reaches idle |
| Bringup.PairedCompose | os/hal/src/mmc_spi.c:525-535 | frame-count bounds over consecutive stretches of the log add up |
| Bringup.AppOpCondFrames | os/hal/src/mmc_spi.c:527-529 | one negotiation round sends exactly one APP_CMD and at most one APP_OP_COND, none when APP_CMD was not answered 0x01 |
| Bringup.NegotiateFrames | os/hal/src/mmc_spi.c:525-535 | at most ACMD41_RETRY (100) APP_CMD frames are sent, and no more APP_OP_COND frames than APP_CMD frames |
| Bringup.FrameDiffers | os/hal/src/mmc_spi.c:527-529 | the APP_CMD and APP_OP_COND frames differ, so their counts are separate |
| Bringup.InitializeOutcome | os/hal/src/mmc_spi.c:547-552 | SEND_OP_COND succeeds on 0x00 and fails at once on any status other than 0x00 and 0x01 |
| Bringup.InitializeFrames | os/hal/src/mmc_spi.c:546-556 | SEND_OP_COND is sent at least once and at most CMD1_RETRY (100) times |
| Bringup.Bringup | os/hal/src/mmc_spi.c:501-571 | bring-up never clears block addressing, keeps it as it was for a card answering SEND_IF_COND with 0x05, and succeeds only with a known non-zero capacity |
| Bringup.BringupAddressing | os/hal/src/mmc_spi.c:521-543 | a card answering SEND_IF_COND with 0x05 keeps the addressing mode; a card answering otherwise that completes the negotiation is block-addressed exactly when the driver already was or bit 0x40 of the first OCR byte is set |
| Bringup.Configure | os/hal/src/mmc_spi.c:546-571 | from SEND_OP_COND on, the addressing mode is kept, and success holds exactly when a non-zero capacity was read |
| Bringup.SilentCardFails | os/hal/src/mmc_spi.c:501-514 | a silent card fails bring-up after exactly ten GO_IDLE_STATE frames, with addressing and capacity untouched |
| Bringup.GoIdleLoop | os/hal/src/mmc_spi.c:507-514 | the retry loop computes `GoIdle` |
| Bringup.GoIdleRound | os/hal/src/mmc_spi.c:509-513 | one attempt either ends the loop with the loop's outcome or leaves the rest of the loop to do |
| Bringup.AppOpCondRound | os/hal/src/mmc_spi.c:527-530 | one negotiation round computes `AppOpCond` |
| Bringup.NegotiateLoop | os/hal/src/mmc_spi.c:525-535 | the retry loop computes `Negotiate` |
| Bringup.NegotiateRound | os/hal/src/mmc_spi.c:527-534 | one round either ends the loop with the loop's outcome or leaves the rest of the loop to do |
| Bringup.InitializeLoop | os/hal/src/mmc_spi.c:546-556 | the retry loop computes `Initialize` |
| Bringup.InitializeRound | os/hal/src/mmc_spi.c:548-555 | one attempt ends the loop on 0x00, on another status than 0x01, or on the last attempt, with the loop's outcome |
| Bringup.ConfigureCard | os/hal/src/mmc_spi.c:558-571 | computes `Configure` |
| Bringup.BringupCard | os/hal/src/mmc_spi.c:501-571 | computes `Bringup` |
| Transfer.StartAddress | os/hal/src/mmc_spi.c:653-656 | a block-addressed card gets the block number itself |
| Transfer.ByteAddressAligned | os/hal/src/mmc_spi.c:656 | a byte address is a multiple of 512 |
| Transfer.ByteAddressBlock | os/hal/src/mmc_spi.c:656 | the 32-bit product keeps only the low 23 bits of the block number |
| Transfer.ByteAddressExact | os/hal/src/mmc_spi.c:779-780 | the byte address names the requested block exactly when the block number is below 2^23 |
| Transfer.Opened | os/hal/src/mmc_spi.c:650-665 | opening a transfer logs high speed, select and the command frame; the reply is `recvr1`'s; any reply but 0x00 deselects |
| Transfer.BlockRead | os/hal/src/mmc_spi.c:693-708 | a read step delivers 512 bytes and logs two ignored CRC bytes, or times out after WAIT_DATA polls, delivers nothing and deselects |
| Transfer.BlockReadContents | os/hal/src/mmc_spi.c:693-700 | the block delivered is the 512 bytes after the first start token found within WAIT_DATA polls |
| Transfer.BlockReadTimeout | os/hal/src/mmc_spi.c:693-703 | a timed-out step saw no start token in any of its polls |
| Transfer.BlockReads | os/hal/src/mmc_spi.c:108-113 | n successful steps deliver 512 * n bytes and log n CRC skips; a failed run ends deselected |
| Transfer.BlockReadsSplit | os/hal/src/mmc_spi.c:108-113 | the first block of a successful run is what its first step read, followed by the rest |
| Transfer.BlockReadsExtend | os/hal/src/mmc_spi.c:108-113 | read steps only append to the log |
| Transfer.ReadStopped | os/hal/src/mmc_spi.c:736-741 | stopping a read sends the fixed stop frame, consumes one to nine R1 bytes and deselects |
| Transfer.ReadTransfer | os/hal/src/mmc_spi.c:103-117 | `mmc_read` on the bus from READY: open, n read steps, stop; its properties are `ReadTransferDeselects` and, through `BlockReads`, `BlockReadContents` |
| Transfer.ReadTransferDeselects | os/hal/src/mmc_spi.c:103-117 | `mmc_read` from READY first sends READ_MULTIPLE_BLOCK for its address and always ends deselected; on success it delivers n blocks and logs exactly open, n CRC skips, stop frame, unselect |
| Transfer.StopReadFrame | os/hal/src/mmc_spi.c:723-724 | the fixed stop frame decodes as STOP_TRANSMISSION 0 with a zero CRC field, which only a card with CRC checking enabled would reject; the driver never enables it |
| Transfer.BlockWrite | os/hal/src/mmc_spi.c:819-834 | a write step logs prologue, block and two CRC bytes, fails exactly when the response's low five bits are not 0x05, then deselects; otherwise it waits for idle |
| Transfer.DataResponses | os/hal/src/mmc_spi.c:823 | "data accepted" tokens pass; "CRC error", "write error" and an idle line fail |
| Transfer.Payload | os/hal/src/mmc_spi.c:819-821 | the data blocks a bus log carries: the 512-byte sends, in order |
| Transfer.PayloadAppend | os/hal/src/mmc_spi.c:819-821 | the block payload of a log distributes over concatenation |
| Transfer.BlockWrites | os/hal/src/mmc_spi.c:124-129 | write steps only append to the log, and a failed run ends deselected |
| Transfer.BlockWritesPayload | os/hal/src/mmc_spi.c:124-129 | a successful run of write steps sends exactly the caller's bytes as payload, in order |
| Transfer.StepPayload | os/hal/src/mmc_spi.c:819-821 | one write step adds exactly its block to the payload |
| Transfer.WriteStopped | os/hal/src/mmc_spi.c:860-861 | stopping a write sends the stop token and deselects, reading nothing |
| Transfer.WriteTransfer | os/hal/src/mmc_spi.c:119-133 | `mmc_write` on the bus from READY: open, n write steps, stop; its properties are `WriteTransferDeselects` and `WriteTransferPayload` |
| Transfer.WriteTransferDeselects | os/hal/src/mmc_spi.c:119-133 | `mmc_write` from READY first sends WRITE_MULTIPLE_BLOCK for its address and always ends deselected |
| Transfer.WriteTransferPayload | os/hal/src/mmc_spi.c:119-133 | a successful `mmc_write` sends exactly the caller's blocks, in order, as payload |
| Transfer.OpeningPayload | os/hal/src/mmc_spi.c:774-780 | opening a write carries no payload |
| Transfer.StopPayload | os/hal/src/mmc_spi.c:860 | the stop token carries no payload |
| Transfer.ReadStepKeeps | os/hal/src/mmc_spi.c:108-113 | one successful step storing its block after the earlier ones keeps "stored so far, then the rest, is the whole transfer" |
| Mmc.Sound | os/hal/src/mmc_spi.c:419-472 | the driver invariant: initialised, the timer armed exactly when started, a coherent counter while started; every driver method keeps it |
| Mmc.Fire | os/hal/src/mmc_spi.c:157-180 | one `tmrfunc` firing applied to the driver fields; computed by `Tick` |
| Mmc.Settle | os/hal/src/mmc_spi.c:157-180 | the firings that precede a re-check; computed by `Interleave`, kept sound by `SettleKeepsSound` |
| Mmc.Recheck | os/hal/src/mmc_spi.c:704-707 | the locked re-check: `from` becomes `to`, any other state stays; kept sound by `RecheckKeepsSound` |
| Mmc.SettleStep | os/hal/src/mmc_spi.c:157-180 | running the monitor on one more reading extends the run by one firing |
| Mmc.SettleKeepsSound | os/hal/src/mmc_spi.c:157-180 | the monitor keeps the driver sound, moves it only to WAIT or INSERTED, and touches neither addressing nor capacity |
| Mmc.RecheckKeepsSound | os/hal/src/mmc_spi.c:661-662 | a guarded transition between INSERTED, READY, READING and WRITING keeps the driver sound |
| Mmc.FailureLands | os/hal/src/mmc_spi.c:704-707 | a failed transfer step lands in READY, or in WAIT or INSERTED when the monitor moved the driver, never in a transfer state |
| Mmc.ConnectLands | os/hal/src/mmc_spi.c:574-581 | connect ends READY exactly when the monitor still reports INSERTED, otherwise in WAIT with the counter running |
| Mmc.Configured | os/hal/src/mmc_spi.c:541-569 | bring-up assigns the addressing mode always and the capacity only once the CSD was read, and nothing else |
| Mmc.ConfiguredKeepsSound | os/hal/src/mmc_spi.c:541-569 | bring-up leaves the state, and so soundness, unchanged |
| Mmc.SettleNothing | os/hal/src/mmc_spi.c:157-180 | with no firing of the monitor the driver is unchanged |
| Mmc.MmcDriver.constructor | os/hal/src/mmc_spi.c:419-427 | `mmcObjectInit`: STOP, byte addressing, no timer, no events |
| Mmc.MmcDriver.Tick | os/hal/src/mmc_spi.c:157-180 | the callback updates the driver as `Debounce` says and keeps it sound |
| Mmc.MmcDriver.Interleave | os/hal/src/mmc_spi.c:178 | the re-armed callback firing once per reading computes `Settle` |
| Mmc.MmcDriver.ReturnToReady | os/hal/src/mmc_spi.c:704-707 | the fallback re-check after the monitor ran: a driver still in the transfer state becomes READY |
| Mmc.MmcDriver.Start | os/hal/src/mmc_spi.c:437-448 | STOP becomes WAIT with a full counter and the timer armed |
| Mmc.MmcDriver.Stop | os/hal/src/mmc_spi.c:457-472 | any state but a transfer becomes STOP with the timer disarmed, and the SPI driver is stopped |
| Mmc.MmcDriver.BringUp | os/hal/src/mmc_spi.c:501-571 | the INSERTED branch computes `Bringup` and stores its addressing and capacity |
| Mmc.MmcDriver.Connect | os/hal/src/mmc_spi.c:491-588 | READY succeeds and any state but INSERTED fails, both changing nothing; from INSERTED an early failure leaves the state INSERTED, and a full bring-up succeeds exactly when the monitor still reports INSERTED, which then becomes READY |
| Mmc.MmcDriver.ConnectInserted | os/hal/src/mmc_spi.c:501-583 | the INSERTED branch: bus as `Bringup` says, early failure keeps the state, the final re-check decides success |
| Mmc.MmcDriver.ConnectRecheck | os/hal/src/mmc_spi.c:573-582 | fails exactly when the monitor moved the driver out of INSERTED, otherwise becomes READY |
| Mmc.MmcDriver.Disconnect | os/hal/src/mmc_spi.c:602-624 | always reports failure and stops the SPI driver; from READY it first waits for idle and moves a still-READY driver to INSERTED; otherwise nothing changes |
| Mmc.MmcDriver.StartSequentialRead | os/hal/src/mmc_spi.c:638-667 | outside READY it fails and changes nothing; otherwise it opens READ_MULTIPLE_BLOCK at `StartAddress`, stays READING on R1 0x00, and otherwise deselects and falls back to READY |
| Mmc.MmcDriver.SequentialRead | os/hal/src/mmc_spi.c:681-709 | outside READING it fails and changes nothing; a step stores the block read into the buffer at the offset, touching nothing else; a timeout leaves the last polled byte at the offset, deselects and falls back |
| Mmc.MmcDriver.StopSequentialRead | os/hal/src/mmc_spi.c:722-748 | outside READING it fails and changes nothing; otherwise it sends the stop frame, ignores the R1 byte, deselects, falls back to READY and succeeds |
| Mmc.MmcDriver.StartSequentialWrite | os/hal/src/mmc_spi.c:762-792 | as the read with WRITE_MULTIPLE_BLOCK and WRITING |
| Mmc.MmcDriver.SequentialWrite | os/hal/src/mmc_spi.c:806-835 | outside WRITING it fails and changes nothing; otherwise it performs `BlockWrite` of the buffer's block, and a rejection falls back to READY |
| Mmc.MmcDriver.StopSequentialWrite | os/hal/src/mmc_spi.c:848-871 | outside WRITING it fails and changes nothing; otherwise it sends the stop token, deselects, and succeeds exactly when the driver is still WRITING, which becomes READY |
| Mmc.MmcDriver.Sync | os/hal/src/mmc_spi.c:884-898 | fails exactly outside READY; never changes the state; waits for idle only in READY |
| Mmc.MmcDriver.GetInfo | os/hal/src/mmc_spi.c:912-928 | fails exactly outside READY, leaving the caller's structure alone; otherwise reports the capacity and the 512-byte block size |
| Mmc.MmcDriver.ReadBlocks | os/hal/src/mmc_spi.c:103-117 | `mmc_read` performs `ReadTransfer` at `StartAddress`, leaves the driver state as it was, and on success fills the first n blocks of the buffer with the data read and nothing else |
| Mmc.MmcDriver.ReadSteps | os/hal/src/mmc_spi.c:108-113 | the block loop performs `BlockReads`, storing block i at 512 * i; it ends READY on failure and READING on success |
| Mmc.MmcDriver.ReadStep | os/hal/src/mmc_spi.c:109-112 | one pass of the read loop keeps its invariant or ends the loop with the transfer's outcome |
| Mmc.MmcDriver.WriteBlocks | os/hal/src/mmc_spi.c:119-133 | `mmc_write` performs `WriteTransfer` of the first n blocks of the buffer at `StartAddress` and leaves the driver state as it was |
| Mmc.MmcDriver.WriteSteps | os/hal/src/mmc_spi.c:124-129 | the block loop performs `BlockWrites` on consecutive blocks of the buffer; it ends READY on failure and WRITING on success |
| Mmc.MmcDriver.WriteStep | os/hal/src/mmc_spi.c:125-128 | one pass of the write loop keeps its invariant or ends the loop with the transfer's outcome |

## Left out

- The SPI peripheral driver (`spiStart`, `spiSelect`, `spiSend`, `spiReceive`, `spiIgnore`, `spiStop`) is not part of this model. `Spi.Link` stands for it as a byte stream and an operation log, and its clock configurations are the two values `LowSpeed` and `HighSpeed`.
- The bytes the card clocks back while the driver sends are not part of `input`: `Send` does not move the read cursor, as `spiSend` discards them. Only `spiReceive` and `spiIgnore` consume the stream.
- `mmcsdGetCapacity` is not part of this model. Bring-up takes it as the function parameter `decode`.
- Kernel primitives are left out: locking, the virtual timer and event sources. Locked regions are atomic steps, the timer is the `armed` flag, and broadcasts are entries in `signals`.
- The sleeps between retries and the `MMC_NICE_WAITING` sleeps are left out: they change nothing the driver can observe.
- The monitor runs only where the source re-checks the state, on the readings passed in. Ticks at other points would only change what those readings are.
- Mmc.MmcDriver.ReadBlocks: runs with no monitor ticks between steps.
- Mmc.MmcDriver.WriteBlocks: runs with no monitor ticks between steps.
- Mmc.MmcDriver.ReadBlocks: on failure the buffer contents are not stated.
- Mmc.MmcDriver.ReadSteps: on failure the buffer contents are not stated.
- The unbounded loops of `wait` and `sync` end in the model because input past the end of the stream reads idle. The model does not cover a card that stays busy forever.
- Mmc.MmcDriver.constructor: takes the counter and capacity as parameters. `mmcObjectInit` does not initialise them.
- `mmcStart` checks that its configuration pointer is NULL, and every later use dereferences it. The model treats the configuration as a valid SPI link and keeps no configuration field.
- The VMT table, `mmcInit` (empty) and the write-protect and insertion sensor hooks are left out. Sensor readings enter as the `readings` parameters.
- Debug assertions (`chDbgCheck`, `chDbgAssert`) are not modelled as run-time checks. Their state conditions are preconditions: `Start` requires STOP, `Stop` excludes READING and WRITING, and `Connect` and `Disconnect` exclude STOP (lines 498 and 607). `Valid()` rules out UNINIT. Calling any of these four in an excluded state is not modelled.
- The constants `MMC_WAIT_DATA` (10000), `MMC_CMD0_RETRY` (10), `MMC_ACMD41_RETRY` and `MMC_CMD1_RETRY` (100) and `MMC_POLLING_INTERVAL` (10) come from the driver header, which is not part of this model. They are fixed at the header's defaults, although a build may configure `MMC_POLLING_INTERVAL` differently.
- Transfer.StartAddress: the byte-address product is written as a shift by nine. That equals multiplication by 512 modulo 2^32.
- The CRC table is stored as sixteen packed 128-bit rows. Each row lists 16 entries of `crc7_lookup_table` in order.
