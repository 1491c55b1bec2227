# THUAS RISC-V bootloader, monitor and tools — a Dafny model

This project models the firmware and host-tool parts of the THUAS RISC-V
processor repository that do the actual work between the serial line and
memory, and proves what they do:

- **The hexadecimal codec** of the bootloader (`CODE/bootloader/util.c`):
  `parsehex` over a line buffer, `printhex` onto the serial line and
  `gethex` from the serial stream, on the target's 32-bit `unsigned long`.
  Module `HexCodec`, on top of `Ctype` (the `<ctype.h>` predicates), `Word`
  (32-bit wrap-around) and `Serial` (the UART as an input sequence, a read
  position and an output log).
- **The bootloader's `main`** (`CODE/bootloader/bootloader.c`): the boot
  gate that waits for a key, the S-record upload loop that patches payload
  bytes into 32-bit words one byte lane at a time, and the command monitor
  (`h`, `r`, `rw`, `ww`, `dw`, `n`). Module `Bootloader` is a class
  `Machine` whose fields are the memory, `app_start`, the dump cursor
  `addr` and the two device registers it writes; each method is proved
  against the functions of `Upload` (what an upload session does),
  `Commands` (what one monitor line does), `Memory` (words, byte lanes and
  the lane patch) and `SRecord` (the record layout).
- **The line editor `usart_gets`** (`CODE/monitor/monitor.c`, identical in
  `CODE/usart_sprintf/sprintf.c`): module `LineEditor`, a method over a
  `char` array proved against a function of the input.
- **The stand-alone monitor** (`CODE/monitor/monitor.c`): `read_address`
  and the `rw`/`rh`/`rb` dispatch of `main`, module `MonitorApp`.
- **srec2vhdl** (`CODE/srec2vhdl/srec2vhdl.c`): `hex2` .. `hex8` on the
  line buffer and the per-line record switch that writes the VHDL ROM
  table, module `Srec2Vhdl`, with a class `Converter` holding the output,
  stderr, `doindent` and the line count. The class follows the program's
  own `doindent` rule (rule `AsWritten`); the functions also take the
  corrected rule of the finding below (rule `Corrected`), for which the
  layout lemmas are proved, and further lemmas relate the two.
- **The system-call layer** (`CODE/syscalls/syscalls.c`): the `_sbrk` bump
  allocator with its stack limit, `_read`, `_write` and the constant stubs,
  module `Syscalls`, with a class `Runtime` for the static heap end, `errno`
  and the character hooks.

Values the C code keeps in `unsigned long` are integers in `0 .. 2^32 - 1`
(`Word.Ulong`), with every wrap-around written out (`Word.Wrap`). The
serial input is everything the host will ever send; where the firmware
would block in `usart_getc` for ever, the model reports that the input ran
out (`None`, `Starved`, `Waiting`, `complete == false`). Jumping through
`app_start` is a terminal status that records the entry address.

## Model

| member | source | states |
|---|---|---|
| Ctype.DigitValue | CODE/bootloader/util.c:17-21 | a digit's value is below 16, and a character that is not a hex digit contributes 0 |
| Ctype.CaseKeepsDigit | CODE/bootloader/util.c:20 | `tolower`/`toupper` change neither whether a character is a hex digit nor its value |
| Ctype.HexNatAppend | CODE/bootloader/util.c:15-23 | the value of a digit string splits at any point: value(a + b) = value(a) · 16^len(b) + value(b) |
| Word.WrapAdd | CODE/bootloader/bootloader.c:120 | wrapping an intermediate sum at 2^32 does not change the wrapped total |
| Serial.Port.GetC | CODE/monitor/monitor.c:44-51 | `usart_getc` consumes exactly the next byte of the input, or reports that none will come |
| Serial.Port.PutC | CODE/monitor/monitor.c:19-26 | `usart_putc` appends exactly one byte to what was sent |
| Serial.Port.PutS | CODE/monitor/monitor.c:29-40 | `usart_puts` appends the string to what was sent |
| HexCodec.FoldAppend | CODE/bootloader/util.c:15-23 | one more digit is one more `v <<= 4; v \|= digit` step of the accumulator |
| HexCodec.FoldIsHexNat | CODE/bootloader/util.c:9-23 | the 32-bit accumulator is the big-endian value of the digits modulo 2^32, and 0 for no digits |
| HexCodec.FoldLastEight | CODE/bootloader/util.c:16 | only the last eight digits reach the result; earlier ones are shifted out |
| HexCodec.FoldBound | CODE/bootloader/util.c:15-23 | up to eight digits are accumulated exactly, below 16^n |
| HexCodec.SpaceEnd | CODE/bootloader/util.c:11-13 | the first position at or after i that is not white space, everything skipped being white space |
| HexCodec.DigitsEnd | CODE/bootloader/util.c:15-23 | the first position at or after i that is not a hex digit, everything consumed being a hex digit |
| HexCodec.ParseHex | CODE/bootloader/util.c:7-30 | `parsehex` stops exactly after the digits that follow the white space, returns their value modulo 2^32, and 0 when there are none |
| HexCodec.Width | CODE/bootloader/util.c:36-38 | `printhex` replaces any n outside 1..8 by 8 (not the nearest bound) and keeps n inside |
| HexCodec.HexChar | CODE/bootloader/util.c:40-43 | a nibble becomes a lowercase hex digit whose value is the nibble |
| HexCodec.HexTextDigits | CODE/bootloader/util.c:39-46 | every character `printhex` sends is a lowercase hex digit |
| HexCodec.HexNatHexText | CODE/bootloader/util.c:39-46 | the n digits sent spell the low 4·n bits of v |
| HexCodec.HexTextFront | CODE/bootloader/util.c:44-45 | each new digit goes in front: the order in which `buf[n-1-i]` is filled |
| HexCodec.ParseHexOfPrintHex | CODE/bootloader/util.c:7-47 | round trip: `parsehex` on the eight characters of `printhex(v, 8)` skips nothing, stops after all eight and returns v |
| HexCodec.PrintHexValue | CODE/bootloader/util.c:33-48 | the eight digits of `printhex(v, 8)` spell v exactly |
| HexCodec.PrintHex | CODE/bootloader/util.c:33-48 | `printhex(v, n)` sends exactly Width(n) digits of v, most significant first, zero padded |
| HexCodec.GetHex | CODE/bootloader/util.c:50-64 | `gethex(n)` consumes exactly n characters and returns their value modulo 2^32, non-digits counting as 0; below 16^n for n ≤ 8 |
| Memory.StoreWord | CODE/bootloader/bootloader.c:119 | a word store changes the word addressed and no other |
| Memory.Decompose | CODE/bootloader/bootloader.c:106-117 | a word is the weighted sum of its four byte lanes |
| Memory.Compose | CODE/bootloader/bootloader.c:106-117 | the lanes of a weighted sum of four bytes are those bytes |
| Memory.PatchLane | CODE/bootloader/bootloader.c:106-117 | the mask-and-or patch puts the byte in lane `v & 3` and keeps the other three lanes |
| Memory.PatchByte | CODE/bootloader/bootloader.c:101-119 | the read-modify-write of one byte changes that byte only, and no word but the one holding it |
| Memory.PatchBytesRead | CODE/bootloader/bootloader.c:99-121 | after a payload is patched from `start` on, byte x holds payload byte k when x is k addresses past start (wrapping), and is unchanged otherwise |
| Memory.PatchBytesSnoc | CODE/bootloader/bootloader.c:99-121 | one more payload byte is one more patch at the next address |
| SRecord.AddressDigits | CODE/bootloader/bootloader.c:88-97 | data and termination records have 4-, 6- or 8-digit addresses |
| SRecord.LayoutTable | CODE/bootloader/bootloader.c:84-136 | the overhead 3/4/5 is the address bytes plus the checksum; S9/S8/S7 use the address width of S1/S2/S3; payload starts at column 8/10/12 |
| Upload.Payload | CODE/bootloader/bootloader.c:99-102 | payload byte i is the i-th two-digit pair after the address |
| Upload.LineEnd | CODE/bootloader/bootloader.c:123 | the rest-of-line skip stops just past the first newline, or finds none |
| Upload.DataRecord | CODE/bootloader/bootloader.c:84-123 | a decoded S1/S2/S3 record is a data record ending inside the input |
| Upload.DataRecordHeader | CODE/bootloader/bootloader.c:84-97 | S1/S2/S3 carry count − 3/4/5 payload bytes (count ≥ overhead) at an address below 16^4/16^6/16^8, and end with a newline |
| Upload.TerminationRecord | CODE/bootloader/bootloader.c:126-140 | S7/S8/S9 decode to an entry address and end inside the input |
| Upload.DecodeRecord | CODE/bootloader/bootloader.c:80-144 | a decoded record ends after its type character and inside the input |
| Upload.Acks | CODE/bootloader/bootloader.c:155 | n answers are n copies of `?\n` |
| Upload.HexAtExact | CODE/bootloader/bootloader.c:89-96 | count and address fields of at most eight digits lose nothing to the 32-bit wrap |
| Upload.DataRecordWrites | CODE/bootloader/bootloader.c:99-121 | a data record writes payload byte i at start + i, leaves every other byte and `app_start` alone |
| Upload.OtherRecordsInert | CODE/bootloader/bootloader.c:141-144 | S0, S4-S6 and unknown types only consume their line: memory and `app_start` are unchanged |
| Upload.ChecksumIgnored | CODE/bootloader/bootloader.c:122-123 | changing any non-newline character between the payload and the newline decodes to the same record |
| Upload.DataRecordAgrees | CODE/bootloader/bootloader.c:85-123 | inputs differing only after a record's payload, before its newline, decode alike |
| Upload.RunEnds | CODE/bootloader/bootloader.c:145-155 | a session ends as finished only right after `#`, as jumped only right after `J`, and never takes back an answer |
| Upload.StrayCharactersInert | CODE/bootloader/bootloader.c:76-156 | without an `S` the session writes nothing and keeps `app_start` |
| Upload.OneRecordSession | CODE/bootloader/bootloader.c:76-156 | `S1071000AABBCCDD00\n#` stores AA BB CC DD at 0x1000..0x1003, sends one answer and returns to the monitor |
| LineEditor.Rubout | CODE/monitor/monitor.c:80-83 | Ctrl-U echoes one DEL per erased character |
| LineEditor.Gets | CODE/monitor/monitor.c:58-102 | a completed read ends just after a `\n` or `\r`; an incomplete one has used up the input |
| LineEditor.EditBounded | CODE/usart_sprintf/sprintf.c:89-97 | no key makes a line of at most size − 1 characters longer than that |
| LineEditor.GetsBounded | CODE/monitor/monitor.c:89-97 | the line returned is at most size − 1 characters, all of them 0x20..0x7e |
| LineEditor.EditOnlyTyped | CODE/usart_sprintf/sprintf.c:89-94 | an edit adds at most the key typed to the line |
| LineEditor.GetsOnlyTyped | CODE/monitor/monitor.c:58-102 | a character that was never typed is not in the line returned |
| LineEditor.GetsEchoExtends | CODE/monitor/monitor.c:58-102 | the echo only grows |
| LineEditor.RuboutErases | CODE/monitor/monitor.c:80-83 | the DELs of Ctrl-U erase as many characters from the terminal line |
| LineEditor.EchoShowsEdit | CODE/monitor/monitor.c:64-98 | the echo of every key keeps the terminal in step with the buffer: a terminal showing the line before shows the edited line after |
| LineEditor.GetsShowsLine | CODE/monitor/monitor.c:58-102 | the whole echo of a call shows the line returned, followed by CR LF when the line is complete |
| LineEditor.GetLine | CODE/monitor/monitor.c:58-102 | `usart_gets` leaves the line in the buffer, NUL-terminated at the index it returns, with the echo sent and the input consumed up to the terminator |
| LineEditor.EditKey | CODE/usart_sprintf/sprintf.c:64-98 | one key other than a terminator changes the buffer and the echo as the editing rules say |
| Commands.AsciiColumn | CODE/bootloader/bootloader.c:226-235 | column k of a dump row shows byte 3 − k of the word (most significant first), itself if printable, '.' otherwise |
| Commands.AsciiLane | CODE/bootloader/bootloader.c:226-235 | after n turns of the inner loop, position k holds byte n − 1 − k of the word as shown |
| Commands.Row | CODE/bootloader/bootloader.c:220-237 | a dump row is 26 characters |
| Commands.CursorIs | CODE/bootloader/bootloader.c:236 | after k words the cursor is a + 4k modulo 2^32 |
| Commands.DumpText | CODE/bootloader/bootloader.c:218-238 | k dump rows are 26·k characters |
| Commands.DumpLoads | CODE/bootloader/bootloader.c:222 | a dump of k words makes k loads |
| Commands.ExactCommands | CODE/bootloader/bootloader.c:172-186 | `h` and `r` match only exactly, and only the line `r` starts the application |
| Commands.RepliesEndLine | CODE/bootloader/bootloader.c:242-247 | every line that does not start the application is answered with text ending in CR LF; only the empty line and an aligned `ww` get nothing else |
| Commands.UnalignedTouchesNothing | CODE/bootloader/bootloader.c:187-241 | an unaligned `rw`, `ww`, `dw` or `n` answers "Not on 4-byte boundary!", accesses no memory, and the cursor still takes the address |
| Commands.OnlyWriteWordStores | CODE/bootloader/bootloader.c:199-209 | only an aligned `ww` changes memory, and it stores exactly the parsed data word at the parsed address |
| Commands.DumpRows | CODE/bootloader/bootloader.c:218-238 | row i of a dump shows the word at a + 4i |
| Commands.DumpLoadsAt | CODE/bootloader/bootloader.c:222 | load i of a dump reads the word at a + 4i |
| Commands.DumpContinues | CODE/bootloader/bootloader.c:210-238 | an aligned `dw a` leaves memory alone and moves the cursor to the aligned a + 64 |
| Commands.DwDumps | CODE/bootloader/bootloader.c:210-215 | `dw` dumps from the address it names |
| Commands.NextDumps | CODE/bootloader/bootloader.c:210-213 | any line starting with `n` dumps from the shared cursor |
| Commands.AlignedDump | CODE/bootloader/bootloader.c:217-238 | a dump from an aligned address sends 16 rows and CR LF, loads each word once, keeps memory and moves the cursor 64 bytes on |
| Commands.WriteThenRead | CODE/bootloader/bootloader.c:187-209 | `ww a v` followed by `rw a` prints `a: v` |
| Commands.WriteLineParses | CODE/bootloader/bootloader.c:199-205 | `ww` with printhex text parses back to the address and data written |
| Commands.ReadLineParses | CODE/bootloader/bootloader.c:187-190 | `rw` with printhex text parses back to the address |
| Commands.ParseAt | CODE/bootloader/util.c:7-30 | eight printhex digits followed by a non-digit parse back to their value |
| Bootloader.Stars | CODE/bootloader/bootloader.c:52-57 | the wait sends only stars |
| Bootloader.Machine.constructor | CODE/bootloader/bootloader.c:31-45 | after reset `app_start` and `addr` are 0 |
| Bootloader.Machine.BootGate | CODE/bootloader/bootloader.c:50-63 | the wait reports a key hit exactly when a character arrives by the last poll, sends one star per 2^20 polls made, and clears POUT |
| Bootloader.Machine.SkipLine | CODE/bootloader/bootloader.c:123 | the skip consumes up to and including the next newline |
| Bootloader.Machine.ReadHeader | CODE/bootloader/bootloader.c:86-97 | the count less the overhead in 32-bit arithmetic, and the address of the record's width |
| Bootloader.Machine.ReadPayload | CODE/bootloader/bootloader.c:99-121 | the payload loop patches count bytes in from `start` upwards, the address wrapping |
| Bootloader.Machine.GetByte | CODE/bootloader/bootloader.c:102 | `gethex(2)` of a payload byte |
| Bootloader.Machine.PatchIn | CODE/bootloader/bootloader.c:101-119 | read the word, patch the lane, write the word back: exactly PatchByte |
| Bootloader.Machine.ReadData | CODE/bootloader/bootloader.c:84-123 | a data record read from the port writes memory as the decoded record says |
| Bootloader.Machine.ReadEntry | CODE/bootloader/bootloader.c:126-140 | a termination record sets `app_start` to its address |
| Bootloader.Machine.ReadRecord | CODE/bootloader/bootloader.c:80-144 | the record after an `S` changes memory and `app_start` as the decoded record says |
| Bootloader.Machine.UploadStep | CODE/bootloader/bootloader.c:77-155 | one pass toggles POUT bit 0, reads a character and acts on it; going on means `?\n` was sent |
| Bootloader.Machine.UploadLoop | CODE/bootloader/bootloader.c:76-158 | the upload loop does what the session function says: one `?\n` per record or stray character, `J` stops the baud generator and enters at `app_start`, `#` returns with POUT 0xaa |
| Bootloader.Machine.PrintAscii | CODE/bootloader/bootloader.c:226-235 | the inner loop sends the ASCII column of the word |
| Bootloader.Machine.PrintRow | CODE/bootloader/bootloader.c:220-237 | one row: address, word, two spaces, ASCII column, CR LF |
| Bootloader.Machine.PrintRows | CODE/bootloader/bootloader.c:218-238 | the 16 rows, the cursor moving a word each time |
| Bootloader.Machine.DumpRow | CODE/bootloader/bootloader.c:220-237 | row i joins the rows before it and the cursor moves past its word |
| Bootloader.Machine.DumpWords | CODE/bootloader/bootloader.c:217-247 | an aligned dump sends the dump reply and leaves the cursor after it |
| Bootloader.Machine.ReadWordCommand | CODE/bootloader/bootloader.c:187-198 | `rw` sends the `rw` reply and the cursor takes the address |
| Bootloader.Machine.WriteWordCommand | CODE/bootloader/bootloader.c:199-209 | `ww` sends, stores and moves the cursor as the `ww` reply says |
| Bootloader.Machine.DumpCommand | CODE/bootloader/bootloader.c:210-241 | `dw` takes the named address, `n` keeps the cursor, and the dump reply follows |
| Bootloader.Machine.DumpFromCursor | CODE/bootloader/bootloader.c:217-241 | dump from the cursor, or the alignment complaint |
| Bootloader.Machine.Command | CODE/bootloader/bootloader.c:172-247 | one line: output, memory, cursor and launch exactly as the reply function says; `r` stops the baud generator, clears POUT and enters at `app_start` |
| Bootloader.Machine.Serve | CODE/bootloader/bootloader.c:164-248 | one pass of the monitor loop: prompt, `usart_gets`, command, as the session function says |
| Bootloader.Machine.Monitor | CODE/bootloader/bootloader.c:161-248 | the monitor does what the session function says until `r` or the end of input |
| Bootloader.Machine.Boot | CODE/bootloader/bootloader.c:44-248 | main from reset does what BootRun says: greeting, wait, upload only after `!`, then the monitor; without a key it enters at `app_start` untouched |
| Bootloader.Monitoring | CODE/bootloader/bootloader.c:164-248 | a monitor session ends only by `r` or by running out of input |
| Bootloader.MonitorStoresOnlyOnWw | CODE/bootloader/bootloader.c:199-209 | a session in which no `w` is typed leaves memory as it was |
| Bootloader.MonitorLaunchesOnlyOnR | CODE/bootloader/bootloader.c:182-186 | a session in which no `r` is typed never starts the application |
| Bootloader.NoKeyStartsApplication | CODE/bootloader/bootloader.c:65-69 | without a key hit: greeting, ten stars, entry at `app_start` (0 after reset), input untouched |
| Bootloader.NoUploadNoWriteKeepsMemory | CODE/bootloader/bootloader.c:71-248 | a key other than `!` skips the upload; with no `w` typed, memory and `app_start` are unchanged |
| Bootloader.Toggle | CODE/bootloader/bootloader.c:78 | `POUT ^= 1` flips bit 0 and keeps the other bits |
| Bootloader.TickStep | CODE/bootloader/bootloader.c:52-57 | poll c sends a star exactly when it completes another 2^20 polls |
| Bootloader.PayloadStep | CODE/bootloader/bootloader.c:99-121 | patching one more payload byte extends the patch at the next address |
| Bootloader.NextStep | CODE/bootloader/bootloader.c:120 | `v++` keeps v at start + i modulo 2^32 |
| Bootloader.NextWord | CODE/bootloader/bootloader.c:236 | `addr += 4` keeps the cursor at the i-th word |
| MonitorApp.XDigits | CODE/monitor/monitor.c:117-126 | only hex digits are kept, in order |
| MonitorApp.ReadAddress | CODE/monitor/monitor.c:105-129 | `read_address` returns the 32-bit fold of the hex digits of its argument |
| MonitorApp.Accumulate | CODE/monitor/monitor.c:118-124 | a digit is folded in, in either case; any other character is skipped |
| MonitorApp.ReadAddressSkipsNonDigits | CODE/monitor/monitor.c:117-126 | unlike `parsehex`, `read_address("1x2")` skips the x and returns 0x12 |
| MonitorApp.AddressIsNumber | CODE/monitor/monitor.c:105-129 | the address is the number the digits spell, modulo 2^32 |
| MonitorApp.HalfAt | CODE/monitor/monitor.c:169-170 | a halfword load is below 2^16 |
| MonitorApp.Respond | CODE/monitor/monitor.c:144-192 | every answer ends with CR LF |
| MonitorApp.LoadsOnReadCommands | CODE/monitor/monitor.c:155-188 | a load happens exactly for `rw`, `rh`, `rb`, from the address the line spells, of the width named, before the alignment test |
| MonitorApp.ShowsLoadedValue | CODE/monitor/monitor.c:157-185 | an aligned read shows `>> ` and 8/4/2 hex digits spelling the value loaded; a misaligned `rw`/`rh` names the boundary it missed |
| MonitorApp.ShownDigits | CODE/monitor/monitor.c:161-163 | the digits after `>> ` spell the value shown |
| MonitorApp.OtherLinesEchoed | CODE/monitor/monitor.c:145-192 | an empty line, a short line, an unknown size and a line not starting with `r` get their fixed answers or the echo |
| MonitorApp.Loads | CODE/monitor/monitor.c:155-188 | a line makes at most one load |
| MonitorApp.NoReadNoLoads | CODE/monitor/monitor.c:142-193 | a session in which no `r` is typed makes no load |
| MonitorApp.Monitor.constructor | CODE/monitor/monitor.c:134 | nothing has been loaded yet |
| MonitorApp.Monitor.Answer | CODE/monitor/monitor.c:145-192 | one line is answered and loaded from as Respond says |
| MonitorApp.Monitor.ReadCommand | CODE/monitor/monitor.c:155-188 | a line starting with `r` is answered as Respond says |
| MonitorApp.Monitor.ReadWord | CODE/monitor/monitor.c:157-167 | `rw` loads the word, then shows it only on a 4-byte boundary |
| MonitorApp.Monitor.ReadHalf | CODE/monitor/monitor.c:168-178 | `rh` loads the halfword, then shows it only on a 2-byte boundary |
| MonitorApp.Monitor.ReadOne | CODE/monitor/monitor.c:179-185 | `rb` loads the byte and shows it |
| MonitorApp.Monitor.Run | CODE/monitor/monitor.c:131-193 | main sets the baud divisor, sends the banner and serves every line until the input runs out |
| MonitorApp.Monitor.Loop | CODE/monitor/monitor.c:142-193 | the endless loop sends and loads what the session function says |
| MonitorApp.Monitor.Resume | CODE/monitor/monitor.c:142-193 | one pass continues the session |
| MonitorApp.Monitor.Pass | CODE/monitor/monitor.c:144-192 | one pass reads a line and answers it |
| Srec2Vhdl.NibbleOfDigit | CODE/srec2vhdl/srec2vhdl.c:37-46 | on a hex digit of either case, hex2's arithmetic gives the digit's value |
| Srec2Vhdl.PairIsHexNat | CODE/srec2vhdl/srec2vhdl.c:33-49 | hex2 on two hex digits is the byte they spell |
| Srec2Vhdl.PairsIsHexNat | CODE/srec2vhdl/srec2vhdl.c:52-79 | hex4, hex6 and hex8 on hex digits are the big-endian number the digits spell |
| Srec2Vhdl.AppendPair | CODE/srec2vhdl/srec2vhdl.c:56 | `(hex2 << 8) + hex2` is one more pair of digits |
| Srec2Vhdl.Payload | CODE/srec2vhdl/srec2vhdl.c:214-215 | n pairs of hex digits from the payload column give n bytes |
| Srec2Vhdl.Upper | CODE/srec2vhdl/srec2vhdl.c:37-38 | upper-casing in place keeps the line's length |
| Srec2Vhdl.ConfigureIndent | CODE/srec2vhdl/srec2vhdl.c:117-138 | `-f` turns the full table on for good, and entries are indented exactly when `-f` or `-i` was given |
| Srec2Vhdl.Spaces | CODE/srec2vhdl/srec2vhdl.c:209-211 | `indentarg` spaces, none for a zero or negative argument |
| Srec2Vhdl.DecDigit | CODE/srec2vhdl/srec2vhdl.c:216 | a decimal digit |
| Srec2Vhdl.DecimalValue | CODE/srec2vhdl/srec2vhdl.c:216 | `%lu` prints n itself, without a leading zero |
| Srec2Vhdl.Column4Shape | CODE/srec2vhdl/srec2vhdl.c:216 | `%4lu` pads with spaces to four columns, wider when needed, and ends with the digits |
| Srec2Vhdl.Text | CODE/srec2vhdl/srec2vhdl.c:198-201 | the vendor text has one character per payload byte |
| Srec2Vhdl.OnlyDataWrites | CODE/srec2vhdl/srec2vhdl.c:188-316 | only S1-S3 write to the table; a non-S line gets the line-numbered diagnostic; without `-v` S lines write nothing to stderr; a data record with payload writes |
| Srec2Vhdl.EntriesLength | CODE/srec2vhdl/srec2vhdl.c:214-216 | each entry is at least four characters |
| Srec2Vhdl.PayloadAgree | CODE/srec2vhdl/srec2vhdl.c:214-215 | payload bytes depend only on their own digits |
| Srec2Vhdl.ChecksumIgnored | CODE/srec2vhdl/srec2vhdl.c:205-232 | two data records that agree up to the end of the payload convert alike: the checksum is never examined |
| Srec2Vhdl.FieldsAgree | CODE/srec2vhdl/srec2vhdl.c:205-207 | such records have the same type, count, address and payload |
| Srec2Vhdl.MarginAfterLineStart | CODE/srec2vhdl/srec2vhdl.c:219-224 | a newline then the margin leaves the table ready for an entry with doindent clear |
| Srec2Vhdl.LeadIndents | CODE/srec2vhdl/srec2vhdl.c:208-213 | a record's first entry always follows a line start and the margin |
| Srec2Vhdl.RecordKeepsLayout | CODE/srec2vhdl/srec2vhdl.c:205-232 | as corrected (rule `Corrected`): every record keeps the layout, each line of entries starting with the margin |
| Srec2Vhdl.MidWordRecord | CODE/srec2vhdl/srec2vhdl.c:227-228 | a record ending inside a word closes its line |
| Srec2Vhdl.EmptyRecord | CODE/srec2vhdl/srec2vhdl.c:208-231 | a record without payload on a word boundary leaves only its margin |
| Srec2Vhdl.BoundaryRecord | CODE/srec2vhdl/srec2vhdl.c:218-231 | a record whose last entry ends a word leaves the margin of the next line |
| Srec2Vhdl.BrokenLine | CODE/srec2vhdl/srec2vhdl.c:218-225 | entries ending on a word boundary end with a newline and the margin |
| Srec2Vhdl.DoindentAsWrittenLosesMargin | CODE/srec2vhdl/srec2vhdl.c:227-231 | as written, a record ending mid-word after one ending on a boundary leaves `doindent` clear after a bare newline, so the next entry lacks the margin |
| Srec2Vhdl.BoundaryRecordClearsDoindent | CODE/srec2vhdl/srec2vhdl.c:229-230 | a first record ending on a word boundary clears doindent |
| Srec2Vhdl.ConvertKeepsLayout | CODE/srec2vhdl/srec2vhdl.c:186-317 | as corrected (rule `Corrected`): every line keeps the layout |
| Srec2Vhdl.DataKeepsLayout | CODE/srec2vhdl/srec2vhdl.c:205-288 | as corrected (rule `Corrected`): every data record keeps the layout |
| Srec2Vhdl.TableLayout | CODE/srec2vhdl/srec2vhdl.c:186-319 | as corrected (rule `Corrected`): the whole table keeps the layout from the start |
| Srec2Vhdl.FooterIndented | CODE/srec2vhdl/srec2vhdl.c:321-330 | as corrected (rule `Corrected`): with `-f` the `others` entry also starts after the margin, and the document ends with the package footer |
| Srec2Vhdl.FooterIsLead | CODE/srec2vhdl/srec2vhdl.c:322-326 | the footer's margin is the lead a record would get |
| Srec2Vhdl.AsWrittenDoindent | CODE/srec2vhdl/srec2vhdl.c:227-231 | as written, `doindent` is still set after the table exactly when no data record ended on a word boundary |
| Srec2Vhdl.RulesAgree | CODE/srec2vhdl/srec2vhdl.c:186-319 | the program's table and the corrected table are identical on any input where no record ending inside a word follows one ending on a boundary |
| Srec2Vhdl.AsWrittenLayout | CODE/srec2vhdl/srec2vhdl.c:175-330 | on such input the program's document is the corrected one, and its table keeps the layout |
| Srec2Vhdl.AsWrittenLosesMargin | CODE/srec2vhdl/srec2vhdl.c:208-231 | with a positive margin, once a record ended on a boundary, a later last record ending mid-word leaves the program's table where the next entry gets no margin, while the corrected table keeps it |
| Srec2Vhdl.ExampleLosesMargin | CODE/srec2vhdl/srec2vhdl.c:205-231 | on the three records of the finding below (any payload digits), the program gives no margin to the entry for address 8 or to the footer, and the corrected rule does |
| Srec2Vhdl.FullSettings | CODE/srec2vhdl/srec2vhdl.c:117-123 | `-f` alone sets the full table and an indent of eight |
| Srec2Vhdl.ConvertRuleFree | CODE/srec2vhdl/srec2vhdl.c:205-231 | the `doindent` rule changes neither the text a line writes nor its diagnostics |
| Srec2Vhdl.ConvertSpacesOnly | CODE/srec2vhdl/srec2vhdl.c:186-317 | whatever `doindent` is and whichever rule is used, a line writes the same table text up to spaces and the same diagnostics |
| Srec2Vhdl.OnlySpacesDiffer | CODE/srec2vhdl/srec2vhdl.c:186-319 | the program's table and the corrected table differ only in spaces, and their diagnostics are the same |
| Srec2Vhdl.Hex2 | CODE/srec2vhdl/srec2vhdl.c:33-49 | hex2 upper-cases its two characters in place and returns their combination |
| Srec2Vhdl.Hex4 | CODE/srec2vhdl/srec2vhdl.c:52-59 | hex4 is the big-endian combination of two pairs |
| Srec2Vhdl.Hex6 | CODE/srec2vhdl/srec2vhdl.c:62-69 | hex6 is the big-endian combination of three pairs |
| Srec2Vhdl.Hex8 | CODE/srec2vhdl/srec2vhdl.c:72-79 | hex8 is the big-endian combination of four pairs |
| Srec2Vhdl.UpperJoin | CODE/srec2vhdl/srec2vhdl.c:56 | two hex2 calls upper-case the union of their ranges |
| Srec2Vhdl.PairUpper | CODE/srec2vhdl/srec2vhdl.c:56 | an earlier hex2 does not change what a later one reads |
| Srec2Vhdl.PairsSlice | CODE/srec2vhdl/srec2vhdl.c:66-76 | one more pair is the big-endian step of hex4, hex6, hex8 |
| Srec2Vhdl.Converter.constructor | CODE/srec2vhdl/srec2vhdl.c:86-91 | nothing written, doindent set, line 0 |
| Srec2Vhdl.Converter.Indent | CODE/srec2vhdl/srec2vhdl.c:209-211 | `indentarg` spaces are written |
| Srec2Vhdl.Converter.PutEntry | CODE/srec2vhdl/srec2vhdl.c:215-225 | one entry, then a newline and margin when the next address starts a word |
| Srec2Vhdl.Converter.PutEntries | CODE/srec2vhdl/srec2vhdl.c:214-226 | the entry loop writes the entries of the payload from the address on |
| Srec2Vhdl.Converter.NextEntry | CODE/srec2vhdl/srec2vhdl.c:214-226 | one turn of the entry loop extends the entries |
| Srec2Vhdl.Converter.DataRecord | CODE/srec2vhdl/srec2vhdl.c:205-288 | a data record writes its record text and leaves `doindent` as the source does: cleared when the record ends on a word boundary, unchanged otherwise |
| Srec2Vhdl.Converter.PutRecord | CODE/srec2vhdl/srec2vhdl.c:208-231 | margin when `doindent` is set, entries, then a bare newline with `doindent` unchanged, or `doindent` cleared on a word boundary |
| Srec2Vhdl.Converter.ReadHeader | CODE/srec2vhdl/srec2vhdl.c:205-207 | count less the overhead, the address and the payload column by type |
| Srec2Vhdl.Converter.Vendor | CODE/srec2vhdl/srec2vhdl.c:194-204 | S0 writes its vendor text to stderr only with `-v` |
| Srec2Vhdl.Converter.VendorChars | CODE/srec2vhdl/srec2vhdl.c:198-201 | the vendor loop turns each payload pair into a character |
| Srec2Vhdl.Converter.Handle | CODE/srec2vhdl/srec2vhdl.c:187-317 | one line: the line count goes up, and the output, stderr and `doindent` change as Convert says under the source's own `doindent` rule |
| Srec2Vhdl.Converter.Switch | CODE/srec2vhdl/srec2vhdl.c:193-317 | the switch on the type character does what Convert says under the source's own `doindent` rule |
| Srec2Vhdl.Converter.Run | CODE/srec2vhdl/srec2vhdl.c:175-330 | main from the header on writes exactly the document under the source's own `doindent` rule, and the table's diagnostics |
| Srec2Vhdl.Converter.Finish | CODE/srec2vhdl/srec2vhdl.c:321-330 | with `-f`, the footer, indented if doindent is set |
| Srec2Vhdl.Converter.NextLine | CODE/srec2vhdl/srec2vhdl.c:186-319 | one turn of the line loop extends the table, under the source's own `doindent` rule, by one line |
| Srec2Vhdl.Fetch | CODE/srec2vhdl/srec2vhdl.c:186 | fgets puts the line and a NUL in the buffer and leaves the rest |
| Srec2Vhdl.TableSnoc | CODE/srec2vhdl/srec2vhdl.c:186-319 | the table over one more line is the table so far plus that line's effect |
| Srec2Vhdl.EntriesSnoc | CODE/srec2vhdl/srec2vhdl.c:214-226 | entries grow by one entry and its break per byte |
| Syscalls.SbrkStep | CODE/syscalls/syscalls.c:110-136 | refused exactly when heap end + incr exceeds the stack limit, returning −1 with ENOMEM and the heap end unchanged; otherwise returns the old heap end and advances it by incr; the first call starts from `&_end` |
| Syscalls.ShrinkNeverRefused | CODE/syscalls/syscalls.c:126 | a call that does not grow the heap is never refused |
| Syscalls.HeapWithinLimit | CODE/syscalls/syscalls.c:119-135 | the heap end never passes the stack limit, whatever the calls |
| Syscalls.BlocksDisjoint | CODE/syscalls/syscalls.c:132-135 | the blocks granted are in order, do not overlap and lie below the heap end |
| Syscalls.StubErrnos | CODE/syscalls/syscalls.c:42-105 | the stubs that set errno return −1 with distinct fixed errnos; `_fstat` and `_stat` report a character device; `_isatty` returns 1 |
| Syscalls.Runtime.constructor | CODE/syscalls/syscalls.c:108 | the heap end starts NULL |
| Syscalls.Runtime.Sbrk | CODE/syscalls/syscalls.c:110-136 | `_sbrk` updates the heap end and errno as SbrkStep says and keeps the heap below the stack |
| Syscalls.Runtime.Read | CODE/syscalls/syscalls.c:26-32 | `_read` stores the next n characters of `__io_getchar` into the buffer and returns n |
| Syscalls.Runtime.Write | CODE/syscalls/syscalls.c:34-40 | `_write` passes the first n bytes of the buffer to `__io_putchar` in order and returns n |
| Syscalls.Runtime.Call | CODE/syscalls/syscalls.c:42-105 | each stub returns its constant and sets its errno, if any |

## Left out

- The UART registers, the busy-waits on `USART->STAT` and `usart_init`: the transport is the `Serial.Port` input sequence and output log. The bootloader's own `usart.c` is not part of this model; its `usart_gets` is modelled by the shown copy in `CODE/monitor/monitor.c`.
- Timing: when the host's first character arrives is the parameter `arrival` of `Bootloader.Machine.BootGate`, counted in polls.
- Bootloader.Machine.BootGate: the LED shift of POUT during the wait is performed but not stated; only the final POUT of 0 is.
- Bootloader.Machine.Boot: when the input runs out inside an uploaded record, the bytes already patched are stored but not stated (`settled` is false); the firmware would wait for ever at that point.
- The jump through `app_start` and the jump itself: a terminal status `Launched(entry)`.
- A data record whose count is below its overhead makes the bootloader's `count` wrap to a huge value; the model computes that wrap (`Upload.PayloadCount`) and then runs out of input, as the firmware would block.
- MonitorApp: a misaligned load in `rw`/`rh` would trap on the target; the model records the load and the message, not the trap.
- srec2vhdl: file handling, the usage text, option errors, `argv`, the `Using stdout` and startup messages, and the stderr text itself (diagnostics are kept as events).
- Srec2Vhdl.Converter.Run: requires every line to be shorter than `LENGTH` characters with its NUL (fgets would split a longer one), and every data record, and an S0 record under `-v`, to carry hex digits up to the end of its payload with a count of at least the overhead; on other input hex2 and the unsigned `val - overhead` give meaningless values.
- Srec2Vhdl.Hex2: on characters that are not hex digits, the value is computed on unbounded integers, not with the 64-bit unsigned wrap of `unsigned long int`.
- Syscalls.Runtime.Sbrk: pointers are exact integers, so `heap_end + incr` does not wrap; a negative `incr` beyond the heap start is not excluded.
- Syscalls.Runtime.constructor: requires the linker symbol `_end` to lie at or below the stack limit, which the linker script guarantees; with it the heap end is proved never to pass the limit.
- Syscalls.Runtime.Read: `__io_getchar` is the stream `getchar` of the runtime and `__io_putchar` the log `sent`; which definition the application links in is not part of this model, and the `fd` argument is ignored as in the source.
- Syscalls.Runtime.Call: of `struct stat` only `st_mode` is modelled, and the stubs' other arguments (which the stubs never read) are not parameters.

## Findings

| source | as written | input that shows it | evidently intended | confidence | as-written member | corrected member |
|---|---|---|---|---|---|---|
| CODE/srec2vhdl/srec2vhdl.c:227-231 | after a record that ends inside a word, the bare newline is written but `doindent` keeps its value; once a record has ended on a word boundary `doindent` is 0 for good (the `doindent = 1` at line 212 only repeats the test it sits in) | `srec2vhdl -f` on the lines `S1070000AABBCCDD00`, `S1040004EE00` and `S1040008FF00` (checksums are not examined): the entry for address 8 starts its line without the eight-space margin | set `doindent` after writing the bare newline, so every line of entries starts with the margin | not executed; high that the layout breaks, medium that the margin was intended | Srec2Vhdl.ExampleLosesMargin | Srec2Vhdl.TableLayout |
