/**
 * The bootloader's main program (CODE/bootloader/bootloader.c) as a
 * machine over the serial port, the memory and the two device registers it
 * writes: the boot gate that waits for a key, the S-record upload loop and
 * the command monitor. Each phase is proved against the functions of
 * Upload, LineEditor and Commands that say what it computes.
 */
module Bootloader {
  import opened Wrappers
  import opened Ctype
  import opened Word
  import opened Serial
  import opened SRecord
  import opened HexCodec
  import opened Memory
  import opened Upload
  import opened LineEditor
  import opened Commands

  const GREETING: seq<char> := "\r\nTHUAS RISC-V Bootloader v0.1\r\n"

  /** BUFLEN: the command buffer, NUL included. */
  const BUFLEN: nat := 41

  /** BOOTWAIT: the key wait lasts BOOTWAIT · 2^20 polls, a star per 2^20. */
  const BOOTWAIT: nat := 10
  const MEG: nat := 0x10_0000

  /** The last poll of the key wait. */
  function WaitLimit(): nat { BOOTWAIT * MEG }

  /** n stars. */
  function Stars(n: nat): (r: seq<char>)
    ensures |r| == n && forall k :: 0 <= k < n ==> r[k] == '*'
  {
    if n == 0 then [] else Stars(n - 1) + ['*']
  }

  /**
   * Whether the wait sees a key: a character is waiting (none has been
   * read yet) and it arrived by the last poll. `arrival` is the poll at
   * which the host's first character has come in; the timing of the UART
   * is not part of this model.
   */
  predicate KeyHit(s: seq<char>, arrival: nat)
  {
    |s| > 0 && arrival <= WaitLimit()
  }

  /** The polls made: up to the arrival (at least one), or all of them. */
  function Polls(s: seq<char>, arrival: nat): nat
  {
    if KeyHit(s, arrival) then (if arrival < 1 then 1 else arrival) else WaitLimit()
  }

  /** Where the machine stands. */
  datatype Status =
    | Running          // executing the bootloader
    | Launched(entry: Ulong) // jumped to the application at entry
    | Waiting          // blocked in usart_getc: the input ran out

  class Machine {
    const port: Port
    /** The target's memory. */
    var mem: Mem
    /** app_start: where the application is entered. */
    var appStart: Ulong
    /** The monitor's cursor, `addr`. */
    var addr: Ulong
    /** USART->BAUD */
    var baud: Ulong
    /** GPIOA->POUT: the LEDs. */
    var pout: Ulong
    var status: Status

    /** Reset: app_start and addr are 0; usart_init has set the baud divisor. */
    constructor (port: Port, mem: Mem, baud: Ulong)
      ensures this.port == port && this.mem == mem && this.baud == baud
      ensures appStart == 0 && addr == 0 && pout == 0 && status == Running
    {
      this.port := port;
      this.mem := mem;
      this.baud := baud;
      appStart := 0;
      addr := 0;
      pout := 0;
      status := Running;
    }

    /**
     * The key wait: POUT shows ten LEDs and loses one per star; a star is
     * sent every 2^20 polls; the wait ends at the first poll that sees a
     * character. POUT is cleared afterwards.
     */
    method BootGate(arrival: nat) returns (keyhit: bool)
      requires port.Valid() && port.pos == 0
      modifies this`pout, port`output
      ensures keyhit == KeyHit(port.input, arrival)
      ensures port.output == old(port.output) + Stars(Polls(port.input, arrival) / MEG)
      ensures pout == 0
    {
      ghost var o0 := port.output;
      pout := 0x3FF;
      keyhit := false;
      var count := 1;
      ghost var stars := 0;
      while count <= BOOTWAIT * MEG
        invariant 1 <= count <= WaitLimit() + 1
        invariant stars == (count - 1) / MEG
        invariant port.output == o0 + Stars(stars)
        invariant port.pos >= |port.input| || count == 1 || count <= arrival
      {
        TickStep(count);
        if count % MEG == 0 {
          port.PutC('*');
          pout := pout / 2;
          stars := stars + 1;
        }
        if port.Received() && arrival <= count {
          keyhit := true;
          break;
        }
        count := count + 1;
      }
      pout := 0;
    }

    /**
     * `while ((c = usart_getc()) != '\n');`: ok is false when the input
     * runs out first.
     */
    method SkipLine() returns (ok: bool)
      requires port.Valid()
      modifies port`pos
      ensures port.Valid()
      ensures var e := LineEnd(port.input, old(port.pos));
        ok == e.Some? && port.pos == (if ok then e.value else |port.input|)
    {
      while true
        invariant port.Valid() && old(port.pos) <= port.pos
        invariant LineEnd(port.input, port.pos) == LineEnd(port.input, old(port.pos))
        decreases |port.input| - port.pos
      {
        var c := port.GetC();
        if c.None? {
          return false;
        }
        if c.value == '\n' {
          return true;
        }
      }
    }

    /**
     * A data record from its count on: the count less the overhead bytes
     * are read two digits at a time and patched into memory from the
     * record's address upwards, a byte lane at a time; then the rest of the
     * line is skipped.
     */
    method ReadData(t: char) returns (ok: bool)
      requires port.Valid() && IsData(t)
      modifies port`pos, this`mem
      ensures port.Valid()
      ensures ok == DataRecord(port.input, t, old(port.pos)).Some?
      ensures ok ==> port.pos == DataRecord(port.input, t, old(port.pos)).value.1
      ensures ok ==> mem == Apply(DataRecord(port.input, t, old(port.pos)).value.0, old(mem), appStart).0
      ensures !ok ==> port.pos == |port.input|
    {
      ghost var s, q, m0 := port.input, port.pos, mem;
      var count, start;
      ok, count, start := ReadHeader(t);
      if ok {
        ok := ReadPayload(start, count);
      }
      if ok {
        ok := SkipLine();
      }
      DataRecordSteps(s, t, q);
    }

    /**
     * The data record's count and address: the count less the overhead
     * bytes, as unsigned long arithmetic computes it, and the address.
     */
    method ReadHeader(t: char) returns (ok: bool, count: Ulong, start: Ulong)
      requires port.Valid() && IsData(t)
      modifies port`pos
      ensures port.Valid()
      ensures ok == (old(port.pos) + 2 + AddressDigits(t) <= |port.input|)
      ensures ok ==> port.pos == old(port.pos) + 2 + AddressDigits(t)
      ensures ok ==> count == PayloadCount(port.input, t, old(port.pos))
      ensures ok ==> start == HexAt(port.input, old(port.pos) + 2, AddressDigits(t))
      ensures !ok ==> port.pos == |port.input|
    {
      var n;
      ok, n := GetHex(port, 2);
      if !ok {
        return false, 0, 0;
      }
      count := Wrap(n - Overhead(t));
      ok, start := GetHex(port, AddressDigits(t));
    }

    /**
     * The payload loop: count bytes, two digits each, patched in from
     * address start upwards with the address wrapping at 2^32.
     */
    method ReadPayload(start: Ulong, count: Ulong) returns (ok: bool)
      requires port.Valid()
      modifies port`pos, this`mem
      ensures port.Valid()
      ensures ok == (old(port.pos) + 2 * count <= |port.input|)
      ensures ok ==> port.pos == old(port.pos) + 2 * count
      ensures ok ==> mem == PatchBytes(old(mem), start, Payload(port.input, old(port.pos), count))
      ensures !ok ==> port.pos == |port.input|
    {
      ghost var s, d, m0 := port.input, port.pos, mem;
      var v := start;
      var i: Ulong := 0;
      while i < count
        invariant port.Valid() && i <= count
        invariant port.pos == d + 2 * i <= |s|
        invariant v == Wrap(start + i)
        invariant mem == PatchBytes(m0, start, Payload(s, d, i))
      {
        var more, b := GetByte();
        if !more {
          return false;
        }
        PayloadStep(m0, start, s, d, i);
        NextStep(start, i);
        PatchIn(v, b);
        v := Next(v);
        i := i + 1;
      }
      return true;
    }

    /** `gethex(2)` for a payload byte. */
    method GetByte() returns (ok: bool, b: Byte)
      requires port.Valid()
      modifies port`pos
      ensures port.Valid()
      ensures ok == (old(port.pos) + 2 <= |port.input|)
      ensures ok ==> port.pos == old(port.pos) + 2 && b == ByteAt2(port.input, old(port.pos))
      ensures !ok ==> port.pos == |port.input|
    {
      var v;
      ok, v := GetHex(port, 2);
      assert Pow16(2) == 256;
      b := if ok then v else 0;
    }

    /** Read the word holding v, patch byte lane v & 3 with b, write the word back. */
    method PatchIn(v: Ulong, b: Byte)
      modifies this`mem
      ensures mem == PatchByte(old(mem), v, b)
    {
      var word := WordAt(mem, v);
      word := PatchLane(word, v % 4, b);
      mem := StoreWord(mem, v, word);
    }

    /**
     * A termination record from its count on: the count is read and
     * dropped, the address is read, the line is skipped and app_start takes
     * the address.
     */
    method ReadEntry(t: char) returns (ok: bool)
      requires port.Valid() && IsTermination(t)
      modifies port`pos, this`appStart
      ensures port.Valid()
      ensures ok == TerminationRecord(port.input, t, old(port.pos)).Some?
      ensures ok ==> port.pos == TerminationRecord(port.input, t, old(port.pos)).value.1
      ensures ok ==> appStart == Apply(TerminationRecord(port.input, t, old(port.pos)).value.0, mem, old(appStart)).1
      ensures !ok ==> port.pos == |port.input| && appStart == old(appStart)
    {
      var ok1, n := GetHex(port, 2);
      if !ok1 {
        return false;
      }
      var ok2, v := GetHex(port, AddressDigits(t));
      if !ok2 {
        return false;
      }
      ok := SkipLine();
      if ok {
        appStart := v;
      }
    }

    /** The record after an `S`: its type character, then by type. */
    method ReadRecord() returns (ok: bool)
      requires port.Valid()
      modifies port`pos, this`mem, this`appStart
      ensures port.Valid()
      ensures ok == DecodeRecord(port.input, old(port.pos)).Some?
      ensures ok ==> port.pos == DecodeRecord(port.input, old(port.pos)).value.1
      ensures ok ==> mem == Apply(DecodeRecord(port.input, old(port.pos)).value.0, old(mem), old(appStart)).0
      ensures ok ==> appStart == Apply(DecodeRecord(port.input, old(port.pos)).value.0, old(mem), old(appStart)).1
      ensures !ok ==> port.pos == |port.input| && appStart == old(appStart)
    {
      ghost var p := port.pos;
      var c := port.GetC();
      if c.None? {
        return false;
      }
      DecodeCases(port.input, p);
      var t := c.value;
      if t == '1' || t == '2' || t == '3' {
        ok := ReadData(t);
      } else if t == '7' || t == '8' || t == '9' {
        ok := ReadEntry(t);
      } else {
        ok := SkipLine();
      }
    }

    /**
     * The upload loop, entered after the `!` has been answered: POUT's low
     * bit toggles for every character read; each record or stray character
     * is answered with `?\n`; `J` shuts the UART's baud generator off,
     * clears POUT and enters the application; `#` ends the loop with POUT
     * showing 0xaa.
     */
    method UploadLoop() returns (ghost r: Session)
      requires port.Valid() && status == Running
      modifies port`pos, port`output, this`mem, this`appStart, this`baud, this`pout, this`status
      ensures port.Valid()
      ensures r == Run(port.input, old(port.pos), old(mem), old(appStart), 0)
      ensures port.output == old(port.output) + Acks(r.acks)
      ensures appStart == r.appStart
      ensures r.end == Finished ==> status == Running && mem == r.mem && port.pos == r.pos && pout == 0xAA
      ensures r.end == Jumped ==>
        status == Launched(r.appStart) && mem == r.mem && port.pos == r.pos && baud == 0 && pout == 0
      ensures r.end == Starved ==> status == Waiting && port.pos == |port.input|
    {
      ghost var s, o0 := port.input, port.output;
      r := Run(s, port.pos, mem, appStart, 0);
      ghost var acks := 0;
      while true
        invariant port.Valid() && status == Running
        invariant Run(s, port.pos, mem, appStart, acks) == r
        invariant port.output == o0 + Acks(acks)
        decreases |s| - port.pos
      {
        var more := UploadStep(acks);
        if !more {
          break;
        }
        acks := acks + 1;
      }
      if status == Running {
        pout := 0xAA;
      }
    }

    /**
     * One pass of the upload loop: POUT's low bit toggles, a character is
     * read and acted on. When the loop goes on (`more`), `?\n` has been sent
     * and the session from here on is the rest of the one before.
     */
    method UploadStep(ghost acks: nat) returns (more: bool)
      requires port.Valid() && status == Running
      modifies port`pos, port`output, this`mem, this`appStart, this`baud, this`pout, this`status
      ensures port.Valid()
      ensures var r := Run(port.input, old(port.pos), old(mem), old(appStart), acks);
        && (more ==> status == Running && old(port.pos) < port.pos && port.output == old(port.output) + "?\n"
                     && Run(port.input, port.pos, mem, appStart, acks + 1) == r)
        && (!more ==> port.output == old(port.output) && r.acks == acks && appStart == r.appStart)
        && (!more && r.end == Finished ==> status == Running && mem == r.mem && port.pos == r.pos)
        && (!more && r.end == Jumped ==>
              status == Launched(r.appStart) && mem == r.mem && port.pos == r.pos && baud == 0 && pout == 0)
        && (!more && r.end == Starved ==> status == Waiting && port.pos == |port.input|)
    {
      pout := Toggle(pout);
      RunStep(port.input, port.pos, mem, appStart, acks);
      var c := port.GetC();
      if c.None? {
        status := Waiting;
        return false;
      }
      if c.value == 'S' {
        var ok := ReadRecord();
        if !ok {
          status := Waiting;
          return false;
        }
      } else if c.value == 'J' {
        baud := 0;
        pout := 0;
        status := Launched(appStart);
        return false;
      } else if c.value == '#' {
        return false;
      }
      port.PutS("?\n");
      more := true;
    }

    /**
     * The ASCII column of one dump row: bytes 3 down to 0 of v, each shown
     * as itself when printable and as '.' otherwise.
     */
    method PrintAscii(v: Ulong)
      modifies port`output
      ensures port.output == old(port.output) + Ascii(v)
    {
      ghost var o0 := port.output;
      ghost var text := Ascii(v);
      var j := 3;
      while j > -1
        invariant -1 <= j <= 3
        invariant port.output == o0 + text[..3 - j]
      {
        var c := ByteAt(v, j);
        AsciiColumn(v, 3 - j);
        if IsPrint(c as char) {
          port.PutC(c as char);
        } else {
          port.PutC('.');
        }
        assert text[..4 - j] == text[..3 - j] + [text[3 - j]];
        j := j - 1;
      }
      assert text[..4] == text;
    }

    /** One dump row: the address, the word stored there and its ASCII column. */
    method PrintRow(a: Ulong)
      modifies port`output
      ensures port.output == old(port.output) + Row(mem, a)
    {
      ghost var o0 := port.output;
      PrintHex(port, a, 8);
      port.PutS(": ");
      var v := WordAt(mem, a);
      PrintHex(port, v, 8);
      port.PutS("  ");
      PrintAscii(v);
      port.PutS(CRLF);
      SentInOrder(o0, HexText(a, 8), ": ");
      SentInOrder(o0, HexText(a, 8) + ": ", HexText(v, 8));
      SentInOrder(o0, HexText(a, 8) + ": " + HexText(v, 8), "  ");
      SentInOrder(o0, HexText(a, 8) + ": " + HexText(v, 8) + "  ", Ascii(v));
      SentInOrder(o0, HexText(a, 8) + ": " + HexText(v, 8) + "  " + Ascii(v), CRLF);
    }

    /** The 16 rows of a dump, the cursor moving a word at a time. */
    method PrintRows()
      modifies port`output, this`addr
      ensures port.output == old(port.output) + DumpText(mem, old(addr), Rows())
      ensures addr == Cursor(old(addr), Rows())
    {
      ghost var o0, a0 := port.output, addr;
      var i: nat := 0;
      while i != Rows()
        invariant i <= Rows()
        invariant port.output == o0 + DumpText(mem, a0, i)
        invariant addr == Cursor(a0, i)
      {
        DumpRow(o0, a0, i);
        i := i + 1;
      }
    }

    /** Row i of a dump from a0: printed, and the cursor moved past its word. */
    method DumpRow(ghost o0: seq<char>, ghost a0: Ulong, ghost i: nat)
      requires port.output == o0 + DumpText(mem, a0, i) && addr == Cursor(a0, i)
      modifies port`output, this`addr
      ensures port.output == o0 + DumpText(mem, a0, i + 1) && addr == Cursor(a0, i + 1)
    {
      DumpGrows(o0, port.output, mem, a0, i);
      PrintRow(addr);
      addr := Advance(addr);
    }

    /**
     * `dw <addr>` and `n` from an aligned cursor: the rows, then the line
     * end every command gets.
     */
    method DumpWords()
      requires Aligned(addr)
      modifies port`output, this`addr
      ensures port.output == old(port.output) + DumpReply(mem, old(addr)).out
      ensures addr == DumpReply(mem, old(addr)).addr
    {
      ghost var o0, a0 := port.output, addr;
      PrintRows();
      CursorIs(a0, Rows());
      port.PutS(CRLF);
      SentInOrder(o0, DumpText(mem, a0, Rows()), CRLF);
      AlignedDump(mem, a0);
    }

    /** `rw <addr>`: the word at an aligned address, or the alignment complaint. */
    method ReadWordCommand(line: seq<char>)
      requires 3 <= |line|
      modifies port`output, this`addr
      ensures port.output == old(port.output) + ReadWordReply(mem, line).out
      ensures addr == ReadWordReply(mem, line).addr
    {
      ghost var o0 := port.output;
      var stop;
      addr, stop := ParseHex(line, 3);
      ghost var body: seq<char>;
      if addr % 4 == 0 {
        PrintHex(port, addr, 8);
        port.PutS(": ");
        var v := WordAt(mem, addr);
        PrintHex(port, v, 8);
        body := HexText(addr, 8) + ": " + HexText(v, 8);
        SentInOrder(o0, HexText(addr, 8), ": ");
        SentInOrder(o0, HexText(addr, 8) + ": ", HexText(v, 8));
      } else {
        port.PutS(UNALIGNED);
        body := UNALIGNED;
      }
      port.PutS(CRLF);
      SentInOrder(o0, body, CRLF);
    }

    /** `ww <addr> <data>`: the data is stored at an aligned address, parsed from where the address ended. */
    method WriteWordCommand(line: seq<char>)
      requires 3 <= |line|
      modifies port`output, this`addr, this`mem
      ensures port.output == old(port.output) + WriteWordReply(old(mem), line).out
      ensures addr == WriteWordReply(old(mem), line).addr
      ensures mem == WriteWordReply(old(mem), line).mem
    {
      var stop;
      addr, stop := ParseHex(line, 3);
      if addr % 4 == 0 {
        var v, _ := ParseHex(line, stop);
        mem := StoreWord(mem, addr, v);
      } else {
        port.PutS(UNALIGNED);
      }
      port.PutS(CRLF);
      SentInOrder(old(port.output), if Aligned(addr) then [] else UNALIGNED, CRLF);
    }

    /**
     * `dw <addr>` or a line starting with `n`: the cursor takes the named
     * address (an `n` keeps it) and an aligned cursor is dumped from.
     */
    method DumpCommand(line: seq<char>)
      requires |line| > 0 && (line[0] == 'n' || 3 <= |line|)
      modifies port`output, this`addr
      ensures port.output == old(port.output) + DumpReply(mem, if line[0] == 'n' then old(addr) else AddressOf(line)).out
      ensures addr == DumpReply(mem, if line[0] == 'n' then old(addr) else AddressOf(line)).addr
    {
      if line[0] != 'n' {
        addr := ParseAddress(line);
      }
      DumpFromCursor();
    }

    /** The address a `dw` line names, parsed after the command letters. */
    static method ParseAddress(line: seq<char>) returns (a: Ulong)
      requires 3 <= |line|
      ensures a == AddressOf(line)
    {
      var stop;
      a, stop := ParseHex(line, 3);
    }

    /** The dump from the cursor, or the complaint when it is not word-aligned. */
    method DumpFromCursor()
      modifies port`output, this`addr
      ensures port.output == old(port.output) + DumpReply(mem, old(addr)).out
      ensures addr == DumpReply(mem, old(addr)).addr
    {
      if addr % 4 == 0 {
        DumpWords();
      } else {
        ghost var o0 := port.output;
        port.PutS(UNALIGNED);
        port.PutS(CRLF);
        SentInOrder(o0, UNALIGNED, CRLF);
      }
    }

    /**
     * One pass of the monitor loop after the line has been read: the
     * command is dispatched in the source's order; `r` shuts the baud
     * generator off, clears POUT and enters the application.
     */
    method Command(line: seq<char>) returns (launched: bool)
      requires status == Running
      modifies port`output, this`addr, this`mem, this`baud, this`pout, this`status
      ensures launched == Respond(old(mem), old(addr), line).launch
      ensures port.output == old(port.output) + Respond(old(mem), old(addr), line).out
      ensures mem == Respond(old(mem), old(addr), line).mem
      ensures addr == Respond(old(mem), old(addr), line).addr
      ensures launched ==> status == Launched(appStart) && baud == 0 && pout == 0
      ensures !launched ==> status == Running && baud == old(baud) && pout == old(pout)
    {
      RespondCases(mem, addr, line);
      launched := false;
      ghost var o0 := port.output;
      if line == "h" {
        port.PutS(HELP);
        port.PutS(CRLF);
        SentInOrder(o0, HELP, CRLF);
      } else if line == "r" {
        baud := 0;
        pout := 0;
        status := Launched(appStart);
        launched := true;
      } else if Starts(line, 'r', 'w', ' ') {
        ReadWordCommand(line);
      } else if Starts(line, 'w', 'w', ' ') {
        WriteWordCommand(line);
      } else if Starts(line, 'd', 'w', ' ') || (|line| > 0 && line[0] == 'n') {
        DumpCommand(line);
      } else if |line| == 0 {
        port.PutS(CRLF);
      } else {
        port.PutS("??");
        port.PutS(CRLF);
        SentInOrder(o0, "??", CRLF);
      }
    }

    /**
     * One pass of the monitor loop: the prompt, usart_gets into the
     * buffer, then the command. `sent` is what the pass put on the wire.
     */
    method Serve(buffer: array<char>) returns (more: bool, ghost sent: seq<char>)
      requires port.Valid() && status == Running && buffer.Length == BUFLEN
      modifies port`pos, port`output, this`mem, this`addr, this`baud, this`pout, this`status, buffer
      ensures port.Valid() && port.output == old(port.output) + sent
      ensures more ==> status == Running && old(port.pos) < port.pos
      ensures more ==>
        Monitoring(port.input, old(port.pos), old(mem), old(addr)) == Prefixed(sent, Monitoring(port.input, port.pos, mem, addr))
      ensures !more ==>
        Monitoring(port.input, old(port.pos), old(mem), old(addr)) == Console(sent, mem, addr, port.pos, status.Launched?)
      ensures !more && status.Launched? ==> status == Launched(appStart) && baud == 0 && pout == 0
      ensures !more && !status.Launched? ==> status == Waiting && port.pos == |port.input|
    {
      ghost var s, p, m, a, o := port.input, port.pos, mem, addr, port.output;
      ghost var g := Gets(s, p, [], [], BUFLEN);
      MonitorStep(s, p, m, a, g, Respond(m, a, g.line));
      port.PutS("> ");
      var complete, index := GetLine(port, buffer, BUFLEN);
      SentInOrder(o, "> ", g.echo);
      if !complete {
        status := Waiting;
        return false, "> " + g.echo;
      }
      var launched := Command(buffer[..index]);
      SentInOrder(o, "> " + g.echo, Respond(m, a, g.line).out);
      return !launched, "> " + g.echo + Respond(m, a, g.line).out;
    }

    /**
     * The monitor: prompt, read a line, obey it, for as long as the input
     * lasts or until `r` starts the application.
     */
    method Monitor() returns (ghost c: Console)
      requires port.Valid() && status == Running
      modifies port`pos, port`output, this`mem, this`addr, this`baud, this`pout, this`status
      ensures port.Valid()
      ensures c == Monitoring(port.input, old(port.pos), old(mem), old(addr))
      ensures port.output == old(port.output) + c.out
      ensures mem == c.mem && addr == c.addr && port.pos == c.pos
      ensures c.launched ==> status == Launched(appStart) && baud == 0 && pout == 0
      ensures !c.launched ==> status == Waiting && port.pos == |port.input|
    {
      ghost var s, o0 := port.input, port.output;
      c := Monitoring(s, port.pos, mem, addr);
      var buffer := new char[BUFLEN];
      ghost var sent: seq<char> := [];
      while true
        invariant port.Valid() && status == Running
        invariant port.output == o0 + sent
        invariant c == Prefixed(sent, Monitoring(s, port.pos, mem, addr))
        decreases |s| - port.pos
      {
        var more, step := Serve(buffer);
        SentInOrder(o0, sent, step);
        if !more {
          sent := sent + step;
          break;
        }
        PrefixedTwice(sent, step, Monitoring(s, port.pos, mem, addr));
        sent := sent + step;
      }
    }

    /**
     * main after reset: the greeting, the key wait, the upload when the key
     * is `!`, then the line end and the monitor. Without a key hit the
     * application is entered at app_start with nothing else changed.
     */
    method Boot(arrival: nat) returns (ghost b: Outcome)
      requires port.Valid() && port.pos == 0 && status == Running
      modifies port`pos, port`output, this`mem, this`appStart, this`addr, this`baud, this`pout, this`status
      ensures port.Valid()
      ensures b == BootRun(port.input, arrival, old(mem), old(appStart), old(addr))
      ensures port.output == old(port.output) + b.out
      ensures status == b.status && appStart == b.appStart && addr == b.addr && port.pos == b.pos
      ensures b.settled ==> mem == b.mem
      ensures !KeyHit(port.input, arrival) ==> baud == old(baud) && pout == 0
    {
      ghost var s, m, app, a, o0 := port.input, mem, appStart, addr, port.output;
      b := BootRun(s, arrival, m, app, a);
      port.PutS(GREETING);
      var keyhit := BootGate(arrival);
      SentInOrder(o0, GREETING, Stars(Polls(s, arrival) / MEG));
      ghost var opening := GREETING + Stars(Polls(s, arrival) / MEG);
      if !keyhit {
        status := Launched(appStart);
        return;
      }
      var c := port.GetC();
      ghost var sent := opening;
      if c == Some('!') {
        port.PutS("?\n");
        var u := UploadLoop();
        SentInOrder(o0, opening, "?\n");
        SentInOrder(o0, opening + "?\n", Acks(u.acks));
        sent := opening + "?\n" + Acks(u.acks);
        if status != Running {
          return;
        }
      }
      port.PutS(CRLF);
      var k := Monitor();
      SentInOrder(o0, sent, CRLF);
      SentInOrder(o0, sent + CRLF, k.out);
    }
  }

  /**
   * Where main ends: what it sent, memory (known unless the input ran out
   * inside an uploaded record, which may be partly stored), app_start, the
   * cursor, the input position and the machine's status.
   */
  datatype Outcome = Outcome(out: seq<char>, mem: Mem, settled: bool, appStart: Ulong, addr: Ulong, pos: nat, status: Status)

  /** The greeting and the stars of the key wait. */
  function Opening(s: seq<char>, arrival: nat): seq<char>
  {
    GREETING + Stars(Polls(s, arrival) / MEG)
  }

  /** main from reset, on input s, memory m, app_start app and cursor a. */
  function BootRun(s: seq<char>, arrival: nat, m: Mem, app: Ulong, a: Ulong): Outcome
  {
    if !KeyHit(s, arrival) then Outcome(Opening(s, arrival), m, true, app, a, 0, Launched(app))
    else if s[0] == '!' then
      var u := Run(s, 1, m, app, 0);
      var sent := Opening(s, arrival) + "?\n" + Acks(u.acks);
      match u.end
      case Jumped => Outcome(sent, u.mem, true, u.appStart, a, u.pos, Launched(u.appStart))
      case Starved => Outcome(sent, u.mem, false, u.appStart, a, |s|, Waiting)
      case Finished =>
        var c := Monitoring(s, u.pos, u.mem, a);
        Outcome(sent + CRLF + c.out, c.mem, true, u.appStart, c.addr, c.pos, if c.launched then Launched(u.appStart) else Waiting)
    else
      var c := Monitoring(s, 1, m, a);
      Outcome(Opening(s, arrival) + CRLF + c.out, c.mem, true, app, c.addr, c.pos, if c.launched then Launched(app) else Waiting)
  }

  /** Where a monitor session ends: what it sent, memory, cursor, input position, and whether `r` started the application. */
  datatype Console = Console(out: seq<char>, mem: Mem, addr: Ulong, pos: nat, launched: bool)

  /** A session with `sent` sent before it. */
  function Prefixed(sent: seq<char>, c: Console): Console
  {
    c.(out := sent + c.out)
  }

  lemma PrefixedTwice(x: seq<char>, y: seq<char>, c: Console)
    ensures Prefixed(x, Prefixed(y, c)) == Prefixed(x + y, c)
  {
    assert x + (y + c.out) == x + y + c.out;
  }

  /**
   * The monitor from input position p, memory m and cursor a: each pass
   * sends the prompt, reads a line (echoing it) and answers it; the
   * session ends when the input runs out inside a line or when `r` is read.
   */
  function Monitoring(s: seq<char>, p: nat, m: Mem, a: Ulong): (c: Console)
    ensures c.launched || c.pos >= |s|
    decreases |s| - p
  {
    var g := Gets(s, p, [], [], BUFLEN);
    if !g.complete then Console("> " + g.echo, m, a, g.pos, false)
    else
      var r := Respond(m, a, g.line);
      if r.launch then Console("> " + g.echo + r.out, r.mem, r.addr, g.pos, true)
      else Prefixed("> " + g.echo + r.out, Monitoring(s, g.pos, r.mem, r.addr))
  }

  /**
   * Only `ww` stores: a session whose input holds no `w` leaves memory as
   * it found it.
   */
  lemma {:induction false} MonitorStoresOnlyOnWw(s: seq<char>, p: nat, m: Mem, a: Ulong)
    requires forall k :: p <= k < |s| ==> s[k] != 'w'
    ensures Monitoring(s, p, m, a).mem == m
    decreases |s| - p
  {
    var g := Gets(s, p, [], [], BUFLEN);
    if g.complete {
      var r := Respond(m, a, g.line);
      GetsOnlyTyped(s, p, [], [], BUFLEN, 'w');
      OnlyWriteWordStores(m, a, g.line);
      if !r.launch {
        MonitorStoresOnlyOnWw(s, g.pos, r.mem, r.addr);
      }
    }
  }

  /**
   * Only the line `r` enters the application: a session whose input holds
   * no `r` ends only by running out of input.
   */
  lemma {:induction false} MonitorLaunchesOnlyOnR(s: seq<char>, p: nat, m: Mem, a: Ulong)
    requires forall k :: p <= k < |s| ==> s[k] != 'r'
    ensures !Monitoring(s, p, m, a).launched && Monitoring(s, p, m, a).pos >= |s|
    decreases |s| - p
  {
    var g := Gets(s, p, [], [], BUFLEN);
    if g.complete {
      var r := Respond(m, a, g.line);
      GetsOnlyTyped(s, p, [], [], BUFLEN, 'r');
      assert !r.launch by {
        if IsOnly(g.line, 'r') {
          assert g.line[0] == 'r';
        }
      }
      MonitorLaunchesOnlyOnR(s, g.pos, r.mem, r.addr);
    }
  }

  /**
   * Without a key hit the bootloader sends its greeting and all ten stars
   * and enters the application at app_start, the input untouched.
   */
  lemma NoKeyStartsApplication(s: seq<char>, arrival: nat, m: Mem, app: Ulong, a: Ulong)
    requires !KeyHit(s, arrival)
    ensures BootRun(s, arrival, m, app, a) == Outcome(GREETING + Stars(BOOTWAIT), m, true, app, a, 0, Launched(app))
  {
    assert Polls(s, arrival) / MEG == BOOTWAIT;
  }

  /**
   * A key other than `!` skips the upload; then, with no `w` typed, the
   * whole run leaves memory as it was.
   */
  lemma {:induction false} NoUploadNoWriteKeepsMemory(s: seq<char>, arrival: nat, m: Mem, app: Ulong, a: Ulong)
    requires |s| > 0 && s[0] != '!'
    requires forall k :: 0 <= k < |s| ==> s[k] != 'w'
    ensures BootRun(s, arrival, m, app, a).mem == m
    ensures BootRun(s, arrival, m, app, a).appStart == app
  {
    if KeyHit(s, arrival) {
      MonitorStoresOnlyOnWw(s, 1, m, a);
    }
  }

  /** One pass of the monitor, for the line g read from p and the reply r to it. */
  lemma MonitorStep(s: seq<char>, p: nat, m: Mem, a: Ulong, g: Reading, r: Reply)
    requires g == Gets(s, p, [], [], BUFLEN) && r == Respond(m, a, g.line)
    ensures !g.complete ==> Monitoring(s, p, m, a) == Console("> " + g.echo, m, a, g.pos, false)
    ensures g.complete && r.launch ==> Monitoring(s, p, m, a) == Console("> " + g.echo + r.out, r.mem, r.addr, g.pos, true)
    ensures g.complete && !r.launch ==>
      Monitoring(s, p, m, a) == Prefixed("> " + g.echo + r.out, Monitoring(s, g.pos, r.mem, r.addr))
  {
  }

  /** One step of the session: what the character at p does to it. */
  lemma RunStep(s: seq<char>, p: nat, m: Mem, app: Ulong, acks: nat)
    ensures p >= |s| ==> Run(s, p, m, app, acks) == Session(Starved, m, app, acks, p)
    ensures p < |s| && s[p] == 'S' ==>
      var d := DecodeRecord(s, p + 1);
      Run(s, p, m, app, acks) ==
        if d.None? then Session(Starved, m, app, acks, p)
        else Run(s, d.value.1, Apply(d.value.0, m, app).0, Apply(d.value.0, m, app).1, acks + 1)
    ensures p < |s| && s[p] == 'J' ==> Run(s, p, m, app, acks) == Session(Jumped, m, app, acks, p + 1)
    ensures p < |s| && s[p] == '#' ==> Run(s, p, m, app, acks) == Session(Finished, m, app, acks, p + 1)
    ensures p < |s| && s[p] !in "SJ#" ==> Run(s, p, m, app, acks) == Run(s, p + 1, m, app, acks + 1)
  {
  }

  /** `POUT ^= 0x01` */
  function Toggle(x: Ulong): (r: Ulong)
    ensures r % 2 != x % 2 && r / 2 == x / 2
  {
    if x % 2 == 0 then x + 1 else x - 1
  }

  /** Poll c sends a star exactly when it completes another 2^20 polls. */
  lemma TickStep(c: nat)
    requires c >= 1
    ensures c / MEG == (c - 1) / MEG + (if c % MEG == 0 then 1 else 0)
  {
  }

  /** Patching one more payload byte extends the patch at the next address. */
  lemma PayloadStep(m: Mem, start: Ulong, s: seq<char>, d: nat, i: nat)
    requires d + 2 * i + 2 <= |s|
    ensures PatchBytes(m, start, Payload(s, d, i + 1)) ==
      PatchByte(PatchBytes(m, start, Payload(s, d, i)), Wrap(start + i), ByteAt2(s, d + 2 * i))
  {
    PayloadSnoc(s, d, i);
    PatchBytesSnoc(m, start, Payload(s, d, i), ByteAt2(s, d + 2 * i));
  }

  /** `v++` keeps v at start + i. */
  lemma NextStep(start: Ulong, i: nat)
    ensures Next(Wrap(start + i)) == Wrap(start + (i + 1))
  {
    WrapAdd(start + i, 1);
  }

  /** One more payload byte extends the payload read so far. */
  lemma PayloadSnoc(s: seq<char>, d: nat, i: nat)
    requires d + 2 * i + 2 <= |s|
    ensures Payload(s, d, i + 1) == Payload(s, d, i) + [ByteAt2(s, d + 2 * i)]
  {
    assert Payload(s, d, i + 1) == Payload(s, d, i) + [ByteAt2(s, d + 2 * i)];
  }

  /** What a dump has sent, followed by the next row, is the dump one row longer. */
  lemma DumpGrows(o0: seq<char>, out: seq<char>, m: Mem, a0: Ulong, i: nat)
    requires out == o0 + DumpText(m, a0, i)
    ensures out + Row(m, Cursor(a0, i)) == o0 + DumpText(m, a0, i + 1)
  {
    DumpTextSnoc(m, a0, i);
    SentInOrder(o0, DumpText(m, a0, i), Row(m, Cursor(a0, i)));
  }

  /** `addr += 4` keeps the cursor at the i-th word from a0. */
  lemma NextWord(a0: Ulong, i: nat)
    ensures Wrap(Wrap(a0 + 4 * i) + 4) == Wrap(a0 + 4 * (i + 1))
  {
    WrapAdd(a0 + 4 * i, 4);
  }
}
