/**
 * The stand-alone monitor program (CODE/monitor/monitor.c): after a
 * greeting it reads lines with usart_gets into a 40-byte buffer and answers
 * `rw`, `rh` and `rb` followed by an address with the word, halfword or byte
 * stored there; every other line of three or more characters is echoed.
 * The program only reads memory.
 */
module MonitorApp {
  import opened Wrappers
  import opened Ctype
  import opened Word
  import opened Serial
  import opened HexCodec
  import opened Memory
  import opened LineEditor

  const BANNER: seq<char> := "THUAS RISC-V FPGA 32-bit processor\r\n" + "Monitor v0.1\r\n"

  /** `char buffer[40]`, passed to usart_gets with its full size. */
  const LINE_SIZE: nat := 40

  /** USART->BAUD = F_CPU / BAUD_RATE - 1 with a 50 MHz clock and 9600 baud. */
  const BAUD_DIVISOR: Ulong := 50000000 / 9600 - 1

  const CRLF: seq<char> := "\r\n"

  /** The hexadecimal digits of s, in order; every other character is dropped. */
  function XDigits(s: seq<char>): (r: seq<char>)
    ensures |r| <= |s|
    ensures forall k :: 0 <= k < |r| ==> IsXDigit(r[k])
  {
    if s == [] then []
    else XDigits(s[..|s| - 1]) + (if IsXDigit(s[|s| - 1]) then [s[|s| - 1]] else [])
  }

  /**
   * The value read_address returns for the characters s before the NUL:
   * the 32-bit accumulation of s's hexadecimal digits. Leading spaces and
   * the early return on an empty rest are covered by this: spaces are not
   * digits, and the accumulation of no digits is 0.
   */
  function Address(s: seq<char>): Ulong
  {
    Fold(XDigits(s))
  }

  /** One more character appends its digit, if it is one, to the digits. */
  lemma XDigitsSnoc(s: seq<char>, i: nat)
    requires i < |s|
    ensures XDigits(s[..i + 1]) == XDigits(s[..i]) + (if IsXDigit(s[i]) then [s[i]] else [])
  {
    assert s[..i + 1][..i] == s[..i];
  }

  /**
   * read_address: skip spaces; 0 for an empty rest; otherwise, for every
   * remaining character, `val = val*16 + digit` when it is a hexadecimal
   * digit (a letter through toupper), and skip it when it is not.
   */
  method ReadAddress(s: seq<char>) returns (val: Ulong)
    ensures val == Address(s)
  {
    val := 0;
    var i: nat := 0;
    while i < |s| && s[i] == ' '
      invariant i <= |s|
      invariant XDigits(s[..i]) == []
    {
      XDigitsSnoc(s, i);
      i := i + 1;
    }
    if i == |s| {
      assert s[..i] == s;
      return 0;
    }
    while i < |s|
      invariant i <= |s|
      invariant val == Fold(XDigits(s[..i]))
    {
      XDigitsSnoc(s, i);
      val := Accumulate(val, s[i]);
      if IsXDigit(s[i]) {
        FoldAppend(XDigits(s[..i]), s[i]);
      } else {
        assert XDigits(s[..i + 1]) == XDigits(s[..i]);
      }
      i := i + 1;
    }
    assert s[..i] == s;
  }

  /** The body of the fold loop for one character. */
  method Accumulate(val: Ulong, c: char) returns (val': Ulong)
    ensures IsXDigit(c) ==> val' == Step(val, c)
    ensures !IsXDigit(c) ==> val' == val
  {
    val' := val;
    if IsXDigit(c) {
      if IsDigit(c) {
        val' := Wrap(val * 16 + c as int - '0' as int);
      } else {
        val' := Wrap(val * 16 + ToUpper(c) as int - 'A' as int + 10);
      }
    }
  }

  /**
   * read_address differs from the bootloader's parsehex: it does not stop
   * at the first character that is not a digit but skips it and goes on.
   */
  lemma ReadAddressSkipsNonDigits()
    ensures Address("1x2") == 0x12
    ensures Fold("1x2"[SpaceEnd("1x2", 0)..DigitsEnd("1x2", 0)]) == 0x1
  {
    assert "1x2"[..2] == "1x" && "1x2"[..1] == "1" && "1"[..0] == [];
    assert XDigits("1") == "1";
    assert XDigits("1x") == "1";
    assert XDigits("1x2") == "12";
    assert "12"[..1] == "1";
    assert Fold("1") == 1;
    assert SpaceEnd("1x2", 0) == 0;
    assert DigitsEnd("1x2", 1) == 1;
    assert "1x2"[0..1] == "1";
  }

  /**
   * What read_address returns is the hexadecimal number spelled by the
   * digits of s, reduced modulo 2^32: only the last eight digits count.
   */
  lemma AddressIsNumber(s: seq<char>)
    ensures Address(s) == Wrap(HexNat(XDigits(s)))
  {
    FoldIsHexNat(XDigits(s));
  }

  /** `*(uint16_t *)p`: two bytes, little-endian. */
  function HalfAt(m: Mem, p: Ulong): (h: nat)
    ensures h < 0x1_0000
  {
    ReadByte(m, p) + 256 * ReadByte(m, Next(p))
  }

  /** What one line makes the program send, and the load it makes. */
  datatype Answer = Answer(out: seq<char>, load: Option<Access>)

  /** The size letter a read command names, and its width in bytes. */
  function SizeOf(c: char): nat
  {
    if c == 'w' then 4 else if c == 'h' then 2 else if c == 'b' then 1 else 0
  }

  /**
   * One pass of main's loop for the line read: an empty or too short line
   * is refused; `r` with a size letter loads from the address that follows
   * and shows the value if the address suits the size; any other line of
   * three or more characters is echoed.
   */
  function Respond(m: Mem, line: seq<char>): (a: Answer)
    ensures |a.out| >= 2 && a.out[|a.out| - 2..] == CRLF
  {
    if |line| == 0 then Answer("Enter a command" + CRLF, None)
    else if |line| < 3 then Answer("Enter a correct command" + CRLF, None)
    else if line[0] == 'r' then
      var p := Address(line[2..]);
      if line[1] == 'w' then
        Answer((if p % 4 == 0 then ">> " + HexText(WordAt(m, p), 8) else "Not on 4-byte boundary") + CRLF,
               Some(Load(p, 4)))
      else if line[1] == 'h' then
        Answer((if p % 2 == 0 then ">> " + HexText(HalfAt(m, p), 4) else "Not on 2-byte boundary") + CRLF,
               Some(Load(p, 2)))
      else if line[1] == 'b' then
        Answer(">> " + HexText(ReadByte(m, p), 2) + CRLF, Some(Load(p, 1)))
      else Answer("Unknown size" + CRLF, None)
    else Answer(line + CRLF, None)
  }

  /** The value a load of `bytes` bytes at p returns. */
  function Loaded(m: Mem, p: Ulong, bytes: nat): nat
  {
    if bytes == 4 then WordAt(m, p) else if bytes == 2 then HalfAt(m, p) else ReadByte(m, p)
  }

  /** Whether a load of `bytes` bytes at p is shown: rw needs 4-byte, rh 2-byte alignment, rb none. */
  predicate Shown(p: Ulong, bytes: nat)
  {
    (bytes == 4 ==> p % 4 == 0) && (bytes == 2 ==> p % 2 == 0)
  }

  /**
   * A load happens exactly for `r` followed by w, h or b on a line of at
   * least three characters, from the address the rest of the line spells,
   * of the width the letter names, and whether or not the address is
   * aligned: the read comes before the alignment test.
   */
  lemma LoadsOnReadCommands(m: Mem, line: seq<char>)
    ensures Respond(m, line).load.Some? <==> |line| >= 3 && line[0] == 'r' && SizeOf(line[1]) > 0
    ensures Respond(m, line).load.Some? ==>
      Respond(m, line).load == Some(Load(Address(line[2..]), SizeOf(line[1])))
  {
  }

  /**
   * The value is shown exactly when the load is aligned for its width, and
   * then the digits after ">> " are that many lowercase hex digits (two per
   * byte) spelling the value loaded; a misaligned rw or rh says which
   * boundary it missed.
   */
  lemma ShowsLoadedValue(m: Mem, line: seq<char>)
    requires |line| >= 3 && line[0] == 'r' && SizeOf(line[1]) > 0
    ensures Shown(Address(line[2..]), SizeOf(line[1])) ==>
      Respond(m, line).out == ">> " + Respond(m, line).out[3..3 + 2 * SizeOf(line[1])] + CRLF
    ensures Shown(Address(line[2..]), SizeOf(line[1])) ==>
      HexNat(Respond(m, line).out[3..3 + 2 * SizeOf(line[1])]) == Loaded(m, Address(line[2..]), SizeOf(line[1]))
    ensures line[1] == 'w' && !Shown(Address(line[2..]), 4) ==> Respond(m, line).out == "Not on 4-byte boundary" + CRLF
    ensures line[1] == 'h' && !Shown(Address(line[2..]), 2) ==> Respond(m, line).out == "Not on 2-byte boundary" + CRLF
  {
    var p, n := Address(line[2..]), SizeOf(line[1]);
    if Shown(p, n) {
      if n == 4 {
        Pow16Eight();
      } else if n == 2 {
        assert Pow16(4) == 0x1_0000;
      } else {
        assert Pow16(2) == 256;
      }
      ShownDigits(Loaded(m, p, n), 2 * n);
    }
  }

  /** The digits between ">> " and the line end spell the value shown, if it fits. */
  lemma ShownDigits(v: nat, k: nat)
    requires v < Pow16(k)
    ensures (">> " + HexText(v, k) + CRLF)[3..3 + k] == HexText(v, k)
    ensures HexNat(HexText(v, k)) == v
  {
    HexNatHexText(v, k);
  }

  /** Lines that are not read commands are answered without a load: the short ones refused, the rest echoed. */
  lemma OtherLinesEchoed(m: Mem, line: seq<char>)
    ensures |line| == 0 ==> Respond(m, line).out == "Enter a command" + CRLF
    ensures 0 < |line| < 3 ==> Respond(m, line).out == "Enter a correct command" + CRLF
    ensures |line| >= 3 && line[0] != 'r' ==> Respond(m, line).out == line + CRLF
    ensures |line| >= 3 && line[0] == 'r' && SizeOf(line[1]) == 0 ==>
      Respond(m, line).out == "Unknown size" + CRLF
  {
  }

  /** What a session sends after the banner, the loads it makes, and that it ends waiting for input. */
  datatype Session = Session(out: seq<char>, loads: seq<Access>)

  /** A session preceded by what was sent and loaded before it. */
  function After(sent: seq<char>, loaded: seq<Access>, c: Session): Session
  {
    Session(sent + c.out, loaded + c.loads)
  }

  lemma AfterTwice(x: seq<char>, y: seq<char>, u: seq<Access>, v: seq<Access>, c: Session)
    ensures After(x, u, After(y, v, c)) == After(x + y, u + v, c)
  {
    assert x + (y + c.out) == x + y + c.out;
    assert u + (v + c.loads) == u + v + c.loads;
  }

  /** The load of an answer, as a list of zero or one accesses. */
  function Loads(a: Answer): (r: seq<Access>)
    ensures |r| <= 1
  {
    if a.load.Some? then [a.load.value] else []
  }

  /** main's endless loop on the input from p on, until the input runs out. */
  function Serving(s: seq<char>, p: nat, m: Mem): Session
    decreases |s| - p
  {
    var g := Gets(s, p, [], [], LINE_SIZE);
    if !g.complete then Session(g.echo, [])
    else
      var a := Respond(m, g.line);
      After(g.echo + a.out, Loads(a), Serving(s, g.pos, m))
  }

  /** A session in which `r` is never typed makes no load at all. */
  lemma {:induction false} NoReadNoLoads(s: seq<char>, p: nat, m: Mem)
    requires forall k :: p <= k < |s| ==> s[k] != 'r'
    ensures Serving(s, p, m).loads == []
    decreases |s| - p
  {
    var g := Gets(s, p, [], [], LINE_SIZE);
    if g.complete {
      GetsOnlyTyped(s, p, [], [], LINE_SIZE, 'r');
      var a := Respond(m, g.line);
      assert a.load == None by {
        if |g.line| >= 3 {
          assert g.line[0] in g.line;
        }
      }
      NoReadNoLoads(s, g.pos, m);
    }
  }

  /** The machine running the monitor program. */
  class Monitor {
    const port: Port
    /** The target's memory, which the program never writes. */
    const mem: Mem
    /** USART->BAUD */
    var baud: Ulong
    /** Every load the program has made, in order. */
    var loads: seq<Access>

    constructor (port: Port, mem: Mem)
      ensures this.port == port && this.mem == mem && baud == 0 && loads == []
    {
      this.port := port;
      this.mem := mem;
      baud := 0;
      loads := [];
    }

    /** The answer to one line: what is sent and what is loaded. */
    method Answer(line: seq<char>)
      modifies port`output, this`loads
      ensures port.output == old(port.output) + Respond(mem, line).out
      ensures loads == old(loads) + Loads(Respond(mem, line))
    {
      if |line| == 0 {
        port.PutS("Enter a command\r\n");
      } else if |line| < 3 {
        port.PutS("Enter a correct command\r\n");
      } else if line[0] == 'r' {
        ReadCommand(line);
      } else {
        port.PutS(line);
        port.PutS(CRLF);
      }
    }

    /** A line of three or more characters starting with `r`. */
    method ReadCommand(line: seq<char>)
      requires |line| >= 3 && line[0] == 'r'
      modifies port`output, this`loads
      ensures port.output == old(port.output) + Respond(mem, line).out
      ensures loads == old(loads) + Loads(Respond(mem, line))
    {
      var p := ReadAddress(line[2..]);
      if line[1] == 'w' {
        ReadWord(p);
      } else if line[1] == 'h' {
        ReadHalf(p);
      } else if line[1] == 'b' {
        ReadOne(p);
      } else {
        port.PutS("Unknown size\r\n");
      }
    }

    /** `rw`: load the word at p, then show it if p is on a 4-byte boundary. */
    method ReadWord(p: Ulong)
      modifies port`output, this`loads
      ensures port.output == old(port.output)
        + (if p % 4 == 0 then ">> " + HexText(WordAt(mem, p), 8) else "Not on 4-byte boundary") + CRLF
      ensures loads == old(loads) + [Load(p, 4)]
    {
      var val := WordAt(mem, p);
      loads := loads + [Load(p, 4)];
      ghost var o := port.output;
      if p % 4 == 0 {
        port.PutS(">> ");
        port.PutS(HexText(val, 8));
        SentInOrder(o, ">> ", HexText(val, 8));
      } else {
        port.PutS("Not on 4-byte boundary");
      }
      port.PutS(CRLF);
    }

    /** `rh`: load the halfword at p, then show it if p is on a 2-byte boundary. */
    method ReadHalf(p: Ulong)
      modifies port`output, this`loads
      ensures port.output == old(port.output)
        + (if p % 2 == 0 then ">> " + HexText(HalfAt(mem, p), 4) else "Not on 2-byte boundary") + CRLF
      ensures loads == old(loads) + [Load(p, 2)]
    {
      var val := HalfAt(mem, p);
      loads := loads + [Load(p, 2)];
      ghost var o := port.output;
      if p % 2 == 0 {
        port.PutS(">> ");
        port.PutS(HexText(val, 4));
        SentInOrder(o, ">> ", HexText(val, 4));
      } else {
        port.PutS("Not on 2-byte boundary");
      }
      port.PutS(CRLF);
    }

    /** `rb`: load the byte at p and show it. */
    method ReadOne(p: Ulong)
      modifies port`output, this`loads
      ensures port.output == old(port.output) + (">> " + HexText(ReadByte(mem, p), 2)) + CRLF
      ensures loads == old(loads) + [Load(p, 1)]
    {
      var val := ReadByte(mem, p);
      loads := loads + [Load(p, 1)];
      ghost var o := port.output;
      port.PutS(">> ");
      port.PutS(HexText(val, 2));
      SentInOrder(o, ">> ", HexText(val, 2));
      port.PutS(CRLF);
    }

    /**
     * main: set the baud divisor, send the banner, then read and answer
     * lines until the input runs out, where usart_getc waits for ever.
     */
    method Run()
      requires port.Valid()
      modifies port`pos, port`output, this`baud, this`loads
      ensures port.Valid() && port.pos == |port.input| && baud == BAUD_DIVISOR
      ensures port.output == old(port.output) + BANNER + Serving(port.input, old(port.pos), mem).out
      ensures loads == old(loads) + Serving(port.input, old(port.pos), mem).loads
    {
      baud := BAUD_DIVISOR;
      port.PutS("THUAS RISC-V FPGA 32-bit processor\r\n");
      port.PutS("Monitor v0.1\r\n");
      ghost var o0 := port.output;
      assert o0 == old(port.output) + BANNER;
      Loop();
      SentInOrder(old(port.output), BANNER, Serving(port.input, old(port.pos), mem).out);
    }

    /** The endless `while (1)` of main, up to the point where the input runs out. */
    method Loop()
      requires port.Valid()
      modifies port`pos, port`output, this`loads
      ensures port.Valid() && port.pos == |port.input|
      ensures port.output == old(port.output) + Serving(port.input, old(port.pos), mem).out
      ensures loads == old(loads) + Serving(port.input, old(port.pos), mem).loads
    {
      ghost var o0 := port.output;
      ghost var l0 := loads;
      ghost var goal := Serving(port.input, port.pos, mem);
      ghost var out: seq<char> := [];
      ghost var got: seq<Access> := [];
      var buffer := new char[LINE_SIZE];
      while true
        invariant port.Valid()
        invariant port.output == o0 + out && loads == l0 + got
        invariant goal == After(out, got, Serving(port.input, port.pos, mem))
        decreases |port.input| - port.pos
      {
        var more;
        more, out, got := Resume(buffer, o0, l0, goal, out, got);
        if !more {
          break;
        }
      }
      assert Serving(port.input, port.pos, mem) == Session([], []);
      assert goal.out == out && goal.loads == got;
    }

    /** One pass, with what the passes before it have sent and loaded. */
    method Resume(buffer: array<char>, ghost o0: seq<char>, ghost l0: seq<Access>, ghost goal: Session,
                  ghost out: seq<char>, ghost got: seq<Access>)
      returns (more: bool, ghost out': seq<char>, ghost got': seq<Access>)
      requires port.Valid() && buffer.Length == LINE_SIZE
      requires port.output == o0 + out && loads == l0 + got
      requires goal == After(out, got, Serving(port.input, port.pos, mem))
      modifies port`pos, port`output, this`loads, buffer
      ensures port.Valid()
      ensures port.output == o0 + out' && loads == l0 + got'
      ensures goal == After(out', got', Serving(port.input, port.pos, mem))
      ensures more ==> old(port.pos) < port.pos
      ensures !more ==> port.pos == |port.input|
    {
      ghost var sent, loaded;
      more, sent, loaded := Pass(buffer);
      AfterTwice(out, sent, got, loaded, Serving(port.input, port.pos, mem));
      SentInOrder(o0, out, sent);
      assert l0 + got + loaded == l0 + (got + loaded);
      out', got' := out + sent, got + loaded;
    }

    /**
     * One pass of main's loop: read a line, answer it. `more` is false when
     * the input ran out inside usart_gets.
     */
    method Pass(buffer: array<char>) returns (more: bool, ghost sent: seq<char>, ghost loaded: seq<Access>)
      requires port.Valid() && buffer.Length == LINE_SIZE
      modifies port`pos, port`output, this`loads, buffer
      ensures port.Valid()
      ensures port.output == old(port.output) + sent && loads == old(loads) + loaded
      ensures more ==> old(port.pos) < port.pos
      ensures !more ==> port.pos == |port.input|
      ensures Serving(port.input, old(port.pos), mem) == After(sent, loaded, Serving(port.input, port.pos, mem))
    {
      ghost var s, p, o := port.input, port.pos, port.output;
      ghost var g := Gets(s, p, [], [], LINE_SIZE);
      var complete, index := GetLine(port, buffer, LINE_SIZE);
      if !complete {
        assert Serving(s, port.pos, mem) == Session([], []);
        assert g.echo + [] == g.echo;
        return false, g.echo, [];
      }
      Answer(buffer[..index]);
      SentInOrder(o, g.echo, Respond(mem, g.line).out);
      more, sent, loaded := true, g.echo + Respond(mem, g.line).out, Loads(Respond(mem, g.line));
    }
  }
}
