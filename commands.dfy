/**
 * What one command line does in the bootloader's monitor
 * (CODE/bootloader/bootloader.c, lines 164-248): the reply sent, the
 * memory and the dump cursor `addr` afterwards, the memory accesses made,
 * and whether the application is started. The line is the text before the
 * buffer's NUL.
 */
module Commands {
  import opened Ctype
  import opened Word
  import opened HexCodec
  import opened Memory

  const HELP: seq<char> := "Help:\r\n h                - this help\r\n r                - run application\r\n rw <addr>        - read word from addr\r\n ww <addr> <data> - write data at addr\r\n dw <addr>        - dump 16 words\r\n n                - dump next 16 words"

  const UNALIGNED: seq<char> := "Not on 4-byte boundary!"

  const CRLF: seq<char> := "\r\n"

  /** Words per dump. */
  function Rows(): nat { 16 }

  datatype Command = Help | Start | ReadWord | WriteWord | Dump | Empty | Unknown

  /** strncmp(line, [a, b, c], 3) == 0 */
  predicate Starts(line: seq<char>, a: char, b: char, c: char)
  {
    |line| >= 3 && line[0] == a && line[1] == b && line[2] == c
  }

  /** strcmp(line, [c]) == 0 */
  predicate IsOnly(line: seq<char>, c: char)
  {
    |line| == 1 && line[0] == c
  }

  /** The tests of the dispatch, in the order the source makes them. */
  function Classify(line: seq<char>): Command
  {
    if IsOnly(line, 'h') then Help
    else if IsOnly(line, 'r') then Start
    else if Starts(line, 'r', 'w', ' ') then ReadWord
    else if Starts(line, 'w', 'w', ' ') then WriteWord
    else if Starts(line, 'd', 'w', ' ') || (|line| > 0 && line[0] == 'n') then Dump
    else if |line| == 0 then Empty
    else Unknown
  }

  /** Where parsehex(line + from, &s) stops. */
  function StopOf(line: seq<char>, from: nat): nat
    requires from <= |line|
  {
    DigitsEnd(line, SpaceEnd(line, from))
  }

  /** The value parsehex(line + from, ...) returns. */
  function ValueOf(line: seq<char>, from: nat): Ulong
    requires from <= |line|
  {
    Wrap(HexNat(line[SpaceEnd(line, from)..StopOf(line, from)]))
  }

  /** The address a `rw`, `ww` or `dw` line names. */
  function AddressOf(line: seq<char>): Ulong
    requires 3 <= |line|
  {
    ValueOf(line, 3)
  }

  /** The data word a `ww` line names: parsed from where the address stopped. */
  function DataOf(line: seq<char>): Ulong
    requires 3 <= |line|
  {
    ValueOf(line, StopOf(line, 3))
  }

  /** A byte as the dump's ASCII column shows it: itself if printable, '.' otherwise. */
  function Shown(b: Byte): char
  {
    if IsPrint(b as char) then b as char else '.'
  }

  /** Lanes n - 1 down to 0 of a word as the ASCII column shows them. */
  function AsciiFrom(w: Ulong, n: nat): (r: seq<char>)
    requires n <= 4
    ensures |r| == n
    decreases n
  {
    if n == 0 then [] else [Shown(ByteAt(w, n - 1))] + AsciiFrom(w, n - 1)
  }

  /** The ASCII column of a word, most significant byte first. */
  function Ascii(w: Ulong): (r: seq<char>)
    ensures |r| == 4
  {
    AsciiFrom(w, 4)
  }

  /** One dump row: address, word, two spaces, ASCII column, line end. */
  function Row(m: Mem, a: Ulong): (r: seq<char>)
    ensures |r| == 26
  {
    HexText(a, 8) + ": " + HexText(WordAt(m, a), 8) + "  " + Ascii(WordAt(m, a)) + CRLF
  }

  /** The row shown for each address of memory m. */
  function RowsOf(m: Mem): Ulong -> seq<char>
  {
    (x: Ulong) => Row(m, x)
  }

  /**
   * row(a) + row(a + 4) + ... for k words, the address advancing by four
   * with wrap-around.
   */
  function Stride(row: Ulong -> seq<char>, a: Ulong, k: nat): seq<char>
    decreases k
  {
    if k == 0 then [] else row(a) + Stride(row, Wrap(a + 4), k - 1)
  }

  /** `addr += 4`: the cursor moves to the next word, wrapping at 2^32. */
  function Advance(a: Ulong): Ulong
  {
    Wrap(a + 4)
  }

  /** Where the dump cursor stands after k words from a. */
  function Cursor(a: Ulong, k: nat): Ulong
    decreases k
  {
    if k == 0 then a else Advance(Cursor(a, k - 1))
  }

  /** The cursor after k words is a + 4k, wrapped. */
  lemma {:induction false} CursorIs(a: Ulong, k: nat)
    ensures Cursor(a, k) == Wrap(a + 4 * k)
    decreases k
  {
    if k > 0 {
      CursorIs(a, k - 1);
      WrapAdd(a + 4 * (k - 1), 4);
    }
  }

  /** The rows of k words from a on. */
  function DumpText(m: Mem, a: Ulong, k: nat): (r: seq<char>)
    ensures |r| == 26 * k
  {
    StrideLength(RowsOf(m), a, k);
    Stride(RowsOf(m), a, k)
  }

  /** The loads those rows make. */
  function DumpLoads(a: Ulong, k: nat): (r: seq<Access>)
    ensures |r| == k
    decreases k
  {
    if k == 0 then [] else [Load(a, 4)] + DumpLoads(Wrap(a + 4), k - 1)
  }

  /** The effect of one line. */
  datatype Reply = Reply(out: seq<char>, mem: Mem, addr: Ulong, accesses: seq<Access>, launch: bool)

  function Respond(m: Mem, addr: Ulong, line: seq<char>): Reply
  {
    match Classify(line)
    case Help => Reply(HELP + CRLF, m, addr, [], false)
    case Start => Reply([], m, addr, [], true)
    case ReadWord => ReadWordReply(m, line)
    case WriteWord => WriteWordReply(m, line)
    case Dump => DumpReply(m, if line[0] == 'n' then addr else AddressOf(line))
    case Empty => Reply(CRLF, m, addr, [], false)
    case Unknown => Reply("??" + CRLF, m, addr, [], false)
  }

  /** `rw <addr>`: the cursor takes the address; an aligned one is loaded and shown. */
  function ReadWordReply(m: Mem, line: seq<char>): Reply
    requires 3 <= |line|
  {
    var a := AddressOf(line);
    if Aligned(a) then
      Reply(HexText(a, 8) + ": " + HexText(WordAt(m, a), 8) + CRLF, m, a, [Load(a, 4)], false)
    else Reply(UNALIGNED + CRLF, m, a, [], false)
  }

  /** `ww <addr> <data>`: the cursor takes the address; an aligned one is stored to. */
  function WriteWordReply(m: Mem, line: seq<char>): Reply
    requires 3 <= |line|
  {
    var a := AddressOf(line);
    if Aligned(a) then Reply(CRLF, StoreWord(m, a, DataOf(line)), a, [Store(a, 4)], false)
    else Reply(UNALIGNED + CRLF, m, a, [], false)
  }

  /** `dw <addr>` or `n`: dump from a if it is aligned, leaving the cursor after the last word. */
  function DumpReply(m: Mem, a: Ulong): Reply
  {
    if Aligned(a) then Reply(DumpText(m, a, Rows()) + CRLF, m, Wrap(a + 4 * Rows()), DumpLoads(a, Rows()), false)
    else Reply(UNALIGNED + CRLF, m, a, [], false)
  }

  // ---------------------------------------------------------------------
  // Properties of the dispatch
  // ---------------------------------------------------------------------

  /** Which reply each kind of line gets. */
  lemma RespondCases(m: Mem, addr: Ulong, line: seq<char>)
    ensures Classify(line) == Help ==> Respond(m, addr, line) == Reply(HELP + CRLF, m, addr, [], false)
    ensures Classify(line) == Start ==> Respond(m, addr, line) == Reply([], m, addr, [], true)
    ensures Classify(line) == ReadWord ==> Respond(m, addr, line) == ReadWordReply(m, line)
    ensures Classify(line) == WriteWord ==> Respond(m, addr, line) == WriteWordReply(m, line)
    ensures Classify(line) == Dump && line[0] == 'n' ==> Respond(m, addr, line) == DumpReply(m, addr)
    ensures Classify(line) == Dump && line[0] != 'n' ==> Respond(m, addr, line) == DumpReply(m, AddressOf(line))
    ensures Classify(line) == Empty ==> Respond(m, addr, line) == Reply(CRLF, m, addr, [], false)
    ensures Classify(line) == Unknown ==> Respond(m, addr, line) == Reply("??" + CRLF, m, addr, [], false)
  {
  }

  /** `h` and `r` match only exactly, and only `r` starts the application. */
  lemma ExactCommands(m: Mem, addr: Ulong, line: seq<char>)
    ensures Classify(line) == Help <==> line == "h"
    ensures Classify(line) == Start <==> line == "r"
    ensures Respond(m, addr, line).launch <==> line == "r"
  {
    if |line| == 1 {
      assert line == [line[0]];
    }
  }

  /** The text ends in "\r\n". */
  predicate EndsLine(out: seq<char>)
  {
    |out| >= 2 && out[|out| - 2..] == CRLF
  }

  lemma EndsLineAppend(s: seq<char>)
    ensures EndsLine(s + CRLF) && |s + CRLF| == |s| + 2
  {
    assert (s + CRLF)[|s|..] == CRLF;
  }

  lemma ReadWordEnds(m: Mem, line: seq<char>)
    requires 3 <= |line|
    ensures var out := ReadWordReply(m, line).out; EndsLine(out) && |out| > 2
  {
    var a := AddressOf(line);
    if Aligned(a) {
      EndsLineAppend(HexText(a, 8) + ": " + HexText(WordAt(m, a), 8));
    } else {
      EndsLineAppend(UNALIGNED);
    }
  }

  lemma WriteWordEnds(m: Mem, line: seq<char>)
    requires 3 <= |line|
    ensures var out := WriteWordReply(m, line).out;
      EndsLine(out) && (out == CRLF <==> Aligned(AddressOf(line)))
  {
    if !Aligned(AddressOf(line)) {
      EndsLineAppend(UNALIGNED);
    }
  }

  lemma DumpEnds(m: Mem, a: Ulong)
    ensures var out := DumpReply(m, a).out; EndsLine(out) && |out| > 2
  {
    if Aligned(a) {
      EndsLineAppend(DumpText(m, a, Rows()));
    } else {
      EndsLineAppend(UNALIGNED);
    }
  }

  /**
   * Every line that does not start the application is answered with text
   * ending in "\r\n"; the only lines answered by nothing but "\r\n" are
   * the empty line and an aligned `ww`.
   */
  lemma RepliesEndLine(m: Mem, addr: Ulong, line: seq<char>)
    ensures !Respond(m, addr, line).launch ==> EndsLine(Respond(m, addr, line).out)
    ensures Respond(m, addr, line).out == CRLF <==>
      line == [] || (Classify(line) == WriteWord && Aligned(AddressOf(line)))
  {
    match Classify(line)
    case Help => EndsLineAppend(HELP);
    case Start =>
    case ReadWord => ReadWordEnds(m, line);
    case WriteWord => WriteWordEnds(m, line);
    case Dump => DumpEnds(m, if line[0] == 'n' then addr else AddressOf(line));
    case Empty => EndsLineAppend([]);
    case Unknown => EndsLineAppend("??");
  }

  /**
   * An unaligned `rw`, `ww` or `dw` (or `n` with an unaligned cursor)
   * answers "Not on 4-byte boundary!" and touches no memory; the cursor
   * still takes the parsed address.
   */
  lemma UnalignedTouchesNothing(m: Mem, addr: Ulong, line: seq<char>)
    requires Classify(line) in {ReadWord, WriteWord, Dump}
    requires !Aligned(if line[0] == 'n' then addr else AddressOf(line))
    ensures Respond(m, addr, line) ==
      Reply(UNALIGNED + CRLF, m, if line[0] == 'n' then addr else AddressOf(line), [], false)
  {
    assert Classify(line) == Dump || line[0] != 'n';
  }

  /** Only an aligned `ww` changes memory, and it changes exactly the word it names. */
  lemma OnlyWriteWordStores(m: Mem, addr: Ulong, line: seq<char>)
    ensures var r := Respond(m, addr, line);
      (r.mem != m ==> Classify(line) == WriteWord && Aligned(AddressOf(line)))
      && (Classify(line) == WriteWord && Aligned(AddressOf(line)) ==>
            WordAt(r.mem, AddressOf(line)) == DataOf(line)
            && forall x: Ulong :: x / 4 != AddressOf(line) / 4 ==> WordAt(r.mem, x) == WordAt(m, x))
  {
  }

  /**
   * The dump shows 16 rows; row i shows the word at a + 4·i (wrapping) and
   * is the i-th load made; the cursor ends 64 bytes further on.
   */
  lemma DumpRows(m: Mem, a: Ulong, k: nat, i: nat)
    requires i < k
    ensures DumpText(m, a, k)[26 * i..26 * i + 26] == Row(m, Wrap(a + 4 * i))
  {
    StrideBlock(RowsOf(m), a, k, i);
  }

  /** Rows of 26 characters each make 26 characters per word. */
  lemma {:induction false} StrideLength(row: Ulong -> seq<char>, a: Ulong, k: nat)
    requires forall x :: |row(x)| == 26
    ensures |Stride(row, a, k)| == 26 * k
    decreases k
  {
    if k > 0 {
      StrideLength(row, Wrap(a + 4), k - 1);
    }
  }

  /** Characters 26·i .. 26·i + 25 are the row of the i-th word. */
  lemma {:induction false} StrideBlock(row: Ulong -> seq<char>, a: Ulong, k: nat, i: nat)
    requires forall x :: |row(x)| == 26
    requires i < k
    ensures |Stride(row, a, k)| == 26 * k
    ensures Stride(row, a, k)[26 * i..26 * i + 26] == row(Wrap(a + 4 * i))
    decreases i
  {
    StrideLength(row, a, k);
    var rest := Stride(row, Wrap(a + 4), k - 1);
    StrideLength(row, Wrap(a + 4), k - 1);
    if i == 0 {
      SliceOfAppend(row(a), rest, 0, 26);
    } else {
      var j := i - 1;
      StrideBlock(row, Wrap(a + 4), k - 1, j);
      assert Wrap(Wrap(a + 4) + 4 * j) == Wrap(a + 4 * i) by {
        WrapAdd(a + 4, 4 * j);
      }
      SliceOfAppend(row(a), rest, 26 * j + 26, 26 * j + 52);
    }
  }

  /** One more word adds its row at the end. */
  lemma {:induction false} StrideSnoc(row: Ulong -> seq<char>, a: Ulong, k: nat)
    ensures Stride(row, a, k + 1) == Stride(row, a, k) + row(Wrap(a + 4 * k))
    decreases k
  {
    if k > 0 {
      StrideSnoc(row, Wrap(a + 4), k - 1);
      WrapAdd(a + 4, 4 * (k - 1));
    }
  }

  /** The dump so far grows by the row of the next word. */
  lemma DumpTextSnoc(m: Mem, a: Ulong, k: nat)
    ensures DumpText(m, a, k + 1) == DumpText(m, a, k) + Row(m, Cursor(a, k))
  {
    StrideSnoc(RowsOf(m), a, k);
    CursorIs(a, k);
  }

  /** A slice of x + y lying wholly in x, or wholly in y, is a slice of that part. */
  lemma SliceOfAppend<T>(x: seq<T>, y: seq<T>, lo: nat, hi: nat)
    requires lo <= hi <= |x| + |y|
    ensures hi <= |x| ==> (x + y)[lo..hi] == x[lo..hi]
    ensures |x| <= lo ==> (x + y)[lo..hi] == y[lo - |x|..hi - |x|]
  {
  }

  lemma {:induction false} DumpLoadsAt(a: Ulong, k: nat, i: nat)
    requires i < k
    ensures DumpLoads(a, k)[i] == Load(Wrap(a + 4 * i), 4)
    decreases i
  {
    if i > 0 {
      DumpLoadsAt(Wrap(a + 4), k - 1, i - 1);
      WrapAdd(a + 4, 4 * (i - 1));
    }
  }

  /** The ASCII column holds bytes 3, 2, 1, 0 of the word, each printable. */
  lemma AsciiColumn(w: Ulong, k: nat)
    requires k < 4
    ensures Ascii(w)[k] == Shown(ByteAt(w, 3 - k))
    ensures IsPrint(Ascii(w)[k])
  {
    AsciiLane(w, 4, k);
  }

  /** Column k of lanes n - 1 .. 0 shows lane n - 1 - k. */
  lemma {:induction false} AsciiLane(w: Ulong, n: nat, k: nat)
    requires k < n <= 4
    ensures AsciiFrom(w, n)[k] == Shown(ByteAt(w, n - 1 - k))
    decreases n
  {
    if k > 0 {
      AsciiLane(w, n - 1, k - 1);
    }
  }

  /**
   * The `n` cursor: an aligned `dw a` leaves memory alone and moves the
   * cursor to a + 64, still aligned, so that a following `n` (NextDumps,
   * AlignedDump) shows the next 16 words.
   */
  lemma DumpContinues(m: Mem, addr: Ulong, line: seq<char>)
    requires Starts(line, 'd', 'w', ' ') && Aligned(AddressOf(line))
    ensures var r := Respond(m, addr, line);
      r.mem == m && r.addr == Wrap(AddressOf(line) + 4 * Rows()) && Aligned(r.addr)
  {
    DwDumps(m, addr, line);
    AlignedDump(m, AddressOf(line));
  }

  /** `dw <addr>` dumps from the address it names. */
  lemma DwDumps(m: Mem, addr: Ulong, line: seq<char>)
    requires Starts(line, 'd', 'w', ' ')
    ensures Respond(m, addr, line) == DumpReply(m, AddressOf(line))
  {
  }

  /** A line starting with `n` dumps from the cursor. */
  lemma NextDumps(m: Mem, addr: Ulong, next: seq<char>)
    requires |next| > 0 && next[0] == 'n'
    ensures Respond(m, addr, next) == DumpReply(m, addr)
  {
    assert Classify(next) == Dump;
  }

  /**
   * A dump from an aligned address shows 16 words, loads each once, leaves
   * memory alone and moves the cursor to the aligned address 64 bytes on.
   */
  lemma AlignedDump(m: Mem, a: Ulong)
    requires Aligned(a)
    ensures var r := DumpReply(m, a);
      && r.out == DumpText(m, a, Rows()) + CRLF
      && r.accesses == DumpLoads(a, Rows())
      && r.mem == m && r.addr == Wrap(a + 4 * Rows()) && Aligned(r.addr)
      && !r.launch
  {
    AlignedStep(a, 4 * Rows());
  }

  /** Advancing an aligned address by a multiple of four keeps it aligned. */
  lemma AlignedStep(a: Ulong, k: nat)
    requires Aligned(a) && k % 4 == 0 && k < SPAN
    ensures Aligned(Wrap(a + k))
  {
    if a + k >= SPAN {
      assert Wrap(a + k) == a + k - SPAN;
    }
  }

  /** The line `ww` followed by address text and data text, separated by a space. */
  function WriteLine(a: Ulong, v: Ulong): seq<char>
  {
    "ww " + HexText(a, 8) + " " + HexText(v, 8)
  }

  /** The line `rw` followed by address text. */
  function ReadLine(a: Ulong): seq<char>
  {
    "rw " + HexText(a, 8)
  }

  /**
   * Writing a word with `ww` and reading it back with `rw`, both naming the
   * address as printhex shows it, prints the word written.
   */
  lemma WriteThenRead(m: Mem, addr: Ulong, a: Ulong, v: Ulong)
    requires Aligned(a)
    ensures var w := Respond(m, addr, WriteLine(a, v));
      Respond(w.mem, w.addr, ReadLine(a)).out == HexText(a, 8) + ": " + HexText(v, 8) + CRLF
  {
    WriteLineParses(a, v);
    ReadLineParses(a);
  }

  lemma WriteLineParses(a: Ulong, v: Ulong)
    ensures Classify(WriteLine(a, v)) == WriteWord
    ensures AddressOf(WriteLine(a, v)) == a && DataOf(WriteLine(a, v)) == v
  {
    var wl := WriteLine(a, v);
    ParseAt(wl, 3, a);
    assert wl[11] == ' ';
    HexTextDigits(v, 8);
    assert wl[12] == HexText(v, 8)[0];
    assert SpaceEnd(wl, 12) == 12;
    assert SpaceEnd(wl, 11) == 12;
    ParseAt(wl, 12, v);
  }

  lemma ReadLineParses(a: Ulong)
    ensures Classify(ReadLine(a)) == ReadWord && AddressOf(ReadLine(a)) == a
  {
    var rl := ReadLine(a);
    ParseAt(rl, 3, a);
  }

  /** Eight printhex digits at i, followed by the end or a non-digit, parse back to v. */
  lemma ParseAt(line: seq<char>, i: nat, v: Ulong)
    requires i + 8 <= |line| && line[i..i + 8] == HexText(v, 8)
    requires i + 8 < |line| ==> !IsXDigit(line[i + 8])
    ensures SpaceEnd(line, i) == i && StopOf(line, i) == i + 8 && ValueOf(line, i) == v
  {
    HexTextDigits(v, 8);
    assert line[i] == HexText(v, 8)[0];
    assert forall k :: i <= k < i + 8 ==> IsXDigit(line[k]) by {
      forall k | i <= k < i + 8
        ensures IsXDigit(line[k])
      {
        assert line[k] == HexText(v, 8)[k - i];
      }
    }
    DigitsEndAt(line, i, i + 8);
    PrintHexValue(v);
  }

  /** A run of digits from i to j, ended by the end of the line or a non-digit, ends at j. */
  lemma {:induction false} DigitsEndAt(line: seq<char>, i: nat, j: nat)
    requires i <= j <= |line|
    requires forall k :: i <= k < j ==> IsXDigit(line[k])
    requires j < |line| ==> !IsXDigit(line[j])
    ensures DigitsEnd(line, i) == j
    decreases j - i
  {
    if i < j {
      DigitsEndAt(line, i + 1, j);
    }
  }
}
