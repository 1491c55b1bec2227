/**
 * The host tool srec2vhdl (CODE/srec2vhdl/srec2vhdl.c): it reads a file of
 * Motorola S-records line by line and writes one VHDL table entry
 * `addr => x"bb", ` per payload byte of every S1, S2 and S3 record, four
 * entries to a line, optionally indented and wrapped in a ROM package.
 * Diagnostics go to stderr; they are kept here as a list of events.
 */
module Srec2Vhdl {
  import opened Ctype
  import opened SRecord
  import opened HexCodec
  import opened Memory

  /** `char buffer[LENGTH]`: fgets hands over at most LENGTH - 1 characters. */
  const LENGTH: nat := 1000

  const NUL: char := '\0'

  // ----- hex2 .. hex8 -----

  /** What hex2 makes of one character: toupper, then minus 'A' - 10 from 'A' up, minus '0' below. */
  function Nibble(c: char): int
  {
    var u := ToUpper(c);
    u as int - (if u >= 'A' then 'A' as int - 10 else '0' as int)
  }

  /** hex2 on the two characters at `at`. */
  function Pair(s: seq<char>, at: nat): int
    requires at + 2 <= |s|
  {
    16 * Nibble(s[at]) + Nibble(s[at + 1])
  }

  /** hex4, hex6, hex8 on the digits cs: the pairs, each shifted in above the next, `(hex2 << 8) + hex2`. */
  function Pairs(cs: seq<char>): int
  {
    if |cs| < 2 then 0 else 256 * Pairs(cs[..|cs| - 2]) + Pair(cs, |cs| - 2)
  }

  /** The characters of s in lo .. hi - 1 are all hexadecimal digits. */
  predicate AllHex(s: seq<char>, lo: nat, hi: nat)
  {
    lo <= hi <= |s| && forall j :: lo <= j < hi ==> IsXDigit(s[j])
  }

  /** On a hexadecimal digit, in either case, hex2's arithmetic gives the digit's value. */
  lemma NibbleOfDigit(c: char)
    requires IsXDigit(c)
    ensures Nibble(c) == DigitValue(c)
  {
  }

  /** On two hexadecimal digits hex2 is the number they spell, a byte. */
  lemma PairIsHexNat(s: seq<char>, at: nat)
    requires AllHex(s, at, at + 2)
    ensures Pair(s, at) == HexNat(s[at..at + 2])
    ensures 0 <= Pair(s, at) < 256
  {
    var t := s[at..at + 2];
    assert t[..1] == [s[at]] && t[1] == s[at + 1];
    assert [s[at]][..0] == [];
    NibbleOfDigit(s[at]);
    NibbleOfDigit(s[at + 1]);
  }

  /**
   * hex4, hex6 and hex8 on hexadecimal digits are the big-endian number
   * the 4, 6 or 8 digits spell: the shifts and adds lose nothing.
   */
  lemma {:induction false} PairsIsHexNat(cs: seq<char>)
    requires |cs| % 2 == 0 && AllHex(cs, 0, |cs|)
    ensures Pairs(cs) == HexNat(cs)
  {
    if |cs| >= 2 {
      var x, y := cs[..|cs| - 2], cs[|cs| - 2..];
      assert cs == x + y;
      PairsIsHexNat(x);
      PairIsHexNat(cs, |cs| - 2);
      assert cs[|cs| - 2..|cs|] == y;
      AppendPair(x, y);
    }
  }

  /** One more pair of digits multiplies the number by 256 and adds the pair. */
  lemma AppendPair(x: seq<char>, y: seq<char>)
    requires |y| == 2
    ensures HexNat(x + y) == 256 * HexNat(x) + HexNat(y)
  {
    HexNatAppend(x, y);
    assert Pow16(|y|) == 256;
  }

  /** A field of n bytes of hexadecimal digits. */
  function Field(s: seq<char>, at: nat, n: nat): nat
    requires AllHex(s, at, at + 2 * n)
  {
    PairsIsHexNat(s[at..at + 2 * n]);
    Pairs(s[at..at + 2 * n])
  }

  /** hex2 on a pair of hexadecimal digits: a byte. */
  function ByteOf(s: seq<char>, at: nat): Byte
    requires AllHex(s, at, at + 2)
  {
    PairIsHexNat(s, at);
    Pair(s, at)
  }

  /** The n payload bytes starting at column `at`. */
  function Payload(s: seq<char>, at: nat, n: nat): (bs: seq<Byte>)
    requires AllHex(s, at, at + 2 * n)
    ensures |bs| == n
  {
    seq(n, i requires 0 <= i < n => ByteOf(s, at + 2 * i))
  }

  /** s with the characters in lo .. hi - 1 upper-cased, as hex2 leaves its buffer. */
  function Upper(s: seq<char>, lo: nat, hi: nat): (r: seq<char>)
    ensures |r| == |s|
  {
    seq(|s|, j requires 0 <= j < |s| => if lo <= j < hi then ToUpper(s[j]) else s[j])
  }

  // ----- the table text -----

  /** What the command line options leave set: -f, -i <arg>, -v, -q. */
  datatype Settings = Settings(full: bool, indent: bool, indentArg: int, verbose: bool)

  /** One option as getopt delivers it; atoi's result for -i. */
  datatype Opt = Full | IndentBy(arg: int) | Verbose | Quiet

  /** The options in the order given, each overriding what came before. */
  function Configure(opts: seq<Opt>): Settings
  {
    if opts == [] then Settings(false, false, 0, false)
    else
      var s := Configure(opts[..|opts| - 1]);
      match opts[|opts| - 1]
      case Full => s.(full := true, indent := true, indentArg := 8)
      case IndentBy(n) => s.(indent := true, indentArg := n)
      case Verbose => s.(verbose := true)
      case Quiet => s.(verbose := false)
  }

  /**
   * -f switches the full table on for good, and entries are indented
   * exactly when -f or -i was given.
   */
  lemma {:induction false} ConfigureIndent(opts: seq<Opt>)
    ensures Full in opts ==> Configure(opts).full
    ensures Configure(opts).full ==> Full in opts
    ensures Configure(opts).indent <==> exists k :: 0 <= k < |opts| && (opts[k].Full? || opts[k].IndentBy?)
  {
    if opts != [] {
      var p := opts[..|opts| - 1];
      ConfigureIndent(p);
      assert opts == p + [opts[|opts| - 1]];
      assert forall k :: 0 <= k < |p| ==> opts[k] == p[k];
    }
  }

  /** n spaces; none for n <= 0. */
  function Spaces(n: int): (r: seq<char>)
    ensures |r| == (if n <= 0 then 0 else n)
  {
    if n <= 0 then [] else Spaces(n - 1) + [' ']
  }

  /** The margin that starts every indented line. */
  function Margin(st: Settings): seq<char>
  {
    if st.indent then Spaces(st.indentArg) else []
  }

  function DecDigit(d: nat): (c: char)
    requires d < 10
    ensures '0' <= c <= '9'
  {
    ('0' as int + d) as char
  }

  /** %lu: the decimal digits of n, no leading zeros. */
  function Decimal(n: nat): (r: seq<char>)
    ensures 1 <= |r|
  {
    if n < 10 then [DecDigit(n)] else Decimal(n / 10) + [DecDigit(n % 10)]
  }

  /** The number a string of decimal digits spells. */
  function DecValue(cs: seq<char>): int
  {
    if cs == [] then 0 else 10 * DecValue(cs[..|cs| - 1]) + (cs[|cs| - 1] as int - '0' as int)
  }

  /** %lu prints n itself, with no leading zero. */
  lemma {:induction false} DecimalValue(n: nat)
    ensures DecValue(Decimal(n)) == n
    ensures |Decimal(n)| > 1 ==> Decimal(n)[0] != '0'
  {
    if n >= 10 {
      var r := Decimal(n);
      assert r[..|r| - 1] == Decimal(n / 10);
      DecimalValue(n / 10);
      assert r[0] == Decimal(n / 10)[0];
    }
  }

  /** %4lu: right-aligned in four columns, wider when it must be. */
  function Column4(n: nat): seq<char>
  {
    Spaces(4 - |Decimal(n)|) + Decimal(n)
  }

  /** %4lu pads with spaces to four columns and ends with the digits of n. */
  lemma Column4Shape(n: nat)
    ensures |Column4(n)| >= 4 && |Column4(n)| >= |Decimal(n)|
    ensures |Decimal(n)| <= 4 ==> |Column4(n)| == 4
    ensures Column4(n)[|Column4(n)| - |Decimal(n)|..] == Decimal(n)
    ensures forall k :: 0 <= k < |Column4(n)| - |Decimal(n)| ==> Column4(n)[k] == ' '
  {
    SpacesAreSpaces(4 - |Decimal(n)|);
  }

  lemma {:induction false} SpacesAreSpaces(n: int)
    ensures forall k :: 0 <= k < |Spaces(n)| ==> Spaces(n)[k] == ' '
  {
    if n > 0 {
      SpacesAreSpaces(n - 1);
    }
  }

  /** `"%4lu => x\"%02lx\", "` */
  function Entry(a: nat, b: Byte): seq<char>
  {
    Column4(a) + " => x\"" + HexText(b, 2) + "\", "
  }

  /** After an entry: a newline and the margin when the next address starts a word. */
  function Break(st: Settings, next: nat): seq<char>
  {
    if next % 4 == 0 then "\n" + Margin(st) else []
  }

  /** The entries of the bytes bs from address a on, each followed by its break. */
  function Entries(st: Settings, a: nat, bs: seq<Byte>): seq<char>
  {
    if bs == [] then []
    else Entries(st, a, bs[..|bs| - 1]) + Entry(a + |bs| - 1, bs[|bs| - 1]) + Break(st, a + |bs|)
  }

  /** The margin printed before a record's first entry: only when indenting and doindent is set. */
  function Lead(st: Settings, doindent: bool): seq<char>
  {
    if st.indent && doindent then Spaces(st.indentArg) else []
  }

  /** After a record that ends inside a word, one newline. */
  function Close(final: nat): seq<char>
  {
    if final % 4 != 0 then "\n" else []
  }

  /** All a data record writes to the table. */
  function Record(st: Settings, doindent: bool, a: nat, bs: seq<Byte>): seq<char>
  {
    Lead(st, doindent) + Entries(st, a, bs) + Close(a + |bs|)
  }

  /**
   * doindent after a record as the program has it: cleared when the record
   * ends on a word boundary, and otherwise left as it was. The `doindent = 1`
   * inside the indent test only repeats what that test has just checked.
   */
  function DoindentAsWritten(doindent: bool, final: nat): bool
  {
    if final % 4 != 0 then doindent else false
  }

  /**
   * doindent after a record as the layout needs it: set exactly when the
   * record closed its line with a bare newline, so that no margin has been
   * printed for the line that follows.
   */
  function Doindent(final: nat): bool
  {
    final % 4 != 0
  }

  /**
   * Which of the two doindent rules a conversion follows: the program's
   * own, or the corrected one under which the layout holds.
   */
  datatype Rule = AsWritten | Corrected

  /** doindent after a data record ending at `final`, under rule r, from doindent d. */
  function After(r: Rule, d: bool, final: nat): bool
  {
    match r
    case AsWritten => DoindentAsWritten(d, final)
    case Corrected => Doindent(final)
  }

  // ----- one line of input -----

  /** What goes to stderr. */
  datatype Diag =
    | NotSRecord(line: nat)
    | VendorText(text: seq<char>)
    | Reserved
    | CountSkipped
    | Termination
    | Invalid(line: nat)

  /** What one line does: text added to the table, doindent afterwards, diagnostics. */
  datatype Effect = Effect(text: seq<char>, doindent: bool, diags: seq<Diag>)

  /**
   * A record whose count, address and payload fields are hexadecimal
   * digits, with a count of at least the overhead: anything else makes
   * hex2 and the unsigned `val - overhead` meaningless.
   */
  predicate Readable(s: seq<char>, overhead: nat, column: nat)
  {
    && AllHex(s, 2, 4)
    && Pair(s, 2) >= overhead
    && AllHex(s, 2, column + 2 * (Pair(s, 2) - overhead))
  }

  /** The type character: buffer[1], which is the NUL after a one-character line. */
  function TypeOf(s: seq<char>): char
  {
    if |s| >= 2 then s[1] else NUL
  }

  /** What the conversion of a line needs: data records readable, and S0 when its text is shown. */
  predicate Convertible(st: Settings, s: seq<char>)
  {
    |s| >= 1 && s[0] == 'S' ==>
      (IsData(TypeOf(s)) ==> Readable(s, Overhead(TypeOf(s)), DataColumn(TypeOf(s))))
      && (TypeOf(s) == '0' && st.verbose ==> Readable(s, 3, 8))
  }

  /** The vendor text of an S0 record: its payload bytes as characters. */
  function Text(bs: seq<Byte>): (t: seq<char>)
    ensures |t| == |bs|
  {
    seq(|bs|, i requires 0 <= i < |bs| => bs[i] as char)
  }

  /** A diagnostic shown only with -v. */
  function Chatter(st: Settings, d: Diag): seq<Diag>
  {
    if st.verbose then [d] else []
  }

  /** The switch on the record type for line number n, with doindent d, under rule r. */
  function Convert(st: Settings, r: Rule, d: bool, n: nat, s: seq<char>): Effect
    requires Convertible(st, s)
  {
    if |s| >= 1 && s[0] == 'S' && IsData(TypeOf(s)) then
      var t := TypeOf(s);
      var a := Field(s, 4, AddressDigits(t) / 2);
      var bs := Payload(s, DataColumn(t), Pair(s, 2) - Overhead(t));
      Effect(Record(st, d, a, bs), After(r, d, a + |bs|), [])
    else Effect([], d, Notes(st, n, s))
  }

  /** What a line other than a data record sends to stderr. */
  function Notes(st: Settings, n: nat, s: seq<char>): seq<Diag>
    requires Convertible(st, s)
  {
    if |s| == 0 || s[0] != 'S' then [NotSRecord(n)]
    else
      var t := TypeOf(s);
      if t == '0' then
        if st.verbose then [VendorText(Text(Payload(s, 8, Pair(s, 2) - 3)))] else []
      else if t == '4' then Chatter(st, Reserved)
      else if t == '5' || t == '6' then Chatter(st, CountSkipped)
      else if IsTermination(t) then Chatter(st, Termination)
      else Chatter(st, Invalid(n))
  }

  /** The lines read so far, in order, starting with doindent set. */
  function Table(st: Settings, r: Rule, lines: seq<seq<char>>): Effect
    requires forall k :: 0 <= k < |lines| ==> Convertible(st, lines[k])
  {
    if lines == [] then Effect([], true, [])
    else
      var e := Table(st, r, lines[..|lines| - 1]);
      var c := Convert(st, r, e.doindent, |lines|, lines[|lines| - 1]);
      Effect(e.text + c.text, c.doindent, e.diags + c.diags)
  }

  const HEAD: seq<char> := "-- srec2vhdl table generator\n-- for input file "
  const PACKAGE: seq<char> := "\n\nlibrary ieee;\nuse ieee.std_logic_1164.all;\n\nlibrary work;\nuse work.processor_common.all;\n\npackage processor_common_rom is\n    constant rom_contents : rom_type := (\n"
  const TAIL: seq<char> := "others => (others => '-')\n    );\nend package processor_common_rom;\n"

  /** The -f header for input file `name`. */
  function Header(name: seq<char>): seq<char>
  {
    HEAD + name + PACKAGE
  }

  /** The -f footer: the margin if doindent is set, the `others` entry, the end of the package. */
  function Footer(st: Settings, doindent: bool): seq<char>
  {
    (if doindent then Spaces(st.indentArg) else []) + TAIL
  }

  /** The whole output file. */
  function Document(st: Settings, r: Rule, name: seq<char>, lines: seq<seq<char>>): seq<char>
    requires forall k :: 0 <= k < |lines| ==> Convertible(st, lines[k])
  {
    (if st.full then Header(name) else [])
    + Table(st, r, lines).text
    + (if st.full then Footer(st, Table(st, r, lines).doindent) else [])
  }

  // ----- what the conversion promises -----

  /**
   * Only data records write to the table: a line not starting with `S`
   * gets a diagnostic naming its line number, and S0, S4 .. S9 and unknown
   * types write at most verbose diagnostics; none of them touches doindent.
   * A data record with a payload does write.
   */
  lemma OnlyDataWrites(st: Settings, r: Rule, d: bool, n: nat, s: seq<char>)
    requires Convertible(st, s)
    ensures !(|s| >= 1 && s[0] == 'S' && IsData(TypeOf(s))) ==>
      Convert(st, r, d, n, s).text == [] && Convert(st, r, d, n, s).doindent == d
    ensures |s| == 0 || s[0] != 'S' ==> Convert(st, r, d, n, s).diags == [NotSRecord(n)]
    ensures !st.verbose && |s| >= 1 && s[0] == 'S' ==> Convert(st, r, d, n, s).diags == []
    ensures |s| >= 1 && s[0] == 'S' && IsData(TypeOf(s)) && Pair(s, 2) > Overhead(TypeOf(s)) ==>
      |Convert(st, r, d, n, s).text| >= 4
  {
    if |s| >= 1 && s[0] == 'S' && IsData(TypeOf(s)) && Pair(s, 2) > Overhead(TypeOf(s)) {
      var t := TypeOf(s);
      var a := Field(s, 4, AddressDigits(t) / 2);
      var bs := Payload(s, DataColumn(t), Pair(s, 2) - Overhead(t));
      EntriesLength(st, a, bs);
    }
  }

  lemma {:induction false} EntriesLength(st: Settings, a: nat, bs: seq<Byte>)
    ensures bs != [] ==> |Entries(st, a, bs)| >= 4 * |bs|
  {
    if |bs| > 1 {
      EntriesLength(st, a, bs[..|bs| - 1]);
    }
  }

  /** Payload bytes depend only on their own digits. */
  lemma PayloadAgree(s: seq<char>, s': seq<char>, at: nat, n: nat)
    requires AllHex(s, at, at + 2 * n) && AllHex(s', at, at + 2 * n)
    requires s[at..at + 2 * n] == s'[at..at + 2 * n]
    ensures Payload(s, at, n) == Payload(s', at, n)
  {
    forall i | 0 <= i < n
      ensures ByteOf(s, at + 2 * i) == ByteOf(s', at + 2 * i)
    {
      assert s[at + 2 * i] == s[at..at + 2 * n][2 * i];
      assert s[at + 2 * i + 1] == s[at..at + 2 * n][2 * i + 1];
    }
  }

  /**
   * The checksum is never examined: two data records that agree up to the
   * end of their payload convert alike, whatever follows.
   */
  lemma ChecksumIgnored(st: Settings, r: Rule, d: bool, n: nat, s: seq<char>, s': seq<char>, end: nat)
    requires Convertible(st, s) && Convertible(st, s')
    requires |s| >= 2 && s[0] == 'S' && IsData(s[1]) && Readable(s, Overhead(s[1]), DataColumn(s[1]))
    requires end == DataColumn(s[1]) + 2 * (Pair(s, 2) - Overhead(s[1]))
    requires end <= |s'| && s[..end] == s'[..end]
    ensures Convert(st, r, d, n, s) == Convert(st, r, d, n, s')
  {
    FieldsAgree(s, s', end);
    ConvertData(st, r, d, n, s);
    ConvertData(st, r, d, n, s');
  }

  /** Two data records that agree up to the end of the payload have the same fields. */
  lemma FieldsAgree(s: seq<char>, s': seq<char>, end: nat)
    requires |s| >= 2 && s[0] == 'S' && IsData(s[1]) && Readable(s, Overhead(s[1]), DataColumn(s[1]))
    requires end == DataColumn(s[1]) + 2 * (Pair(s, 2) - Overhead(s[1]))
    requires end <= |s'| && s[..end] == s'[..end]
    ensures |s'| >= 2 && s'[0] == 'S' && TypeOf(s') == TypeOf(s) == s[1]
    ensures Pair(s', 2) == Pair(s, 2)
    ensures Field(s', 4, AddressDigits(s[1]) / 2) == Field(s, 4, AddressDigits(s[1]) / 2)
    ensures Payload(s', DataColumn(s[1]), Pair(s, 2) - Overhead(s[1]))
         == Payload(s, DataColumn(s[1]), Pair(s, 2) - Overhead(s[1]))
  {
    var t := s[1];
    assert s'[0] == s[..end][0] && s'[1] == s[..end][1];
    assert forall j :: 0 <= j < end ==> s'[j] == s[j] by {
      forall j | 0 <= j < end ensures s'[j] == s[j] {
        assert s[j] == s[..end][j] && s'[j] == s'[..end][j];
      }
    }
    assert Pair(s, 2) == Pair(s', 2);
    var k := AddressDigits(t) / 2;
    assert s[4..4 + 2 * k] == s'[4..4 + 2 * k];
    var c, m := DataColumn(t), Pair(s, 2) - Overhead(t);
    assert s[c..c + 2 * m] == s'[c..c + 2 * m];
    PayloadAgree(s, s', c, m);
  }

  /** The output so far ends a line (or is empty). */
  predicate LineStart(out: seq<char>)
  {
    out == [] || out[|out| - 1] == '\n'
  }

  /**
   * The layout the table keeps between records: with doindent set the
   * output ends a line, and with doindent clear it ends a line followed by
   * exactly the margin. Either way the next entry lands after the margin.
   */
  predicate Poised(st: Settings, out: seq<char>, doindent: bool)
  {
    if doindent then LineStart(out)
    else (|Margin(st)| <= |out| && out[|out| - |Margin(st)|..] == Margin(st)
          && LineStart(out[..|out| - |Margin(st)|]))
  }

  /** Output that ends a line, then the margin, is poised with doindent clear. */
  lemma MarginAfterLineStart(st: Settings, pre: seq<char>, m: seq<char>)
    requires LineStart(pre) && m == Margin(st)
    ensures Poised(st, pre + m, false)
  {
    var o := pre + m;
    assert o[|o| - |m|..] == m;
    assert o[..|o| - |m|] == pre;
  }

  /** A record's first entry follows a line start and the margin. */
  lemma LeadIndents(st: Settings, out: seq<char>, d: bool)
    requires Poised(st, out, d)
    ensures Poised(st, out + Lead(st, d), false)
  {
    if d {
      MarginAfterLineStart(st, out, Lead(st, d));
    } else {
      assert out + Lead(st, d) == out;
    }
  }

  /**
   * With doindent as corrected, every record leaves the table poised: the
   * layout holds after any number of records, so every line of entries
   * starts with the margin.
   */
  lemma RecordKeepsLayout(st: Settings, out: seq<char>, d: bool, a: nat, bs: seq<Byte>)
    requires Poised(st, out, d)
    ensures Poised(st, out + Record(st, d, a, bs), Doindent(a + |bs|))
  {
    if (a + |bs|) % 4 != 0 {
      MidWordRecord(st, out, d, a, bs);
    } else if bs == [] {
      EmptyRecord(st, out, d, a);
    } else {
      BoundaryRecord(st, out, d, a, bs);
    }
  }

  /** A record that ends inside a word closes its line. */
  lemma MidWordRecord(st: Settings, out: seq<char>, d: bool, a: nat, bs: seq<Byte>)
    requires (a + |bs|) % 4 != 0
    ensures LineStart(out + Record(st, d, a, bs))
  {
    var r := Record(st, d, a, bs);
    assert Close(a + |bs|) == "\n";
    assert r == (Lead(st, d) + Entries(st, a, bs)) + "\n";
    assert r[|r| - 1] == '\n';
    assert (out + r)[|out + r| - 1] == r[|r| - 1];
  }

  /** A record without payload, ending on a word boundary, leaves just its lead. */
  lemma EmptyRecord(st: Settings, out: seq<char>, d: bool, a: nat)
    requires Poised(st, out, d) && a % 4 == 0
    ensures Poised(st, out + Record(st, d, a, []), false)
  {
    assert Record(st, d, a, []) == Lead(st, d);
    LeadIndents(st, out, d);
  }

  /** A record whose last entry ends a word leaves the margin of the next line. */
  lemma BoundaryRecord(st: Settings, out: seq<char>, d: bool, a: nat, bs: seq<Byte>)
    requires bs != [] && (a + |bs|) % 4 == 0
    ensures Poised(st, out + Record(st, d, a, bs), false)
  {
    assert out + Record(st, d, a, bs) == (out + Lead(st, d)) + Entries(st, a, bs);
    BrokenLine(st, out + Lead(st, d), a, bs);
  }

  /** Entries that end on a word boundary end with a newline and the margin. */
  lemma BrokenLine(st: Settings, lead: seq<char>, a: nat, bs: seq<Byte>)
    requires bs != [] && (a + |bs|) % 4 == 0
    ensures Poised(st, lead + Entries(st, a, bs), false)
  {
    var w := Entries(st, a, bs[..|bs| - 1]) + Entry(a + |bs| - 1, bs[|bs| - 1]);
    var m := Margin(st);
    assert Break(st, a + |bs|) == "\n" + m;
    assert Entries(st, a, bs) == w + ("\n" + m);
    Assoc(w, "\n", m);
    Grow(lead, w, "\n", m);
    var pre := lead + w + "\n";
    assert pre[|pre| - 1] == '\n';
    MarginAfterLineStart(st, pre, m);
  }

  /**
   * The program as written loses the layout: once doindent is clear (a
   * record ended on a word boundary), a record that ends inside a word
   * closes its line with a bare newline but leaves doindent clear, so the
   * next record's first entry is written without the margin.
   */
  lemma DoindentAsWrittenLosesMargin(st: Settings, out: seq<char>, a: nat, bs: seq<Byte>)
    requires st.indent && st.indentArg > 0
    requires Poised(st, out, false)
    requires (a + |bs|) % 4 != 0
    ensures !Poised(st, out + Record(st, false, a, bs), DoindentAsWritten(false, a + |bs|))
    ensures Poised(st, out + Record(st, false, a, bs), Doindent(a + |bs|))
  {
    var o := out + Record(st, false, a, bs);
    assert o[|o| - 1] == '\n';
    var m := Margin(st);
    SpacesAreSpaces(st.indentArg);
    assert m[|m| - 1] == ' ';
    if |m| <= |o| {
      assert o[|o| - |m|..][|m| - 1] == '\n';
    }
    RecordKeepsLayout(st, out, false, a, bs);
  }

  /**
   * The state in which the program goes wrong is reached at once: from
   * the start of the table, a record that ends on a word boundary leaves
   * doindent clear (both as written and as corrected).
   */
  lemma BoundaryRecordClearsDoindent(st: Settings, out: seq<char>, a: nat, bs: seq<Byte>)
    requires LineStart(out) && (a + |bs|) % 4 == 0
    ensures DoindentAsWritten(true, a + |bs|) == Doindent(a + |bs|) == false
    ensures Poised(st, out + Record(st, true, a, bs), false)
  {
    RecordKeepsLayout(st, out, true, a, bs);
  }

  /** One line keeps the layout: data records as RecordKeepsLayout says, other lines write nothing. */
  lemma ConvertKeepsLayout(st: Settings, out: seq<char>, d: bool, n: nat, s: seq<char>)
    requires Convertible(st, s) && Poised(st, out, d)
    ensures Poised(st, out + Convert(st, Corrected, d, n, s).text, Convert(st, Corrected, d, n, s).doindent)
  {
    if |s| >= 1 && s[0] == 'S' && IsData(TypeOf(s)) {
      DataKeepsLayout(st, out, d, n, s);
    } else {
      OnlyDataWrites(st, Corrected, d, n, s);
      assert out + [] == out;
      Carry(st, out, Convert(st, Corrected, d, n, s), [], d);
    }
  }

  lemma DataKeepsLayout(st: Settings, out: seq<char>, d: bool, n: nat, s: seq<char>)
    requires Convertible(st, s) && Poised(st, out, d)
    requires |s| >= 1 && s[0] == 'S' && IsData(TypeOf(s))
    ensures Poised(st, out + Convert(st, Corrected, d, n, s).text, Convert(st, Corrected, d, n, s).doindent)
  {
    var t := TypeOf(s);
    var a := Field(s, 4, AddressDigits(t) / 2);
    var bs := Payload(s, DataColumn(t), Pair(s, 2) - Overhead(t));
    var c := Convert(st, Corrected, d, n, s);
    ConvertData(st, Corrected, d, n, s);
    assert c.text == Record(st, d, a, bs) && c.doindent == Doindent(a + |bs|);
    RecordKeepsLayout(st, out, d, a, bs);
  }

  lemma Carry(st: Settings, out: seq<char>, c: Effect, text: seq<char>, d: bool)
    requires c.text == text && c.doindent == d && Poised(st, out + text, d)
    ensures Poised(st, out + c.text, c.doindent)
  {
  }

  /** What a data record converts to, in terms of its address and payload. */
  lemma ConvertData(st: Settings, r: Rule, d: bool, n: nat, s: seq<char>)
    requires Convertible(st, s) && |s| >= 1 && s[0] == 'S' && IsData(TypeOf(s))
    ensures Convert(st, r, d, n, s) ==
      var a := Field(s, 4, AddressDigits(TypeOf(s)) / 2);
      var bs := Payload(s, DataColumn(TypeOf(s)), Pair(s, 2) - Overhead(TypeOf(s)));
      Effect(Record(st, d, a, bs), After(r, d, a + |bs|), [])
  {
  }

  /** What a line other than a data record converts to. */
  lemma OtherLine(st: Settings, r: Rule, d: bool, n: nat, s: seq<char>)
    requires Convertible(st, s) && !(|s| >= 1 && s[0] == 'S' && IsData(TypeOf(s)))
    ensures Convert(st, r, d, n, s) == Effect([], d, Notes(st, n, s))
  {
  }

  /** The whole table keeps the layout, from doindent set at the start. */
  lemma {:induction false} TableLayout(st: Settings, head: seq<char>, lines: seq<seq<char>>)
    requires forall k :: 0 <= k < |lines| ==> Convertible(st, lines[k])
    requires LineStart(head)
    ensures Poised(st, head + Table(st, Corrected, lines).text, Table(st, Corrected, lines).doindent)
  {
    if lines != [] {
      var p := lines[..|lines| - 1];
      var e := Table(st, Corrected, p);
      TableLayout(st, head, p);
      var c := Convert(st, Corrected, e.doindent, |lines|, lines[|lines| - 1]);
      ConvertKeepsLayout(st, head + e.text, e.doindent, |lines|, lines[|lines| - 1]);
      assert Table(st, Corrected, lines) == Effect(e.text + c.text, c.doindent, e.diags + c.diags);
      Assoc(head, e.text, c.text);
    }
  }

  lemma Assoc(x: seq<char>, y: seq<char>, z: seq<char>)
    ensures x + (y + z) == x + y + z
  {
  }

  /** With -f the `others` entry, like every line of entries, starts after the margin. */
  lemma FooterIndented(st: Settings, name: seq<char>, lines: seq<seq<char>>)
    requires forall k :: 0 <= k < |lines| ==> Convertible(st, lines[k])
    requires st.full && st.indent
    ensures Poised(st, Header(name) + Table(st, Corrected, lines).text + Lead(st, Table(st, Corrected, lines).doindent), false)
    ensures Document(st, Corrected, name, lines) == Header(name) + Table(st, Corrected, lines).text + Lead(st, Table(st, Corrected, lines).doindent) + TAIL
  {
    var h := Header(name);
    var e := Table(st, Corrected, lines);
    assert h[|h| - 1] == PACKAGE[|PACKAGE| - 1];
    TableLayout(st, h, lines);
    LeadIndents(st, h + e.text, e.doindent);
    FooterIsLead(st, e.doindent);
    Assoc(h + e.text, Lead(st, e.doindent), TAIL);
  }

  /** With indentation on, the footer's margin is the lead a record would get. */
  lemma FooterIsLead(st: Settings, d: bool)
    requires st.indent
    ensures Footer(st, d) == Lead(st, d) + TAIL
  {
  }

  // ----- the program as written against the corrected rule -----

  /** A line holding an S1, S2 or S3 record. */
  predicate IsDataLine(s: seq<char>)
  {
    |s| >= 1 && s[0] == 'S' && IsData(TypeOf(s))
  }

  /** The address just past a data record's last byte: `address` after the entry loop. */
  function Final(st: Settings, s: seq<char>): nat
    requires Convertible(st, s) && IsDataLine(s)
  {
    Field(s, 4, AddressDigits(TypeOf(s)) / 2) + (Pair(s, 2) - Overhead(TypeOf(s)))
  }

  /** A data record that ends on a word boundary: it clears doindent. */
  predicate EndsWord(st: Settings, s: seq<char>)
    requires Convertible(st, s)
  {
    IsDataLine(s) && Final(st, s) % 4 == 0
  }

  /** A data record that ends inside a word: it closes its line with a bare newline. */
  predicate EndsMidWord(st: Settings, s: seq<char>)
    requires Convertible(st, s)
  {
    IsDataLine(s) && Final(st, s) % 4 != 0
  }

  /**
   * The fault is not triggered: no data record ending inside a word comes
   * after one that ends on a word boundary.
   */
  predicate Untriggered(st: Settings, lines: seq<seq<char>>)
    requires forall k :: 0 <= k < |lines| ==> Convertible(st, lines[k])
  {
    forall j :: 0 <= j < |lines| && EndsMidWord(st, lines[j]) ==>
      forall i :: 0 <= i < j ==> !EndsWord(st, lines[i])
  }

  /** The doindent a line leaves: a data record's rule applied to where it ends, any other line's unchanged. */
  lemma ConvertDoindent(st: Settings, r: Rule, d: bool, n: nat, s: seq<char>)
    requires Convertible(st, s)
    ensures Convert(st, r, d, n, s).doindent == if IsDataLine(s) then After(r, d, Final(st, s)) else d
  {
    if IsDataLine(s) {
      ConvertData(st, r, d, n, s);
    } else {
      OtherLine(st, r, d, n, s);
    }
  }

  /** The rule decides only doindent: the text and the diagnostics of a line do not depend on it. */
  lemma ConvertRuleFree(st: Settings, d: bool, n: nat, s: seq<char>)
    requires Convertible(st, s)
    ensures Convert(st, AsWritten, d, n, s).text == Convert(st, Corrected, d, n, s).text
    ensures Convert(st, AsWritten, d, n, s).diags == Convert(st, Corrected, d, n, s).diags
  {
  }

  /**
   * As written, doindent stays set exactly until the first data record
   * that ends on a word boundary, and nothing sets it again.
   */
  lemma {:induction false} AsWrittenDoindent(st: Settings, lines: seq<seq<char>>)
    requires forall k :: 0 <= k < |lines| ==> Convertible(st, lines[k])
    ensures Table(st, AsWritten, lines).doindent <==> forall k :: 0 <= k < |lines| ==> !EndsWord(st, lines[k])
  {
    if lines != [] {
      var p := lines[..|lines| - 1];
      var s := lines[|lines| - 1];
      assert forall k :: 0 <= k < |p| ==> p[k] == lines[k];
      AsWrittenDoindent(st, p);
      var e := Table(st, AsWritten, p);
      ConvertDoindent(st, AsWritten, e.doindent, |lines|, s);
      assert Table(st, AsWritten, lines).doindent == Convert(st, AsWritten, e.doindent, |lines|, s).doindent;
    }
  }

  /**
   * The program writes the corrected table as long as no data record
   * ending inside a word follows one that ends on a word boundary.
   */
  lemma {:induction false} RulesAgree(st: Settings, lines: seq<seq<char>>)
    requires forall k :: 0 <= k < |lines| ==> Convertible(st, lines[k])
    requires Untriggered(st, lines)
    ensures Table(st, AsWritten, lines) == Table(st, Corrected, lines)
  {
    if lines != [] {
      var p := lines[..|lines| - 1];
      var s := lines[|lines| - 1];
      assert forall k :: 0 <= k < |p| ==> p[k] == lines[k];
      assert Untriggered(st, p);
      RulesAgree(st, p);
      var e := Table(st, AsWritten, p);
      ConvertRuleFree(st, e.doindent, |lines|, s);
      ConvertDoindent(st, AsWritten, e.doindent, |lines|, s);
      ConvertDoindent(st, Corrected, e.doindent, |lines|, s);
      if IsDataLine(s) && EndsMidWord(st, s) {
        assert forall k :: 0 <= k < |p| ==> !EndsWord(st, lines[k]);
        AsWrittenDoindent(st, p);
      }
    }
  }

  /**
   * Until the fault is triggered the program keeps the layout: its
   * document is the corrected one, and every line of entries starts after
   * the margin.
   */
  lemma AsWrittenLayout(st: Settings, head: seq<char>, name: seq<char>, lines: seq<seq<char>>)
    requires forall k :: 0 <= k < |lines| ==> Convertible(st, lines[k])
    requires Untriggered(st, lines)
    requires LineStart(head)
    ensures Document(st, AsWritten, name, lines) == Document(st, Corrected, name, lines)
    ensures Poised(st, head + Table(st, AsWritten, lines).text, Table(st, AsWritten, lines).doindent)
  {
    RulesAgree(st, lines);
    TableLayout(st, head, lines);
  }

  /**
   * The fault in the table: once a data record has ended on a word
   * boundary, a data record ending inside a word leaves the output just
   * after a bare newline with doindent clear, so the next entry, or the
   * -f footer, gets no margin. Under the corrected rule the layout holds.
   */
  lemma AsWrittenLosesMargin(st: Settings, head: seq<char>, lines: seq<seq<char>>, i: nat)
    requires forall k :: 0 <= k < |lines| ==> Convertible(st, lines[k])
    requires st.indent && st.indentArg > 0 && LineStart(head)
    requires i < |lines| - 1 && EndsWord(st, lines[i]) && EndsMidWord(st, lines[|lines| - 1])
    ensures !Poised(st, head + Table(st, AsWritten, lines).text, Table(st, AsWritten, lines).doindent)
    ensures Poised(st, head + Table(st, Corrected, lines).text, Table(st, Corrected, lines).doindent)
  {
    var e := Table(st, AsWritten, lines);
    AsWrittenEndsBare(st, lines, i);
    var o := head + e.text;
    assert o[|o| - 1] == e.text[|e.text| - 1];
    BareLineStart(st, o);
    TableLayout(st, head, lines);
  }

  /** As written, such a table ends with a bare newline and doindent clear. */
  lemma AsWrittenEndsBare(st: Settings, lines: seq<seq<char>>, i: nat)
    requires forall k :: 0 <= k < |lines| ==> Convertible(st, lines[k])
    requires i < |lines| - 1 && EndsWord(st, lines[i]) && EndsMidWord(st, lines[|lines| - 1])
    ensures var e := Table(st, AsWritten, lines);
      |e.text| > 0 && e.text[|e.text| - 1] == '\n' && !e.doindent
  {
    var p := lines[..|lines| - 1];
    var s := lines[|lines| - 1];
    assert p[i] == lines[i] && EndsWord(st, p[i]);
    AsWrittenDoindent(st, p);
    var e := Table(st, AsWritten, p);
    assert !e.doindent;
    var c := Convert(st, AsWritten, e.doindent, |lines|, s);
    MidWordAsWritten(st, e.doindent, |lines|, s);
    assert Table(st, AsWritten, lines) == Effect(e.text + c.text, c.doindent, e.diags + c.diags);
    assert (e.text + c.text)[|e.text + c.text| - 1] == c.text[|c.text| - 1];
  }

  /** As written, a data record ending inside a word ends with a bare newline and keeps doindent. */
  lemma MidWordAsWritten(st: Settings, d: bool, n: nat, s: seq<char>)
    requires Convertible(st, s) && EndsMidWord(st, s)
    ensures var c := Convert(st, AsWritten, d, n, s);
      |c.text| > 0 && c.text[|c.text| - 1] == '\n' && c.doindent == d
  {
    ConvertData(st, AsWritten, d, n, s);
    var t := TypeOf(s);
    var a := Field(s, 4, AddressDigits(t) / 2);
    var bs := Payload(s, DataColumn(t), Pair(s, 2) - Overhead(t));
    assert Record(st, d, a, bs) == Lead(st, d) + Entries(st, a, bs) + "\n";
  }

  /** Output just after a bare newline is not poised with doindent clear when there is a margin. */
  lemma BareLineStart(st: Settings, o: seq<char>)
    requires st.indent && st.indentArg > 0
    requires |o| > 0 && o[|o| - 1] == '\n'
    ensures !Poised(st, o, false)
  {
    var m := Margin(st);
    SpacesAreSpaces(st.indentArg);
    assert m[|m| - 1] == ' ';
    if |m| <= |o| {
      assert o[|o| - |m|..][|m| - 1] == '\n';
    }
  }

  /**
   * srec2vhdl with entries indented (-f, see FullSettings, or -i with a
   * positive margin) on three S1 records: four bytes at 0, one byte at 4
   * and one byte at 8. The first ends on a word boundary and the third inside
   * a word, so the program leaves no margin where the entry for address 8
   * goes, nor where the footer goes, while the corrected rule keeps it.
   */
  lemma ExampleLosesMargin(st: Settings, head: seq<char>, lines: seq<seq<char>>, d0: seq<char>, d1: seq<char>, d2: seq<char>)
    requires st.indent && st.indentArg > 0 && LineStart(head)
    requires ExampleData(d0, d1, d2) && lines == ExampleInput(d0, d1, d2)
    ensures forall k :: 0 <= k < |lines| ==> Convertible(st, lines[k])
    ensures var p := lines[..2];
      !Poised(st, head + Table(st, AsWritten, p).text, Table(st, AsWritten, p).doindent)
    ensures !Poised(st, head + Table(st, AsWritten, lines).text, Table(st, AsWritten, lines).doindent)
    ensures Poised(st, head + Table(st, Corrected, lines).text, Table(st, Corrected, lines).doindent)
  {
    ExampleLines(st, lines, d0, d1, d2);
    LosesMarginFirstTwo(st, head, lines);
    AsWrittenLosesMargin(st, head, lines, 0);
  }

  /** A record ending on a word boundary followed by one ending inside a word: the loss shows after those two. */
  lemma LosesMarginFirstTwo(st: Settings, head: seq<char>, lines: seq<seq<char>>)
    requires st.indent && st.indentArg > 0 && LineStart(head) && |lines| >= 2
    requires forall k :: 0 <= k < |lines| ==> Convertible(st, lines[k])
    requires EndsWord(st, lines[0]) && EndsMidWord(st, lines[1])
    ensures var p := lines[..2];
      !Poised(st, head + Table(st, AsWritten, p).text, Table(st, AsWritten, p).doindent)
  {
    var p := lines[..2];
    assert p[0] == lines[0] && p[1] == lines[1];
    assert forall k :: 0 <= k < |p| ==> Convertible(st, p[k]);
    AsWrittenLosesMargin(st, head, p, 0);
  }

  /** The three records above: readable, the first ending on a word boundary and the others inside a word. */
  lemma ExampleLines(st: Settings, lines: seq<seq<char>>, d0: seq<char>, d1: seq<char>, d2: seq<char>)
    requires ExampleData(d0, d1, d2) && lines == ExampleInput(d0, d1, d2)
    ensures |lines| == 3 && forall k :: 0 <= k < |lines| ==> Convertible(st, lines[k])
    ensures EndsWord(st, lines[0]) && EndsMidWord(st, lines[1]) && EndsMidWord(st, lines[2])
  {
    ExampleLine(st, lines[0], '7', '0', 4, d0);
    ExampleLine(st, lines[1], '4', '4', 1, d1);
    ExampleLine(st, lines[2], '4', '8', 1, d2);
    forall k | 0 <= k < |lines|
      ensures Convertible(st, lines[k])
    {
      assert k == 0 || k == 1 || k == 2;
    }
  }

  /**
   * The records S10700000000000000, S104000400 and S104000800, with the
   * payload digits d0, d1 and d2 in place of the zeros: four bytes at 0,
   * one byte at 4 and one byte at 8 (S1070000AABBCCDD00, S1040004EE00 and
   * S1040008FF00, say).
   */
  function ExampleInput(d0: seq<char>, d1: seq<char>, d2: seq<char>): seq<seq<char>>
  {
    [S1Line('7', '0', d0), S1Line('4', '4', d1), S1Line('4', '8', d2)]
  }

  /** Payload digits for the example: eight, two and two hex digits. */
  predicate ExampleData(d0: seq<char>, d1: seq<char>, d2: seq<char>)
  {
    && |d0| == 8 && (forall j :: 0 <= j < 8 ==> IsXDigit(d0[j]))
    && |d1| == 2 && (forall j :: 0 <= j < 2 ==> IsXDigit(d1[j]))
    && |d2| == 2 && (forall j :: 0 <= j < 2 ==> IsXDigit(d2[j]))
  }

  /** An S1 record with count digit c, the single-digit address a, the payload digits and checksum 00. */
  function S1Line(c: char, a: char, data: seq<char>): seq<char>
  {
    "S10" + [c] + "000" + [a] + data + "00"
  }

  /** An S1 record of n bytes `data` at the single-digit address a, with count digit c and checksum 00. */
  lemma ExampleLine(st: Settings, s: seq<char>, c: char, a: char, n: nat, data: seq<char>)
    requires s == S1Line(c, a, data)
    requires '0' <= c <= '9' && '0' <= a <= '9' && c as int - '0' as int == n + 3
    requires |data| == 2 * n && forall j :: 0 <= j < |data| ==> IsXDigit(data[j])
    ensures Convertible(st, s) && IsDataLine(s) && Final(st, s) == a as int - '0' as int + n
  {
    assert s[..8] == ['S', '1', '0', c, '0', '0', '0', a];
    assert forall j :: 8 <= j < 8 + 2 * n ==> s[j] == data[j - 8];
    ExampleDigits(s, c, a, n);
    ExampleRecord(st, s, n, a as int - '0' as int);
  }

  /** -f alone turns the full table on and indents the entries by eight spaces. */
  lemma FullSettings(opts: seq<Opt>)
    requires opts == [Full]
    ensures Configure(opts).full && Configure(opts).indent && Configure(opts).indentArg == 8
  {
    assert opts[..0] == [];
  }

  /** The count and address digits of an S1 record "S10c0000" with c and a single digits. */
  lemma ExampleDigits(s: seq<char>, c: char, a: char, n: nat)
    requires |s| >= 8 + 2 * n && s[..8] == ['S', '1', '0', c, '0', '0', '0', a]
    requires '0' <= c <= '9' && '0' <= a <= '9' && c as int - '0' as int == n + 3
    requires forall j :: 8 <= j < 8 + 2 * n ==> IsXDigit(s[j])
    ensures forall j :: 2 <= j < 8 + 2 * n ==> IsXDigit(s[j])
    ensures Pair(s, 2) == n + 3 && Pair(s, 4) == 0 && Pair(s, 6) == a as int - '0' as int
  {
    assert forall j :: 0 <= j < 8 ==> s[j] == s[..8][j];
  }

  /** An S1 record of n bytes at address a below 256, read through hex2 and hex4. */
  lemma ExampleRecord(st: Settings, s: seq<char>, n: nat, a: nat)
    requires |s| >= 8 + 2 * n && s[0] == 'S' && s[1] == '1'
    requires forall j :: 2 <= j < 8 + 2 * n ==> IsXDigit(s[j])
    requires Pair(s, 2) == n + 3 && Pair(s, 4) == 0 && Pair(s, 6) == a
    ensures Convertible(st, s) && IsDataLine(s) && Final(st, s) == a + n
  {
    var cs := s[4..8];
    assert cs[..2] == s[4..6] && cs[..2][..0] == [];
    assert Pair(cs, 2) == Pair(s, 6) && Pair(cs[..2], 0) == Pair(s, 4);
    assert Pairs(cs[..2]) == 256 * Pairs(cs[..2][..0]) + Pair(cs[..2], 0) == Pair(s, 4);
    assert Pairs(cs) == 256 * Pairs(cs[..2]) + Pair(cs, 2) == a;
    assert Field(s, 4, 2) == a;
  }

  /** s without its spaces. */
  function Unspaced(s: seq<char>): seq<char>
  {
    if s == [] then [] else Unspaced(s[..|s| - 1]) + (if s[|s| - 1] == ' ' then [] else [s[|s| - 1]])
  }

  lemma {:induction false} UnspacedAppend(x: seq<char>, y: seq<char>)
    ensures Unspaced(x + y) == Unspaced(x) + Unspaced(y)
    decreases |y|
  {
    if y != [] {
      var y' := y[..|y| - 1];
      assert (x + y)[..|x + y| - 1] == x + y';
      assert (x + y)[|x + y| - 1] == y[|y| - 1];
      UnspacedAppend(x, y');
    } else {
      assert x + y == x;
    }
  }

  lemma {:induction false} UnspacedSpaces(n: int)
    ensures Unspaced(Spaces(n)) == []
  {
    if n > 0 {
      UnspacedSpaces(n - 1);
    }
  }

  /** One line under either rule, from either doindent: the same text but for spaces, and the same diagnostics. */
  lemma ConvertSpacesOnly(st: Settings, r: Rule, d: bool, r': Rule, d': bool, n: nat, s: seq<char>)
    requires Convertible(st, s)
    ensures Unspaced(Convert(st, r, d, n, s).text) == Unspaced(Convert(st, r', d', n, s).text)
    ensures Convert(st, r, d, n, s).diags == Convert(st, r', d', n, s).diags
  {
    if IsDataLine(s) {
      ConvertData(st, r, d, n, s);
      ConvertData(st, r', d', n, s);
      var t := TypeOf(s);
      RecordSpacesOnly(st, d, d', Field(s, 4, AddressDigits(t) / 2), Payload(s, DataColumn(t), Pair(s, 2) - Overhead(t)));
    } else {
      OtherLine(st, r, d, n, s);
      OtherLine(st, r', d', n, s);
    }
  }

  /** A record from either doindent: the same text but for the lead's spaces. */
  lemma RecordSpacesOnly(st: Settings, d: bool, d': bool, a: nat, bs: seq<Byte>)
    ensures Unspaced(Record(st, d, a, bs)) == Unspaced(Record(st, d', a, bs))
  {
    var rest := Entries(st, a, bs) + Close(a + |bs|);
    assert Record(st, d, a, bs) == Lead(st, d) + rest;
    assert Record(st, d', a, bs) == Lead(st, d') + rest;
    LeadUnspaced(st, d, rest);
    LeadUnspaced(st, d', rest);
  }

  lemma LeadUnspaced(st: Settings, d: bool, rest: seq<char>)
    ensures Unspaced(Lead(st, d) + rest) == Unspaced(rest)
  {
    UnspacedAppend(Lead(st, d), rest);
    UnspacedSpaces(st.indentArg);
    assert Unspaced(Lead(st, d)) == [];
  }

  /**
   * The fault only moves spaces: the program's table has the corrected
   * table's entries and line breaks, and the same diagnostics.
   */
  lemma {:induction false} OnlySpacesDiffer(st: Settings, lines: seq<seq<char>>)
    requires forall k :: 0 <= k < |lines| ==> Convertible(st, lines[k])
    ensures Unspaced(Table(st, AsWritten, lines).text) == Unspaced(Table(st, Corrected, lines).text)
    ensures Table(st, AsWritten, lines).diags == Table(st, Corrected, lines).diags
  {
    if lines != [] {
      var p := lines[..|lines| - 1];
      var s := lines[|lines| - 1];
      assert forall k :: 0 <= k < |p| ==> p[k] == lines[k];
      OnlySpacesDiffer(st, p);
      var e, e' := Table(st, AsWritten, p), Table(st, Corrected, p);
      var c, c' := Convert(st, AsWritten, e.doindent, |lines|, s), Convert(st, Corrected, e'.doindent, |lines|, s);
      ConvertSpacesOnly(st, AsWritten, e.doindent, Corrected, e'.doindent, |lines|, s);
      UnspacedAppend(e.text, c.text);
      UnspacedAppend(e'.text, c'.text);
    }
  }

  // ----- hex2 .. hex8 on the line buffer -----

  /** hex2(buffer + at): upper-cases the two characters in place, then combines their values. */
  method Hex2(buffer: array<char>, at: nat) returns (val: int)
    requires at + 2 <= buffer.Length
    modifies buffer
    ensures val == Pair(old(buffer[..]), at)
    ensures buffer[..] == Upper(old(buffer[..]), at, at + 2)
  {
    buffer[at] := ToUpper(buffer[at]);
    buffer[at + 1] := ToUpper(buffer[at + 1]);
    var efkes := if buffer[at] >= 'A' then 'A' as int - 10 else '0' as int;
    val := buffer[at] as int - efkes;
    val := val * 16;
    efkes := if buffer[at + 1] >= 'A' then 'A' as int - 10 else '0' as int;
    val := val + buffer[at + 1] as int - efkes;
  }

  /** hex4(buffer + at): two hex2 calls, the first shifted up by 8 bits. */
  method Hex4(buffer: array<char>, at: nat) returns (val: int)
    requires at + 4 <= buffer.Length
    modifies buffer
    ensures val == Pairs(old(buffer[at..at + 4]))
    ensures buffer[..] == Upper(old(buffer[..]), at, at + 4)
  {
    ghost var s := buffer[..];
    var b0 := Hex2(buffer, at);
    var b1 := Hex2(buffer, at + 2);
    val := b0 * 0x100 + b1;
    UpperJoin(s, at, at + 2, at + 4);
    PairUpper(s, at, at + 2, at + 2);
    PairsSlice(s, at, 0);
    PairsSlice(s, at, 1);
  }

  /** hex6(buffer + at): three hex2 calls shifted by 16, 8 and 0 bits. */
  method Hex6(buffer: array<char>, at: nat) returns (val: int)
    requires at + 6 <= buffer.Length
    modifies buffer
    ensures val == Pairs(old(buffer[at..at + 6]))
    ensures buffer[..] == Upper(old(buffer[..]), at, at + 6)
  {
    ghost var s := buffer[..];
    var b0 := Hex2(buffer, at);
    var b1 := Hex2(buffer, at + 2);
    NextPair(s, at, 2, b1);
    var b2 := Hex2(buffer, at + 4);
    NextPair(s, at, 4, b2);
    val := b0 * 0x1_0000 + b1 * 0x100 + b2;
    PairsThree(s, at);
  }

  /** hex8(buffer + at): four hex2 calls shifted by 24, 16, 8 and 0 bits. */
  method Hex8(buffer: array<char>, at: nat) returns (val: int)
    requires at + 8 <= buffer.Length
    modifies buffer
    ensures val == Pairs(old(buffer[at..at + 8]))
    ensures buffer[..] == Upper(old(buffer[..]), at, at + 8)
  {
    ghost var s := buffer[..];
    var b0 := Hex2(buffer, at);
    var b1 := Hex2(buffer, at + 2);
    NextPair(s, at, 2, b1);
    var b2 := Hex2(buffer, at + 4);
    NextPair(s, at, 4, b2);
    var b3 := Hex2(buffer, at + 6);
    NextPair(s, at, 6, b3);
    val := b0 * 0x100_0000 + b1 * 0x1_0000 + b2 * 0x100 + b3;
    PairsFour(s, at);
  }

  /**
   * A hex2 call at at + k, after the calls before it upper-cased at .. at + k,
   * reads the original pair and extends the upper-cased range.
   */
  lemma NextPair(s: seq<char>, at: nat, k: nat, b: int)
    requires at + k + 2 <= |s|
    ensures Pair(Upper(s, at, at + k), at + k) == Pair(s, at + k)
    ensures Upper(Upper(s, at, at + k), at + k, at + k + 2) == Upper(s, at, at + k + 2)
  {
    PairUpper(s, at, at + k, at + k);
    UpperJoin(s, at, at + k, at + k + 2);
  }

  /** hex8's value: the four pairs shifted by 24, 16, 8 and 0 bits. */
  lemma PairsFour(s: seq<char>, at: nat)
    requires at + 8 <= |s|
    ensures Pairs(s[at..at + 8]) ==
      Pair(s, at) * 0x100_0000 + Pair(s, at + 2) * 0x1_0000 + Pair(s, at + 4) * 0x100 + Pair(s, at + 6)
  {
    PairsThree(s, at);
    PairsSlice(s, at, 3);
  }

  /** hex6's value: the three pairs shifted by 16, 8 and 0 bits. */
  lemma PairsThree(s: seq<char>, at: nat)
    requires at + 6 <= |s|
    ensures Pairs(s[at..at + 6]) == Pair(s, at) * 0x1_0000 + Pair(s, at + 2) * 0x100 + Pair(s, at + 4)
  {
    PairsSlice(s, at, 0);
    PairsSlice(s, at, 1);
    PairsSlice(s, at, 2);
  }

  /** Upper-casing two adjacent ranges upper-cases their union. */
  lemma UpperJoin(s: seq<char>, lo: nat, mid: nat, hi: nat)
    requires lo <= mid <= hi
    ensures Upper(Upper(s, lo, mid), mid, hi) == Upper(s, lo, hi)
  {
  }

  /** hex2 after an earlier upper-casing that ended at `at` sees the original characters. */
  lemma PairUpper(s: seq<char>, lo: nat, hi: nat, at: nat)
    requires hi <= at && at + 2 <= |s|
    ensures Pair(Upper(s, lo, hi), at) == Pair(s, at)
  {
  }

  /** One more pair of digits: the big-endian step of hex4, hex6 and hex8. */
  lemma PairsSlice(s: seq<char>, at: nat, k: nat)
    requires at + 2 * k + 2 <= |s|
    ensures Pairs(s[at..at]) == 0
    ensures Pairs(s[at..at + 2 * k + 2]) == 256 * Pairs(s[at..at + 2 * k]) + Pair(s, at + 2 * k)
  {
    var cs := s[at..at + 2 * k + 2];
    assert cs[..|cs| - 2] == s[at..at + 2 * k];
  }

  // ----- the main loop -----

  /** The state main keeps while it converts: the settings, fout, stderr, doindent and the line count. */
  class Converter {
    const st: Settings
    var out: seq<char>
    var err: seq<Diag>
    var doindent: bool
    var line: nat

    constructor (st: Settings)
      ensures this.st == st && out == [] && err == [] && doindent && line == 0
    {
      this.st := st;
      out := [];
      err := [];
      doindent := true;
      line := 0;
    }

    /** `indentarg` spaces to fout. */
    method Indent()
      modifies this
      ensures out == old(out) + Spaces(st.indentArg)
      ensures err == old(err) && doindent == old(doindent) && line == old(line)
    {
      var i := 0;
      while i < st.indentArg
        invariant 0 <= i <= (if st.indentArg > 0 then st.indentArg else 0)
        invariant out == old(out) + Spaces(i)
        invariant err == old(err) && doindent == old(doindent) && line == old(line)
        decreases st.indentArg - i
      {
        out := out + [' '];
        i := i + 1;
      }
      assert Spaces(st.indentArg) == Spaces(i);
    }

    /** One entry of the byte at `column + 2 * i`, then the break when the next address starts a word. */
    method PutEntry(buffer: array<char>, ghost s: seq<char>, column: nat, i: nat, address: nat)
      returns (next: nat)
      requires AllHex(s, column + 2 * i, column + 2 * i + 2)
      requires column + 2 * i + 2 <= buffer.Length
      requires buffer[column + 2 * i] == s[column + 2 * i] && buffer[column + 2 * i + 1] == s[column + 2 * i + 1]
      modifies this, buffer
      ensures next == address + 1
      ensures out == old(out) + Entry(address, ByteOf(s, column + 2 * i)) + Break(st, next)
      ensures buffer[..] == Upper(old(buffer[..]), column + 2 * i, column + 2 * i + 2)
      ensures err == old(err) && doindent == old(doindent) && line == old(line)
    {
      var byte := Hex2(buffer, column + 2 * i);
      PairIsHexNat(s, column + 2 * i);
      out := out + Entry(address, byte);
      next := address + 1;
      if next % 4 == 0 {
        out := out + "\n";
        if st.indent {
          Indent();
        }
      }
    }

    /** The entry loop of a data record: count bytes from `column`, addresses from `address` on. */
    method PutEntries(buffer: array<char>, ghost s: seq<char>, column: nat, count: nat, address: nat)
      returns (final: nat)
      requires AllHex(s, column, column + 2 * count)
      requires column + 2 * count <= buffer.Length
      requires forall j :: column <= j < column + 2 * count ==> buffer[j] == s[j]
      modifies this, buffer
      ensures final == address + count
      ensures out == old(out) + Entries(st, address, Payload(s, column, count))
      ensures err == old(err) && doindent == old(doindent) && line == old(line)
    {
      ghost var bs := Payload(s, column, count);
      ghost var o0 := out;
      final := address;
      var i := 0;
      while i < count
        invariant i <= count && final == address + i
        invariant forall j :: column + 2 * i <= j < column + 2 * count ==> buffer[j] == s[j]
        invariant out == o0 + Entries(st, address, bs[..i])
        invariant err == old(err) && doindent == old(doindent) && line == old(line)
      {
        final := NextEntry(buffer, s, column, count, address, i, o0);
        i := i + 1;
      }
      assert bs[..count] == bs;
    }

    /** One turn of the entry loop: the entry of byte i joins the entries before it. */
    method NextEntry(buffer: array<char>, ghost s: seq<char>, column: nat, count: nat, address: nat, i: nat,
                     ghost o0: seq<char>)
      returns (final: nat)
      requires i < count && AllHex(s, column, column + 2 * count)
      requires column + 2 * count <= buffer.Length
      requires forall j :: column + 2 * i <= j < column + 2 * count ==> buffer[j] == s[j]
      requires out == o0 + Entries(st, address, Payload(s, column, count)[..i])
      modifies this, buffer
      ensures final == address + i + 1
      ensures forall j :: column + 2 * (i + 1) <= j < column + 2 * count ==> buffer[j] == s[j]
      ensures out == o0 + Entries(st, address, Payload(s, column, count)[..i + 1])
      ensures err == old(err) && doindent == old(doindent) && line == old(line)
    {
      ghost var bs := Payload(s, column, count);
      ghost var before := buffer[..];
      final := PutEntry(buffer, s, column, i, address + i);
      forall j | column + 2 * (i + 1) <= j < column + 2 * count
        ensures buffer[j] == s[j]
      {
        assert buffer[j] == buffer[..][j] == before[j];
      }
      EntriesGrow(o0, st, address, bs, i, ByteOf(s, column + 2 * i));
    }

    /** An S1, S2 or S3 record: count, address, the margin if doindent, the entries, the closing newline. */
    method DataRecord(buffer: array<char>, ghost s: seq<char>)
      requires buffer.Length == LENGTH && |s| < LENGTH && buffer[..|s|] == s
      requires |s| >= 2 && s[0] == 'S' && IsData(s[1]) && Readable(s, Overhead(s[1]), DataColumn(s[1]))
      modifies this, buffer
      ensures out == old(out) + Record(st, old(doindent), Field(s, 4, AddressDigits(TypeOf(s)) / 2),
                                       Payload(s, DataColumn(TypeOf(s)), Pair(s, 2) - Overhead(TypeOf(s))))
      ensures doindent == DoindentAsWritten(old(doindent), Field(s, 4, AddressDigits(TypeOf(s)) / 2)
                                   + |Payload(s, DataColumn(TypeOf(s)), Pair(s, 2) - Overhead(TypeOf(s)))|)
      ensures err == old(err) && line == old(line)
    {
      assert TypeOf(s) == s[1];
      var count, address, column := ReadHeader(buffer, s);
      PutRecord(buffer, s, column, count, address);
    }

    /**
     * The margin if doindent, the entries, then the closing newline, or
     * doindent cleared when the record ends on a word boundary. After the
     * bare newline doindent keeps its value, as in the program.
     */
    method PutRecord(buffer: array<char>, ghost s: seq<char>, column: nat, count: nat, address: nat)
      requires AllHex(s, column, column + 2 * count)
      requires column + 2 * count <= buffer.Length
      requires forall j :: column <= j < column + 2 * count ==> buffer[j] == s[j]
      modifies this, buffer
      ensures out == old(out) + Record(st, old(doindent), address, Payload(s, column, count))
      ensures doindent == DoindentAsWritten(old(doindent), address + count)
      ensures err == old(err) && line == old(line)
    {
      ghost var o0 := out;
      if st.indent && doindent {
        Indent();
        doindent := true;
      }
      assert out == o0 + Lead(st, old(doindent));
      var final := PutEntries(buffer, s, column, count, address);
      if final % 4 != 0 {
        out := out + "\n";
      } else {
        doindent := false;
      }
      ghost var bs := Payload(s, column, count);
      Grow(o0, Lead(st, old(doindent)), Entries(st, address, bs), Close(final));
      RecordParts(st, old(doindent), address, bs);
    }

    /** hex2 of the count and hex4, hex6 or hex8 of the address, by record type. */
    method ReadHeader(buffer: array<char>, ghost s: seq<char>) returns (count: nat, address: nat, column: nat)
      requires buffer.Length == LENGTH && |s| < LENGTH && buffer[..|s|] == s
      requires |s| >= 2 && s[0] == 'S' && IsData(s[1]) && Readable(s, Overhead(s[1]), DataColumn(s[1]))
      modifies buffer
      ensures count == Pair(s, 2) - Overhead(s[1]) && column == DataColumn(s[1])
      ensures address == Field(s, 4, AddressDigits(s[1]) / 2)
      ensures forall j :: column <= j < |s| ==> buffer[j] == s[j]
    {
      var val := Hex2(buffer, 2);
      assert forall j :: 4 <= j < |s| ==> buffer[j] == s[j];
      LayoutTable(s[1]);
      var a: int;
      if buffer[1] == '1' {
        val := val - 3;
        assert buffer[4..8] == s[4..8];
        a := Hex4(buffer, 4);
        assert a == Field(s, 4, 2);
        column := 8;
      } else if buffer[1] == '2' {
        val := val - 4;
        assert buffer[4..10] == s[4..10];
        a := Hex6(buffer, 4);
        assert a == Field(s, 4, 3);
        column := 10;
      } else {
        val := val - 5;
        assert buffer[4..12] == s[4..12];
        a := Hex8(buffer, 4);
        assert a == Field(s, 4, 4);
        column := 12;
      }
      count, address := val, a;
    }

    /** An S0 record: hex2 of the count, and with -v the vendor text, one hex2 per character. */
    method Vendor(buffer: array<char>, ghost s: seq<char>)
      requires buffer.Length == LENGTH && |s| < LENGTH && buffer[..|s|] == s
      requires st.verbose ==> Readable(s, 3, 8)
      modifies this, buffer
      ensures err == old(err) + (if st.verbose then [VendorText(Text(Payload(s, 8, Pair(s, 2) - 3)))] else [])
      ensures out == old(out) && doindent == old(doindent) && line == old(line)
    {
      var val := Hex2(buffer, 2);
      val := val - 3;
      if st.verbose {
        assert buffer[..|s|][8..] == s[8..];
        var text := VendorChars(buffer, s, val);
        err := err + [VendorText(text)];
      }
    }

    /** The vendor text loop: `(char) hex2(buffer + 8 + i * 2)` for i below the count. */
    method VendorChars(buffer: array<char>, ghost s: seq<char>, count: int) returns (text: seq<char>)
      requires 0 <= count && AllHex(s, 8, 8 + 2 * count) && 8 + 2 * count <= buffer.Length
      requires forall j :: 8 <= j < 8 + 2 * count ==> buffer[j] == s[j]
      modifies buffer
      ensures text == Text(Payload(s, 8, count))
    {
      ghost var bs := Payload(s, 8, count);
      text := [];
      var i := 0;
      while i < count
        invariant 0 <= i <= count && |text| == i
        invariant forall k :: 0 <= k < i ==> text[k] == bs[k] as char
        invariant forall j :: 8 + 2 * i <= j < 8 + 2 * count ==> buffer[j] == s[j]
      {
        ghost var before := buffer[..];
        var c := Hex2(buffer, 8 + 2 * i);
        PairIsHexNat(s, 8 + 2 * i);
        assert forall j :: 8 + 2 * (i + 1) <= j < 8 + 2 * count ==> buffer[j] == before[j];
        text := text + [c as char];
        i := i + 1;
      }
    }

    /** One pass of the while loop: line++, then the test for `S` and the switch on buffer[1]. */
    method Handle(buffer: array<char>, ghost s: seq<char>)
      requires buffer.Length == LENGTH && |s| < LENGTH && buffer[..|s|] == s && buffer[|s|] == NUL
      requires Convertible(st, s)
      modifies this, buffer
      ensures line == old(line) + 1
      ensures out == old(out) + Convert(st, AsWritten, old(doindent), line, s).text
      ensures doindent == Convert(st, AsWritten, old(doindent), line, s).doindent
      ensures err == old(err) + Convert(st, AsWritten, old(doindent), line, s).diags
    {
      line := line + 1;
      if buffer[0] != 'S' {
        err := err + [NotSRecord(line)];
        return;
      }
      Switch(buffer, s);
    }

    /** `switch (buffer[1])` for a line that starts with `S`. */
    method Switch(buffer: array<char>, ghost s: seq<char>)
      requires buffer.Length == LENGTH && |s| < LENGTH && buffer[..|s|] == s && buffer[|s|] == NUL
      requires Convertible(st, s) && |s| >= 1 && s[0] == 'S'
      modifies this, buffer
      ensures line == old(line)
      ensures out == old(out) + Convert(st, AsWritten, old(doindent), line, s).text
      ensures doindent == Convert(st, AsWritten, old(doindent), line, s).doindent
      ensures err == old(err) + Convert(st, AsWritten, old(doindent), line, s).diags
    {
      assert TypeOf(s) == buffer[1];
      if !IsData(buffer[1]) {
        OtherLine(st, AsWritten, doindent, line, s);
      }
      match buffer[1]
      case '0' =>
        Vendor(buffer, s);
      case '1' | '2' | '3' =>
        ConvertData(st, AsWritten, doindent, line, s);
        DataRecord(buffer, s);
      case '4' =>
        if st.verbose {
          err := err + [Reserved];
        }
      case '5' | '6' =>
        if st.verbose {
          err := err + [CountSkipped];
        }
      case '7' | '8' | '9' =>
        if st.verbose {
          err := err + [Termination];
        }
      case _ =>
        if st.verbose {
          err := err + [Invalid(line)];
        }
    }

    /**
     * main from the header on: with -f the package header, then every line
     * through fgets and the switch, then with -f the footer, indented if
     * doindent is still set.
     */
    method Run(name: seq<char>, lines: seq<seq<char>>)
      requires doindent && line == 0
      requires forall k :: 0 <= k < |lines| ==> |lines[k]| < LENGTH && Convertible(st, lines[k])
      modifies this
      ensures out == old(out) + Document(st, AsWritten, name, lines)
      ensures err == old(err) + Table(st, AsWritten, lines).diags
    {
      var buffer := new char[LENGTH];
      if st.full {
        out := out + Header(name);
      }
      ghost var o0, e0 := out, err;
      var i := 0;
      while i < |lines|
        invariant i <= |lines| && line == i
        invariant out == o0 + Table(st, AsWritten, lines[..i]).text && doindent == Table(st, AsWritten, lines[..i]).doindent
        invariant err == e0 + Table(st, AsWritten, lines[..i]).diags
      {
        NextLine(buffer, lines, i, o0, e0);
        i := i + 1;
      }
      assert lines[..|lines|] == lines;
      ghost var e := Table(st, AsWritten, lines);
      Finish();
      ghost var hd := if st.full then Header(name) else [];
      ghost var ft := if st.full then Footer(st, e.doindent) else [];
      assert Document(st, AsWritten, name, lines) == hd + e.text + ft;
      Grow(old(out), hd, e.text, ft);
    }

    /** With -f: the margin if doindent is set, then the `others` entry and the end of the package. */
    method Finish()
      modifies this
      ensures out == old(out) + (if st.full then Footer(st, doindent) else [])
      ensures err == old(err) && doindent == old(doindent) && line == old(line)
    {
      if st.full {
        ghost var o := out;
        if doindent {
          Indent();
        }
        ghost var m := if doindent then Spaces(st.indentArg) else [];
        assert out == o + m;
        out := out + TAIL;
        Assoc(o, m, TAIL);
      }
    }

    /** One turn of main's while loop: fgets into the buffer, then the line's effect joins the table. */
    method NextLine(buffer: array<char>, lines: seq<seq<char>>, i: nat, ghost o0: seq<char>, ghost e0: seq<Diag>)
      requires buffer.Length == LENGTH && i < |lines|
      requires forall k :: 0 <= k < |lines| ==> |lines[k]| < LENGTH && Convertible(st, lines[k])
      requires line == i
      requires out == o0 + Table(st, AsWritten, lines[..i]).text && doindent == Table(st, AsWritten, lines[..i]).doindent
      requires err == e0 + Table(st, AsWritten, lines[..i]).diags
      modifies this, buffer
      ensures line == i + 1
      ensures out == o0 + Table(st, AsWritten, lines[..i + 1]).text && doindent == Table(st, AsWritten, lines[..i + 1]).doindent
      ensures err == e0 + Table(st, AsWritten, lines[..i + 1]).diags
    {
      ghost var e := Table(st, AsWritten, lines[..i]);
      Fetch(buffer, lines[i]);
      Handle(buffer, lines[i]);
      TableSnoc(st, AsWritten, lines, i);
      ghost var c := Convert(st, AsWritten, e.doindent, i + 1, lines[i]);
      Assoc(o0, e.text, c.text);
      AssocDiags(e0, e.diags, c.diags);
    }
  }

  /** fgets: the line, then the NUL; what lies beyond is left from earlier lines. */
  method Fetch(buffer: array<char>, s: seq<char>)
    requires |s| < buffer.Length
    modifies buffer
    ensures buffer[..|s|] == s && buffer[|s|] == NUL
    ensures buffer[|s| + 1..] == old(buffer[|s| + 1..])
  {
    var j := 0;
    while j < |s|
      invariant j <= |s| && buffer[..j] == s[..j]
      invariant buffer[|s|..] == old(buffer[|s|..])
    {
      buffer[j] := s[j];
      j := j + 1;
    }
    buffer[|s|] := NUL;
  }

  /** The table over one more line. */
  lemma TableSnoc(st: Settings, r: Rule, lines: seq<seq<char>>, i: nat)
    requires i < |lines| && forall k :: 0 <= k < |lines| ==> Convertible(st, lines[k])
    ensures Table(st, r, lines[..i + 1]).text
         == Table(st, r, lines[..i]).text + Convert(st, r, Table(st, r, lines[..i]).doindent, i + 1, lines[i]).text
    ensures Table(st, r, lines[..i + 1]).doindent == Convert(st, r, Table(st, r, lines[..i]).doindent, i + 1, lines[i]).doindent
    ensures Table(st, r, lines[..i + 1]).diags
         == Table(st, r, lines[..i]).diags + Convert(st, r, Table(st, r, lines[..i]).doindent, i + 1, lines[i]).diags
  {
    assert lines[..i + 1][..i] == lines[..i];
  }

  lemma AssocDiags(x: seq<Diag>, y: seq<Diag>, z: seq<Diag>)
    ensures x + (y + z) == x + y + z
  {
  }

  /** A record is its lead, its entries and its close. */
  lemma RecordParts(st: Settings, d: bool, a: nat, bs: seq<Byte>)
    ensures Record(st, d, a, bs) == Lead(st, d) + Entries(st, a, bs) + Close(a + |bs|)
  {
  }

  lemma Grow(x: seq<char>, y: seq<char>, z: seq<char>, w: seq<char>)
    ensures x + y + z + w == x + (y + z + w)
  {
  }

  /** What was written, then the entries so far, then one more entry and its break. */
  lemma EntriesGrow(o: seq<char>, st: Settings, a: nat, bs: seq<Byte>, i: nat, b: Byte)
    requires i < |bs| && bs[i] == b
    ensures o + Entries(st, a, bs[..i]) + Entry(a + i, b) + Break(st, a + i + 1) == o + Entries(st, a, bs[..i + 1])
  {
    EntriesSnoc(st, a, bs, i);
    Grow(o, Entries(st, a, bs[..i]), Entry(a + i, b), Break(st, a + i + 1));
  }

  /** Entries grow by one entry and its break per byte. */
  lemma EntriesSnoc(st: Settings, a: nat, bs: seq<Byte>, i: nat)
    requires i < |bs|
    ensures Entries(st, a, bs[..i + 1]) == Entries(st, a, bs[..i]) + Entry(a + i, bs[i]) + Break(st, a + i + 1)
  {
    assert bs[..i + 1][..i] == bs[..i];
  }
}
