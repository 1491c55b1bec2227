/**
 * What the bootloader's upload session (CODE/bootloader/bootloader.c,
 * lines 73-159) does with the characters the host sends, as functions of
 * the whole input: how one S-record is decoded, what it does to memory and
 * to the application's start address, and how the session ends.
 */
module Upload {
  import opened Wrappers
  import opened Ctype
  import opened Word
  import opened SRecord
  import opened HexCodec
  import opened Memory

  /** What one record asks of the bootloader. */
  datatype Record =
    | Data(start: Ulong, payload: seq<Byte>)
    | Entry(address: Ulong)
    | Other

  /** How an upload session ends. */
  datatype End =
    | Finished   // '#': back to the monitor
    | Jumped     // 'J': the application is started
    | Starved    // the input ran out: the firmware waits for ever

  datatype Session = Session(end: End, mem: Mem, appStart: Ulong, acks: nat, pos: nat)

  /** gethex(n) over s[i..i + n]. */
  function HexAt(s: seq<char>, i: nat, n: nat): (v: Ulong)
    requires i + n <= |s|
  {
    Wrap(HexNat(s[i..i + n]))
  }

  /** gethex(2): a payload byte. */
  function ByteAt2(s: seq<char>, i: nat): Byte
    requires i + 2 <= |s|
  {
    assert HexNat(s[i..i + 2]) < 256 by { assert Pow16(2) == 256; }
    HexNat(s[i..i + 2])
  }

  /** The count digits less the overhead, as unsigned long arithmetic computes it. */
  function PayloadCount(s: seq<char>, t: char, q: nat): Ulong
    requires q + 2 <= |s|
  {
    Wrap(HexAt(s, q, 2) - Overhead(t))
  }

  /** The n bytes whose digit pairs start at d. */
  function Payload(s: seq<char>, d: nat, n: nat): (bs: seq<Byte>)
    requires d + 2 * n <= |s|
    ensures |bs| == n
    ensures forall i :: 0 <= i < n ==> bs[i] == ByteAt2(s, d + 2 * i)
  {
    seq(n, i requires 0 <= i < n => ByteAt2(s, d + 2 * i))
  }

  /**
   * `while ((c = usart_getc()) != '\n');`: the position just past the first
   * newline at or after i, or None when there is none.
   */
  function LineEnd(s: seq<char>, i: nat): (r: Option<nat>)
    requires i <= |s|
    ensures r.Some? ==> i < r.value <= |s| && s[r.value - 1] == '\n'
    ensures r.Some? ==> forall k :: i <= k < r.value - 1 ==> s[k] != '\n'
    ensures r.None? ==> forall k :: i <= k < |s| ==> s[k] != '\n'
    decreases |s| - i
  {
    if i == |s| then None else if s[i] == '\n' then Some(i + 1) else LineEnd(s, i + 1)
  }

  /**
   * An S1/S2/S3 record whose count starts at q: the count less the overhead,
   * in unsigned long arithmetic, is the number of payload bytes; the address
   * has AddressDigits(t) digits; then the rest of the line (checksum
   * included) is skipped.
   */
  function DataRecord(s: seq<char>, t: char, q: nat): (r: Option<(Record, nat)>)
    requires IsData(t)
    ensures r.Some? ==> r.value.0.Data? && q < r.value.1 <= |s|
  {
    var d := q + 2 + AddressDigits(t);
    if d > |s| then None
    else
      var count := PayloadCount(s, t, q);
      if d + 2 * count > |s| then None
      else
        match LineEnd(s, d + 2 * count)
        case None => None
        case Some(e) => Some((Data(HexAt(s, q + 2, AddressDigits(t)), Payload(s, d, count)), e))
  }

  /**
   * The three ways a data record can end: the header or the payload runs
   * past the input, or the rest of the line decides.
   */
  lemma DataRecordSteps(s: seq<char>, t: char, q: nat)
    requires IsData(t)
    ensures var d := q + 2 + AddressDigits(t);
      && (d > |s| ==> DataRecord(s, t, q).None?)
      && (d <= |s| && d + 2 * PayloadCount(s, t, q) > |s| ==> DataRecord(s, t, q).None?)
      && (d <= |s| && d + 2 * PayloadCount(s, t, q) <= |s| ==> DataRecordLine(s, t, q))
  {
    var d := q + 2 + AddressDigits(t);
    if d <= |s| && d + 2 * PayloadCount(s, t, q) <= |s| {
      DataRecordEnd(s, t, q);
    }
  }

  /** A data record whose payload is in the input is decided by the rest of its line. */
  predicate DataRecordLine(s: seq<char>, t: char, q: nat)
    requires IsData(t) && q + 2 + AddressDigits(t) <= |s|
    requires q + 2 + AddressDigits(t) + 2 * PayloadCount(s, t, q) <= |s|
  {
    var d := q + 2 + AddressDigits(t);
    var count := PayloadCount(s, t, q);
    var e := LineEnd(s, d + 2 * count);
    && DataRecord(s, t, q).Some? == e.Some?
    && (e.Some? ==> DataRecord(s, t, q).value == (Data(HexAt(s, q + 2, AddressDigits(t)), Payload(s, d, count)), e.value))
  }

  /** A data record whose payload and newline are in the input. */
  lemma DataRecordIs(s: seq<char>, t: char, q: nat, d: nat, count: nat)
    requires IsData(t) && d == q + 2 + AddressDigits(t) <= |s|
    requires count == PayloadCount(s, t, q) && d + 2 * count <= |s|
    requires LineEnd(s, d + 2 * count).Some?
    ensures DataRecord(s, t, q) ==
      Some((Data(HexAt(s, q + 2, AddressDigits(t)), Payload(s, d, count)), LineEnd(s, d + 2 * count).value))
  {
    DataRecordEnd(s, t, q);
  }

  lemma DataRecordEnd(s: seq<char>, t: char, q: nat)
    requires IsData(t) && q + 2 + AddressDigits(t) <= |s|
    requires q + 2 + AddressDigits(t) + 2 * PayloadCount(s, t, q) <= |s|
    ensures DataRecordLine(s, t, q)
  {
  }

  /**
   * An S7/S8/S9 record whose count starts at q: the count is read and
   * dropped, the address has AddressDigits(t) digits, the rest of the line
   * is skipped.
   */
  function TerminationRecord(s: seq<char>, t: char, q: nat): (r: Option<(Record, nat)>)
    requires IsTermination(t)
    ensures r.Some? ==> r.value.0.Entry? && q < r.value.1 <= |s|
  {
    var w := AddressDigits(t);
    if q + 2 + w > |s| then None
    else
      match LineEnd(s, q + 2 + w)
      case None => None
      case Some(e) => Some((Entry(HexAt(s, q + 2, w)), e))
  }

  /**
   * The record whose type digit is at p (just after the `S`), and the
   * position after its line; None when the input runs out first.
   */
  function DecodeRecord(s: seq<char>, p: nat): (r: Option<(Record, nat)>)
    ensures r.Some? ==> p < r.value.1 <= |s|
  {
    if p >= |s| then None
    else if IsData(s[p]) then DataRecord(s, s[p], p + 1)
    else if IsTermination(s[p]) then TerminationRecord(s, s[p], p + 1)
    else
      match LineEnd(s, p + 1)
      case None => None
      case Some(e) => Some((Other, e))
  }

  /** Which decoder the record type at p selects. */
  lemma DecodeCases(s: seq<char>, p: nat)
    requires p < |s|
    ensures IsData(s[p]) ==> DecodeRecord(s, p) == DataRecord(s, s[p], p + 1)
    ensures IsTermination(s[p]) ==> DecodeRecord(s, p) == TerminationRecord(s, s[p], p + 1)
    ensures !IsData(s[p]) && !IsTermination(s[p]) && LineEnd(s, p + 1).None? ==> DecodeRecord(s, p).None?
    ensures !IsData(s[p]) && !IsTermination(s[p]) && LineEnd(s, p + 1).Some? ==>
      DecodeRecord(s, p) == Some((Other, LineEnd(s, p + 1).value))
  {
  }

  /** The effect of a record on memory and on app_start. */
  function Apply(r: Record, m: Mem, app: Ulong): (Mem, Ulong)
  {
    match r
    case Data(start, payload) => (PatchBytes(m, start, payload), app)
    case Entry(a) => (m, a)
    case Other => (m, app)
  }

  /**
   * The upload loop from position p on, with acks `?\n` answers sent so
   * far: `S` decodes and applies a record, `J` starts the application, `#`
   * ends the session; everything but `J` and `#` is answered.
   */
  function Run(s: seq<char>, p: nat, m: Mem, app: Ulong, acks: nat): Session
    decreases |s| - p
  {
    if p >= |s| then Session(Starved, m, app, acks, p)
    else if s[p] == 'S' then
      match DecodeRecord(s, p + 1)
      case None => Session(Starved, m, app, acks, p)
      case Some((r, e)) =>
        var (m', app') := Apply(r, m, app);
        Run(s, e, m', app', acks + 1)
    else if s[p] == 'J' then Session(Jumped, m, app, acks, p + 1)
    else if s[p] == '#' then Session(Finished, m, app, acks, p + 1)
    else Run(s, p + 1, m, app, acks + 1)
  }

  /** The answers sent during a session: `?\n` once per record or stray character. */
  function Acks(n: nat): (r: seq<char>)
    ensures |r| == 2 * n
    ensures forall k :: 0 <= k < n ==> r[2 * k] == '?' && r[2 * k + 1] == '\n'
  {
    if n == 0 then [] else Acks(n - 1) + "?\n"
  }

  // ---------------------------------------------------------------------
  // Properties of the session
  // ---------------------------------------------------------------------

  /** For at most eight digits, gethex(n) loses nothing to the 32-bit wrap. */
  lemma HexAtExact(s: seq<char>, i: nat, n: nat)
    requires i + n <= |s| && n <= 8
    ensures HexAt(s, i, n) == HexNat(s[i..i + n]) < Pow16(n)
  {
    FoldBound(s[i..i + n]);
    FoldIsHexNat(s[i..i + n]);
  }

  /**
   * A data record carries count - 3, count - 4 or count - 5 payload bytes
   * for S1, S2, S3 (when the count is not below the overhead), its address
   * is below 2^16, 2^24 or 2^32, and its line ends with a newline.
   */
  lemma DataRecordHeader(s: seq<char>, t: char, q: nat)
    requires IsData(t) && DataRecord(s, t, q).Some?
    ensures var (r, e) := DataRecord(s, t, q).value;
      var count := HexNat(s[q..q + 2]);
      && r.Data?
      && (count >= Overhead(t) ==> |r.payload| == count - Overhead(t))
      && r.start == HexNat(s[q + 2..q + 2 + AddressDigits(t)]) < Pow16(AddressDigits(t))
      && s[e - 1] == '\n'
  {
    HexAtExact(s, q, 2);
    HexAtExact(s, q + 2, AddressDigits(t));
  }

  /**
   * Applying a data record writes payload byte i at start + i (wrapping at
   * 2^32) and leaves every other byte as it was.
   */
  lemma DataRecordWrites(m: Mem, app: Ulong, start: Ulong, payload: seq<Byte>, x: Ulong)
    requires |payload| < SPAN
    ensures var (m', app') := Apply(Data(start, payload), m, app);
      && app' == app
      && (Offset(start, x) < |payload| ==> ReadByte(m', x) == payload[Offset(start, x)])
      && (Offset(start, x) >= |payload| ==> ReadByte(m', x) == ReadByte(m, x))
  {
    PatchBytesRead(m, start, payload, x);
  }

  /**
   * Records other than S1-S3 and S7-S9 only consume their line: memory and
   * app_start stay as they were.
   */
  lemma OtherRecordsInert(s: seq<char>, p: nat, m: Mem, app: Ulong)
    requires p < |s| && !IsData(s[p]) && !IsTermination(s[p])
    ensures DecodeRecord(s, p).Some? <==> LineEnd(s, p + 1).Some?
    ensures DecodeRecord(s, p).Some? ==>
      DecodeRecord(s, p).value == (Other, LineEnd(s, p + 1).value) &&
      Apply(Other, m, app) == (m, app)
  {
  }

  /**
   * The checksum is never validated: changing any character of a record's
   * line after its payload (other than the newline) decodes to the same
   * record and line end.
   */
  lemma {:induction false} ChecksumIgnored(s: seq<char>, t: char, q: nat, k: nat, c: char)
    requires IsData(t) && DataRecord(s, t, q).Some?
    requires q + 2 + AddressDigits(t) + 2 * PayloadCount(s, t, q) <= k < DataRecord(s, t, q).value.1 - 1
    requires c != '\n'
    ensures DataRecord(s[k := c], t, q) == DataRecord(s, t, q)
  {
    var s' := s[k := c];
    var d := q + 2 + AddressDigits(t);
    DataRecordSteps(s, t, q);
    assert forall j :: 0 <= j < |s| && j != k ==> s'[j] == s[j];
    DataRecordAgrees(s, s', t, q, k);
  }

  /**
   * Two inputs that differ at one non-newline character between the end of
   * a data record's payload and its newline decode alike.
   */
  lemma DataRecordAgrees(s: seq<char>, s': seq<char>, t: char, q: nat, k: nat)
    requires IsData(t) && q + 2 + AddressDigits(t) <= |s|
    requires var d := q + 2 + AddressDigits(t) + 2 * PayloadCount(s, t, q);
      d <= k < |s| && LineEnd(s, d).Some? && k < LineEnd(s, d).value - 1
    requires |s'| == |s| && s'[k] != '\n'
    requires forall j :: 0 <= j < |s| && j != k ==> s'[j] == s[j]
    ensures DataRecord(s', t, q) == DataRecord(s, t, q)
  {
    var d := q + 2 + AddressDigits(t);
    var count := PayloadCount(s, t, q);
    HeaderAgrees(s, s', t, q, k);
    PayloadAgrees(s, s', d, count, k);
    LineEndSkips(s, s', d + 2 * count, k);
    DataRecordParts(s, s', t, q, d, count);
  }

  /** Data records whose count, address, payload and line end agree are equal. */
  lemma DataRecordParts(s: seq<char>, s': seq<char>, t: char, q: nat, d: nat, count: nat)
    requires IsData(t) && q + 2 + AddressDigits(t) <= |s| && q + 2 + AddressDigits(t) <= |s'|
    requires PayloadCount(s', t, q) == PayloadCount(s, t, q)
    requires d == q + 2 + AddressDigits(t) && count == PayloadCount(s, t, q)
    requires d + 2 * count <= |s| && d + 2 * count <= |s'|
    requires LineEnd(s, d + 2 * count).Some?
    requires LineEnd(s', d + 2 * count) == LineEnd(s, d + 2 * count)
    requires HexAt(s', q + 2, AddressDigits(t)) == HexAt(s, q + 2, AddressDigits(t))
    requires Payload(s', d, count) == Payload(s, d, count)
    ensures DataRecord(s', t, q) == DataRecord(s, t, q)
  {
    DataRecordIs(s, t, q, d, count);
    DataRecordIs(s', t, q, d, count);
  }

  lemma HeaderAgrees(s: seq<char>, s': seq<char>, t: char, q: nat, k: nat)
    requires q + 2 + AddressDigits(t) <= k <= |s| == |s'|
    requires forall j :: 0 <= j < k ==> s'[j] == s[j]
    ensures PayloadCount(s', t, q) == PayloadCount(s, t, q)
    ensures HexAt(s', q + 2, AddressDigits(t)) == HexAt(s, q + 2, AddressDigits(t))
  {
    assert s'[q..q + 2] == s[q..q + 2];
    assert s'[q + 2..q + 2 + AddressDigits(t)] == s[q + 2..q + 2 + AddressDigits(t)];
  }

  lemma PayloadAgrees(s: seq<char>, s': seq<char>, d: nat, n: nat, k: nat)
    requires d + 2 * n <= k <= |s| == |s'|
    requires forall j :: 0 <= j < k ==> s'[j] == s[j]
    ensures Payload(s', d, n) == Payload(s, d, n)
  {
    forall i | 0 <= i < n
      ensures ByteAt2(s', d + 2 * i) == ByteAt2(s, d + 2 * i)
    {
      assert s'[d + 2 * i..d + 2 * i + 2] == s[d + 2 * i..d + 2 * i + 2];
    }
  }

  /**
   * A session ends on `#` or `J` only right after reading that character,
   * and it never takes back an answer it sent.
   */
  lemma {:induction false} RunEnds(s: seq<char>, p: nat, m: Mem, app: Ulong, acks: nat)
    ensures var r := Run(s, p, m, app, acks);
      && r.acks >= acks
      && (r.end == Finished ==> p < r.pos <= |s| && s[r.pos - 1] == '#')
      && (r.end == Jumped ==> p < r.pos <= |s| && s[r.pos - 1] == 'J')
    decreases |s| - p
  {
    if p < |s| {
      if s[p] == 'S' {
        match DecodeRecord(s, p + 1)
        case None =>
        case Some((r, e)) =>
          var (m', app') := Apply(r, m, app);
          RunEnds(s, e, m', app', acks + 1);
      } else if s[p] != 'J' && s[p] != '#' {
        RunEnds(s, p + 1, m, app, acks + 1);
      }
    }
  }

  /**
   * Without an `S`, nothing is written and app_start keeps its value: stray
   * characters are only answered.
   */
  lemma {:induction false} StrayCharactersInert(s: seq<char>, p: nat, m: Mem, app: Ulong, acks: nat)
    requires forall k :: p <= k < |s| ==> s[k] != 'S'
    ensures Run(s, p, m, app, acks).mem == m
    ensures Run(s, p, m, app, acks).appStart == app
    decreases |s| - p
  {
    if p < |s| && s[p] != 'J' && s[p] != '#' {
      StrayCharactersInert(s, p + 1, m, app, acks + 1);
    }
  }

  /**
   * The characters of "S1071000AABBCCDD00\n#": one S1 record carrying
   * AA BB CC DD for address 0x1000 (checksum 00), then `#`.
   */
  predicate IsExample(s: seq<char>)
  {
    && |s| == 20 && s[0] == 'S' && s[1] == '1' && s[2] == '0' && s[3] == '7'
    && s[4] == '1' && s[5] == '0' && s[6] == '0' && s[7] == '0'
    && s[8] == 'A' && s[9] == 'A' && s[10] == 'B' && s[11] == 'B'
    && s[12] == 'C' && s[13] == 'C' && s[14] == 'D' && s[15] == 'D'
    && s[16] == '0' && s[17] == '0' && s[18] == '\n' && s[19] == '#'
  }

  /**
   * An upload of that record followed by `#`: the four bytes land at
   * 0x1000 .. 0x1003, one answer is sent and the session returns to the
   * monitor just past the `#`.
   */
  lemma OneRecordSession(s: seq<char>, m: Mem, app: Ulong)
    requires IsExample(s)
    ensures Run(s, 0, m, app, 0) ==
      Session(Finished, PatchBytes(m, 0x1000, [0xAA, 0xBB, 0xCC, 0xDD]), app, 1, 20)
  {
    var m' := PatchBytes(m, 0x1000, [0xAA, 0xBB, 0xCC, 0xDD]);
    assert Run(s, 0, m, app, 0) == Run(s, 19, m', app, 1) by {
      ExampleDecode(s);
    }
  }

  lemma ExampleDecode(s: seq<char>)
    requires IsExample(s)
    ensures DecodeRecord(s, 1) == Some((Data(0x1000, [0xAA, 0xBB, 0xCC, 0xDD]), 19))
  {
    ExampleRecord(s);
  }

  lemma ExampleRecord(s: seq<char>)
    requires IsExample(s)
    ensures DataRecord(s, '1', 2) == Some((Data(0x1000, [0xAA, 0xBB, 0xCC, 0xDD]), 19))
  {
    ExampleHeader(s);
    ExamplePayload(s);
    assert LineEnd(s, 16) == Some(19);
  }

  lemma ExampleHeader(s: seq<char>)
    requires IsExample(s)
    ensures PayloadCount(s, '1', 2) == 4
    ensures HexAt(s, 4, 4) == 0x1000
  {
    HexPairAt(s, 2);
    HexPairAt(s, 4);
    HexPairAt(s, 6);
    assert s[4..8] == s[4..6] + s[6..8];
    HexNatAppend(s[4..6], s[6..8]);
  }

  lemma ExamplePayload(s: seq<char>)
    requires IsExample(s)
    ensures Payload(s, 8, 4) == [0xAA, 0xBB, 0xCC, 0xDD]
  {
    HexPairAt(s, 8);
    HexPairAt(s, 10);
    HexPairAt(s, 12);
    HexPairAt(s, 14);
  }

  lemma HexPair(a: char, b: char)
    ensures HexNat([a, b]) == 16 * DigitValue(a) + DigitValue(b)
  {
    assert [a, b][..1] == [a];
    assert [a][..0] == [];
  }

  lemma HexPairAt(s: seq<char>, i: nat)
    requires i + 2 <= |s|
    ensures HexNat(s[i..i + 2]) == 16 * DigitValue(s[i]) + DigitValue(s[i + 1])
  {
    assert s[i..i + 2] == [s[i], s[i + 1]];
    HexPair(s[i], s[i + 1]);
  }

  lemma {:induction false} LineEndSkips(s: seq<char>, s': seq<char>, i: nat, k: nat)
    requires i <= k < |s| == |s'|
    requires LineEnd(s, i).Some? && k < LineEnd(s, i).value - 1
    requires forall j :: 0 <= j < |s| && j != k ==> s'[j] == s[j]
    requires s'[k] != '\n'
    ensures LineEnd(s', i) == LineEnd(s, i)
    decreases |s| - i
  {
    if s[i] != '\n' {
      if i + 1 <= k {
        LineEndSkips(s, s', i + 1, k);
      } else {
        LineEndSame(s, s', i + 1);
      }
    }
  }

  lemma {:induction false} LineEndSame(s: seq<char>, s': seq<char>, i: nat)
    requires i <= |s| == |s'|
    requires forall j :: i <= j < |s| ==> s'[j] == s[j]
    ensures LineEnd(s', i) == LineEnd(s, i)
    decreases |s| - i
  {
    if i < |s| {
      LineEndSame(s, s', i + 1);
    }
  }
}
