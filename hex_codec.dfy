/**
 * The hexadecimal codec of the bootloader (CODE/bootloader/util.c):
 * parsehex reads a number out of a line buffer, printhex sends a fixed number
 * of lowercase digits, gethex reads a fixed number of characters straight
 * from the serial stream. Values are the target's 32-bit unsigned long.
 */
module HexCodec {
  import opened Ctype
  import opened Word
  import Serial

  /**
   * The accumulator of parsehex and gethex after `v <<= 4; v |= digit` for
   * every character of cs, starting from 0. On a 32-bit unsigned long the
   * shift is a multiplication by 16 modulo 2^32, and or-ing a nibble into
   * the low nibble the shift has just cleared adds it.
   */
  function Fold(cs: seq<char>): Ulong
  {
    if cs == [] then 0 else Step(Fold(cs[..|cs| - 1]), cs[|cs| - 1])
  }

  function Step(v: Ulong, c: char): Ulong
  {
    Wrap(v * 16 + DigitValue(c))
  }

  /** Appending a character is one more accumulation step. */
  lemma FoldAppend(s: seq<char>, c: char)
    ensures Fold(s + [c]) == Step(Fold(s), c)
  {
    assert (s + [c])[..|s|] == s;
  }

  /** One more character is one more accumulation step. */
  lemma FoldSnoc(s: seq<char>, i: nat, j: nat)
    requires i <= j < |s|
    ensures Fold(s[i..j + 1]) == Step(Fold(s[i..j]), s[j])
  {
    assert s[i..j + 1][..j - i] == s[i..j];
  }

  /**
   * The 32-bit accumulator is the unbounded big-endian value of the digits,
   * reduced modulo 2^32: nothing but the overflow is lost.
   */
  lemma {:induction false} FoldIsHexNat(cs: seq<char>)
    ensures Fold(cs) == Wrap(HexNat(cs))
  {
    if cs != [] {
      var p := cs[..|cs| - 1];
      var x, d := HexNat(p), DigitValue(cs[|cs| - 1]);
      FoldIsHexNat(p);
      assert x == (x / SPAN) * SPAN + Wrap(x);
      assert x * 16 + d == (x / SPAN * 16) * SPAN + (Wrap(x) * 16 + d);
      WrapMultiple(x / SPAN * 16, Wrap(x) * 16 + d);
    }
  }

  lemma Pow16Eight()
    ensures Pow16(8) == SPAN
  {
    assert Pow16(4) == 0x1_0000;
  }

  lemma {:induction false} Pow16Mono(i: nat, j: nat)
    requires i <= j
    ensures Pow16(i) <= Pow16(j)
    decreases j
  {
    if i < j {
      Pow16Mono(i, j - 1);
    }
  }

  /**
   * Only the last eight digits reach the result: every earlier digit has
   * been shifted out of the 32-bit accumulator.
   */
  lemma FoldLastEight(a: seq<char>, b: seq<char>)
    requires |b| == 8
    ensures Fold(a + b) == HexNat(b) == Fold(b)
  {
    var x, y := HexNat(a), HexNat(b);
    Pow16Eight();
    HexNatAppend(a, b);
    FoldIsHexNat(a + b);
    WrapMultiple(x, y);
    FoldIsHexNat(b);
  }

  /** At most eight digits fit: the fold is their exact value, below 16^n. */
  lemma FoldBound(cs: seq<char>)
    requires |cs| <= 8
    ensures Fold(cs) == HexNat(cs) < Pow16(|cs|)
  {
    FoldIsHexNat(cs);
    Pow16Mono(|cs|, 8);
    Pow16Eight();
  }

  /** The first index at or after i that does not hold white space. */
  function SpaceEnd(s: seq<char>, i: nat): (j: nat)
    requires i <= |s|
    ensures i <= j <= |s|
    ensures forall k :: i <= k < j ==> IsSpace(s[k])
    ensures j < |s| ==> !IsSpace(s[j])
    decreases |s| - i
  {
    if i < |s| && IsSpace(s[i]) then SpaceEnd(s, i + 1) else i
  }

  /** The first index at or after i that does not hold a hexadecimal digit. */
  function DigitsEnd(s: seq<char>, i: nat): (j: nat)
    requires i <= |s|
    ensures i <= j <= |s|
    ensures forall k :: i <= k < j ==> IsXDigit(s[k])
    ensures j < |s| ==> !IsXDigit(s[j])
    decreases |s| - i
  {
    if i < |s| && IsXDigit(s[i]) then DigitsEnd(s, i + 1) else i
  }

  /**
   * parsehex(s + from, &stop): skip white space, then accumulate every
   * following hexadecimal digit, in either case, and stop at the first
   * character that is not one (the end of s plays the terminating NUL).
   * The result is the digits' value modulo 2^32, and 0 when there is none.
   */
  method ParseHex(s: seq<char>, from: nat) returns (v: Ulong, stop: nat)
    requires from <= |s|
    ensures stop == DigitsEnd(s, SpaceEnd(s, from))
    ensures v == Wrap(HexNat(s[SpaceEnd(s, from)..stop]))
    ensures stop == SpaceEnd(s, from) ==> v == 0
  {
    var i := from;
    while i < |s| && IsSpace(s[i])
      invariant from <= i <= |s|
      invariant SpaceEnd(s, from) == SpaceEnd(s, i)
    {
      i := i + 1;
    }
    ghost var start := i;
    v := 0;
    while i < |s| && IsXDigit(s[i])
      invariant start <= i <= |s|
      invariant DigitsEnd(s, start) == DigitsEnd(s, i)
      invariant v == Fold(s[start..i])
    {
      FoldSnoc(s, start, i);
      v := Step(v, s[i]);
      i := i + 1;
    }
    stop := i;
    assert v == Wrap(HexNat(s[start..stop])) by { FoldIsHexNat(s[start..stop]); }
  }

  /** printhex's width rule: any n outside 1..8 is replaced by 8, not clamped. */
  function Width(n: int): (w: nat)
    ensures 1 <= w <= 8
    ensures 1 <= n <= 8 ==> w == n
    ensures !(1 <= n <= 8) ==> w == 8
  {
    if n < 1 || n > 8 then 8 else n
  }

  /** The character printhex makes of a nibble: '0' + x, moved up to 'a'.. above '9'. */
  function HexChar(x: int): (c: char)
    requires 0 <= x < 16
    ensures '0' <= c <= '9' || 'a' <= c <= 'f'
    ensures DigitValue(c) == x
  {
    var c := (x + '0' as int) as char;
    if c > '9' then (c as int + ('a' as int - '0' as int - 10)) as char else c
  }

  /** The n lowercase digits of v modulo 16^n, most significant first, zero padded. */
  function HexText(v: nat, n: nat): (t: seq<char>)
    ensures |t| == n
  {
    if n == 0 then [] else HexText(v / 16, n - 1) + [HexChar(v % 16)]
  }

  /** Every character printhex sends is a lowercase hexadecimal digit. */
  lemma {:induction false} HexTextDigits(v: nat, n: nat)
    ensures forall k :: 0 <= k < n ==> '0' <= HexText(v, n)[k] <= '9' || 'a' <= HexText(v, n)[k] <= 'f'
  {
    if n > 0 {
      HexTextDigits(v / 16, n - 1);
    }
  }

  /** Splitting off the low nibble splits v modulo 16·p. */
  lemma ModSplit(v: nat, p: nat)
    requires p >= 1
    ensures v % (16 * p) == 16 * ((v / 16) % p) + v % 16
  {
    var q, r := v / 16, v % 16;
    var s, t := q / p, q % p;
    assert v == 16 * (p * s + t) + r;
    assert v == (16 * p) * s + (16 * t + r);
    assert 0 <= 16 * t + r < 16 * p;
    DivModUnique(v, 16 * p, s, 16 * t + r);
  }

  lemma {:induction false} MulAtLeast(m: nat, k: nat)
    requires k >= 1
    ensures m * k >= m
  {
    if k > 1 {
      MulAtLeast(m, k - 1);
      assert m * k == m * (k - 1) + m;
    }
  }

  lemma DivModUnique(v: int, m: int, s: int, b: int)
    requires m >= 1 && 0 <= b < m && v == m * s + b
    ensures v % m == b
  {
    var q, r := v / m, v % m;
    assert v == m * q + r;
    var k := q - s;
    assert m * k == b - r;
    if k > 0 {
      MulAtLeast(m, k);
    } else if k < 0 {
      MulAtLeast(m, -k);
    }
  }

  /** The digits printhex(v, n) sends have the value of the low 4·n bits of v. */
  lemma {:induction false} HexNatHexText(v: nat, n: nat)
    ensures HexNat(HexText(v, n)) == v % Pow16(n)
  {
    if n > 0 {
      var t := HexText(v, n);
      assert t[..n - 1] == HexText(v / 16, n - 1);
      HexNatHexText(v / 16, n - 1);
      ModSplit(v, Pow16(n - 1));
    }
  }

  /**
   * Round trip: parsehex applied to the eight characters printhex(v, 8)
   * sends skips no white space, stops after all eight of them and returns v.
   */
  lemma ParseHexOfPrintHex(v: Ulong)
    ensures SpaceEnd(HexText(v, 8), 0) == 0
    ensures DigitsEnd(HexText(v, 8), 0) == 8
    ensures Wrap(HexNat(HexText(v, 8)[0..8])) == v
  {
    var t := HexText(v, 8);
    assert forall k :: 0 <= k < 8 ==> IsXDigit(t[k]) && !IsSpace(t[k]) by {
      HexTextDigits(v, 8);
    }
    assert DigitsEnd(t, 0) == 8;
    assert t[0..8] == t;
    PrintHexValue(v);
  }

  lemma PrintHexValue(v: Ulong)
    ensures HexNat(HexText(v, 8)) == v
  {
    assert HexNat(HexText(v, 8)) == v % SPAN by {
      HexNatHexText(v, 8);
      Pow16Eight();
    }
  }

  /** v divided by 16 i times, as printhex's loop leaves it. */
  function Shift(v: nat, i: nat): nat
  {
    if i == 0 then v else Shift(v, i - 1) / 16
  }

  lemma {:induction false} ShiftOuter(v: nat, i: nat)
    ensures Shift(v / 16, i) == Shift(v, i + 1)
  {
    if i > 0 {
      ShiftOuter(v, i - 1);
    }
  }

  /** One more digit of HexText goes in front: the order printhex fills its buffer in. */
  lemma {:induction false} HexTextFront(v: nat, i: nat)
    ensures HexText(v, i + 1) == [HexChar(Shift(v, i) % 16)] + HexText(v, i)
  {
    if i > 0 {
      HexTextFront(v / 16, i - 1);
      ShiftOuter(v, i - 1);
    }
  }

  /**
   * printhex(v, n): fill a buffer of Width(n) characters from its last
   * position backwards with the low nibble of v, shifting v right by four
   * each time, then send it.
   */
  method PrintHex(port: Serial.Port, v: Ulong, n: int)
    modifies port`output
    ensures port.output == old(port.output) + HexText(v, Width(n))
  {
    var w := Width(n);
    var buf := new char[w];
    var x: nat := v;
    var i := 0;
    while i < w
      invariant 0 <= i <= w
      invariant x == Shift(v, i)
      invariant buf[w - i..] == HexText(v, i)
      invariant port.output == old(port.output)
    {
      HexTextFront(v, i);
      buf[w - 1 - i] := HexChar(x % 16);
      assert buf[w - 1 - i..] == [buf[w - 1 - i]] + buf[w - i..];
      x := x / 16;
      i := i + 1;
    }
    assert buf[..] == buf[w - i..];
    port.PutS(buf[..]);
  }

  /**
   * gethex(n): consume exactly n characters from the serial stream and
   * accumulate each; a character that is not a hexadecimal digit still
   * shifts the accumulator but adds nothing. ok is false when the stream
   * ends first (the firmware would wait for ever).
   */
  method GetHex(port: Serial.Port, n: int) returns (ok: bool, v: Ulong)
    requires port.Valid()
    modifies port`pos
    ensures port.Valid()
    ensures ok <==> old(port.pos) + (if n < 0 then 0 else n) <= |port.input|
    ensures ok ==> port.pos == old(port.pos) + (if n < 0 then 0 else n)
    ensures ok ==> v == Wrap(HexNat(port.input[old(port.pos)..port.pos]))
    ensures ok && n <= 8 ==> v < Pow16(if n < 0 then 0 else n)
    ensures !ok ==> port.pos == |port.input|
  {
    ghost var p0 := port.pos;
    ghost var seen: seq<char> := [];
    v := 0;
    var i := 0;
    while i < n
      invariant 0 <= i && (n >= 0 ==> i <= n) && (n < 0 ==> i == 0)
      invariant port.Valid() && port.pos == p0 + i
      invariant seen == port.input[p0..p0 + i] && v == Fold(seen)
    {
      var c := port.GetC();
      if c.None? {
        return false, v;
      }
      FoldAppend(seen, c.value);
      seen := seen + [c.value];
      v := Step(v, c.value);
      i := i + 1;
    }
    ok := true;
    FoldIsHexNat(port.input[p0..port.pos]);
    if n <= 8 {
      FoldBound(port.input[p0..port.pos]);
    }
  }
}
