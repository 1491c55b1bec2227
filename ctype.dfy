/**
 * Character classes of the C library's <ctype.h> in the "C" locale, as the
 * firmware and the host tools use them, and the value of a hexadecimal digit.
 */
module Ctype {

  /** isdigit */
  predicate IsDigit(c: char) { '0' <= c <= '9' }

  /** isxdigit */
  predicate IsXDigit(c: char) { IsDigit(c) || 'a' <= c <= 'f' || 'A' <= c <= 'F' }

  /** isspace: space, \t, \n, \v, \f and \r */
  predicate IsSpace(c: char) {
    c == ' ' || c == '\t' || c == '\n' || c == '\U{B}' || c == '\U{C}' || c == '\r'
  }

  /** isprint: 0x20 (space) up to and including 0x7E (tilde) */
  predicate IsPrint(c: char) { ' ' <= c <= '~' }

  /** toupper */
  function ToUpper(c: char): (r: char)
    ensures 'a' <= c <= 'z' ==> 'A' <= r <= 'Z' && r as int == c as int - 32
    ensures !('a' <= c <= 'z') ==> r == c
  {
    if 'a' <= c <= 'z' then (c as int - 32) as char else c
  }

  /** tolower */
  function ToLower(c: char): (r: char)
    ensures 'A' <= c <= 'Z' ==> 'a' <= r <= 'z' && r as int == c as int + 32
    ensures !('A' <= c <= 'Z') ==> r == c
  {
    if 'A' <= c <= 'Z' then (c as int + 32) as char else c
  }

  /**
   * The value of a hexadecimal digit, in either case; any other character
   * is worth 0 (this is what the serial hex reader folds in for it).
   */
  function DigitValue(c: char): (d: nat)
    ensures d < 16
    ensures !IsXDigit(c) ==> d == 0
  {
    if IsDigit(c) then c as int - '0' as int
    else if IsXDigit(c) then ToLower(c) as int - 'a' as int + 10
    else 0
  }

  /** Changing the case of a character changes neither its class nor its digit value. */
  lemma CaseKeepsDigit(c: char)
    ensures IsXDigit(ToUpper(c)) == IsXDigit(c) && DigitValue(ToUpper(c)) == DigitValue(c)
    ensures IsXDigit(ToLower(c)) == IsXDigit(c) && DigitValue(ToLower(c)) == DigitValue(c)
  {
  }

  /** 16 to the power n. */
  function Pow16(n: nat): (p: nat)
    ensures p >= 1
  {
    if n == 0 then 1 else 16 * Pow16(n - 1)
  }

  /**
   * The unbounded big-endian value of a string of hexadecimal digits: the
   * reference against which the fixed-width readers are stated.
   */
  function HexNat(cs: seq<char>): (v: nat)
    ensures v < Pow16(|cs|)
  {
    if cs == [] then 0 else 16 * HexNat(cs[..|cs| - 1]) + DigitValue(cs[|cs| - 1])
  }

  lemma Regroup(x: int, p: int, y: int, d: int)
    ensures 16 * (x * p + y) + d == x * (16 * p) + (16 * y + d)
  {
  }

  /** Splitting a digit string splits its value: HexNat(a + b) == HexNat(a) * 16^|b| + HexNat(b). */
  lemma {:induction false} HexNatAppend(a: seq<char>, b: seq<char>)
    ensures HexNat(a + b) == HexNat(a) * Pow16(|b|) + HexNat(b)
    decreases |b|
  {
    if b == [] {
      assert a + b == a;
    } else {
      var b' := b[..|b| - 1];
      var ab := a + b;
      assert ab[..|ab| - 1] == a + b';
      assert ab[|ab| - 1] == b[|b| - 1];
      var d := DigitValue(b[|b| - 1]);
      assert HexNat(ab) == 16 * HexNat(a + b') + d;
      assert HexNat(b) == 16 * HexNat(b') + d;
      HexNatAppend(a, b');
      Regroup(HexNat(a), Pow16(|b'|), HexNat(b'), d);
    }
  }
}
