/**
 * The Motorola S-record layout both the bootloader and srec2vhdl rely on:
 * `S`, a type digit, a two-digit byte count, an address of 4, 6 or 8 hex
 * digits depending on the type, the payload as two-digit pairs, and a
 * two-digit checksum (which neither program examines). The count covers
 * the address bytes, the payload bytes and the checksum byte.
 */
module SRecord {

  /** S1, S2, S3: data records. */
  predicate IsData(t: char) { t == '1' || t == '2' || t == '3' }

  /** S7, S8, S9: termination records carrying the start address. */
  predicate IsTermination(t: char) { t == '7' || t == '8' || t == '9' }

  /** Hex digits in the address field: S1 and S9 four, S2 and S8 six, S3 and S7 eight. */
  function AddressDigits(t: char): (w: nat)
    ensures IsData(t) || IsTermination(t) ==> w == 4 || w == 6 || w == 8
  {
    if t == '1' || t == '9' then 4
    else if t == '2' || t == '8' then 6
    else if t == '3' || t == '7' then 8
    else 0
  }

  /**
   * The count bytes of a data record that are not payload: 3, 4 or 5 for
   * S1, S2 or S3.
   */
  function Overhead(t: char): nat
  {
    if t == '1' then 3 else if t == '2' then 4 else if t == '3' then 5 else 0
  }

  /** Column of the first payload digit of a data record: 8, 10 or 12. */
  function DataColumn(t: char): nat
  {
    4 + AddressDigits(t)
  }

  /**
   * The two tables agree with the layout: the overhead of a data record is
   * its address bytes plus the checksum byte, a termination record S(10-k)
   * has the address width of data record Sk, and payload starts right after
   * `S`, the type, the count and the address.
   */
  lemma LayoutTable(t: char)
    ensures IsData(t) ==> Overhead(t) == AddressDigits(t) / 2 + 1
    ensures IsData(t) ==> DataColumn(t) == 2 * Overhead(t) + 2
    ensures t == '1' ==> AddressDigits(t) == 4 && AddressDigits('9') == 4
    ensures t == '2' ==> AddressDigits(t) == 6 && AddressDigits('8') == 6
    ensures t == '3' ==> AddressDigits(t) == 8 && AddressDigits('7') == 8
  {
  }
}
