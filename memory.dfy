/**
 * The target's memory as the bootloader sees it: 2^30 little-endian 32-bit
 * words, addressed by byte. A word lives at an address that is a multiple
 * of four; byte lane k of a word (k = address & 3) is bits 8k .. 8k+7, that
 * is, the word is the sum of lane k times 256^k.
 */
module Memory {
  import opened Word

  const WORDS: nat := 0x4000_0000

  /** An 8-bit value. */
  type Byte = x: int | 0 <= x < 256

  /** One 32-bit unsigned long per word address. */
  type Mem = s: seq<Ulong> | |s| == WORDS witness seq(WORDS, _ => 0)

  /** A memory access the firmware makes: a load or a store of `bytes` bytes at an address. */
  datatype Access = Load(addr: Ulong, bytes: nat) | Store(addr: Ulong, bytes: nat)

  /** `(addr & 0x3) == 0` */
  predicate Aligned(a: Ulong) { a % 4 == 0 }

  /** The word containing address a, `*(unsigned long *)(a & ~3)`. */
  function WordAt(m: Mem, a: Ulong): Ulong
  {
    m[a / 4]
  }

  /** `*(unsigned long *)(a & ~3) = w` */
  function StoreWord(m: Mem, a: Ulong, w: Ulong): (r: Mem)
    ensures WordAt(r, a) == w
    ensures forall x: Ulong :: x / 4 != a / 4 ==> WordAt(r, x) == WordAt(m, x)
  {
    m[a / 4 := w]
  }

  /** w with its low 8·k bits shifted out, `w >> (8 * k)`. */
  function Above(w: Ulong, k: nat): Ulong
  {
    if k == 0 then w else Above(w, k - 1) / 256
  }

  /** Byte lane `lane` of a word, `(w >> (8 * lane)) & 0xff`. */
  function ByteAt(w: Ulong, lane: nat): Byte
    requires lane < 4
  {
    Above(w, lane) % 256
  }

  lemma Div256(x: int, q: int, r: int)
    requires 0 <= r < 256 && x == 256 * q + r
    ensures x / 256 == q && x % 256 == r
  {
  }

  /** A word is the weighted sum of its four lanes. */
  lemma Decompose(w: Ulong)
    ensures w == ByteAt(w, 0) + 0x100 * ByteAt(w, 1) + 0x1_0000 * ByteAt(w, 2) + 0x100_0000 * ByteAt(w, 3)
  {
    var a1, a2, a3 := Above(w, 1), Above(w, 2), Above(w, 3);
    assert w == 256 * a1 + ByteAt(w, 0);
    assert a1 == 256 * a2 + ByteAt(w, 1);
    assert a2 == 256 * a3 + ByteAt(w, 2);
    assert a3 < 256;
  }

  /** The lanes of a weighted sum of four bytes are those bytes. */
  lemma Compose(c0: Byte, c1: Byte, c2: Byte, c3: Byte)
    ensures var w := c0 + 0x100 * c1 + 0x1_0000 * c2 + 0x100_0000 * c3;
      0 <= w < SPAN && ByteAt(w, 0) == c0 && ByteAt(w, 1) == c1 && ByteAt(w, 2) == c2 && ByteAt(w, 3) == c3
  {
    var w := c0 + 0x100 * c1 + 0x1_0000 * c2 + 0x100_0000 * c3;
    Div256(w, c1 + 0x100 * c2 + 0x1_0000 * c3, c0);
    Div256(c1 + 0x100 * c2 + 0x1_0000 * c3, c2 + 0x100 * c3, c1);
    Div256(c2 + 0x100 * c3, c3, c2);
    Div256(c3, 0, c3);
  }

  /** The weight of a lane, `1 << (8 * lane)`. */
  function Scale(lane: nat): nat
    requires lane < 4
  {
    if lane == 0 then 1 else if lane == 1 then 0x100 else if lane == 2 then 0x1_0000 else 0x100_0000
  }

  /**
   * The bootloader's patch of a byte into one lane of a word: and-ing with
   * the lane's inverted mask takes the old byte's weight out of the word,
   * or-ing in the shifted byte puts the new one in.
   */
  function PatchLane(w: Ulong, lane: nat, b: Byte): (r: Ulong)
    requires lane < 4
    ensures ByteAt(r, lane) == b
    ensures forall k :: 0 <= k < 4 && k != lane ==> ByteAt(r, k) == ByteAt(w, k)
  {
    Decompose(w);
    var c0 := if lane == 0 then b else ByteAt(w, 0);
    var c1 := if lane == 1 then b else ByteAt(w, 1);
    var c2 := if lane == 2 then b else ByteAt(w, 2);
    var c3 := if lane == 3 then b else ByteAt(w, 3);
    Compose(c0, c1, c2, c3);
    w - ByteAt(w, lane) * Scale(lane) + b * Scale(lane)
  }

  /** The byte at address a. */
  function ReadByte(m: Mem, a: Ulong): Byte
  {
    ByteAt(WordAt(m, a), a % 4)
  }

  /** Read the word holding a, patch lane a & 3 with b, write it back. */
  function PatchByte(m: Mem, a: Ulong, b: Byte): (r: Mem)
    ensures ReadByte(r, a) == b
    ensures forall x: Ulong :: x != a ==> ReadByte(r, x) == ReadByte(m, x)
    ensures forall x: Ulong :: x / 4 != a / 4 ==> WordAt(r, x) == WordAt(m, x)
  {
    StoreWord(m, a, PatchLane(WordAt(m, a), a % 4, b))
  }

  /** `v++` on a 32-bit unsigned long. */
  function Next(a: Ulong): Ulong
  {
    Wrap(a + 1)
  }

  /** How far x lies past a, counting upwards with wrap-around. */
  function Offset(a: Ulong, x: Ulong): nat
  {
    Wrap(x - a)
  }

  /** Patch bs[0] at a, bs[1] at a + 1, and so on, with the address wrapping. */
  function PatchBytes(m: Mem, a: Ulong, bs: seq<Byte>): Mem
    decreases |bs|
  {
    if bs == [] then m else PatchBytes(PatchByte(m, a, bs[0]), Next(a), bs[1..])
  }

  lemma OffsetNext(a: Ulong, x: Ulong)
    ensures x != a ==> Offset(Next(a), x) == Offset(a, x) - 1
    ensures x == a ==> Offset(Next(a), x) == SPAN - 1 && Offset(a, x) == 0
  {
  }

  /**
   * After patching bs from a on, the byte at x is bs[k] when x is the k-th
   * address counted from a, and what it was before otherwise.
   */
  lemma {:induction false} PatchBytesRead(m: Mem, a: Ulong, bs: seq<Byte>, x: Ulong)
    requires |bs| <= SPAN
    ensures ReadByte(PatchBytes(m, a, bs), x) ==
            if Offset(a, x) < |bs| then bs[Offset(a, x)] else ReadByte(m, x)
    decreases |bs|
  {
    if bs != [] {
      var m' := PatchByte(m, a, bs[0]);
      PatchBytesRead(m', Next(a), bs[1..], x);
      OffsetNext(a, x);
    }
  }

  /** Patching one more byte extends the patch at the next address. */
  lemma {:induction false} PatchBytesSnoc(m: Mem, a: Ulong, bs: seq<Byte>, b: Byte)
    ensures PatchBytes(m, a, bs + [b]) == PatchByte(PatchBytes(m, a, bs), Wrap(a + |bs|), b)
    decreases |bs|
  {
    if bs == [] {
      assert bs + [b] == [b];
    } else {
      assert (bs + [b])[1..] == bs[1..] + [b];
      PatchBytesSnoc(PatchByte(m, a, bs[0]), Next(a), bs[1..], b);
      WrapAdd(a + 1, |bs| - 1);
    }
  }
}
