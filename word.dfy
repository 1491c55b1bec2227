/**
 * The target's `unsigned long`: RV32 is a 32-bit machine, so every
 * unsigned long value, and every address, lies in 0 .. 2^32 - 1 and
 * arithmetic on them wraps around modulo 2^32.
 */
module Word {
  /** 2^32, the number of distinct unsigned long values. */
  const SPAN: int := 0x1_0000_0000

  type Ulong = x: int | 0 <= x < SPAN

  /** Unsigned long arithmetic: reduce modulo 2^32. */
  function Wrap(x: int): (r: Ulong)
    ensures 0 <= x < SPAN ==> r == x
  {
    x % SPAN
  }

  /** Adding a multiple of 2^32 does not change the wrapped value. */
  lemma WrapMultiple(k: int, y: int)
    ensures Wrap(k * SPAN + y) == Wrap(y)
  {
    var q := y / SPAN;
    assert y == q * SPAN + y % SPAN;
    assert k * SPAN + y == (k + q) * SPAN + y % SPAN;
  }

  /** Wrapping an intermediate sum does not change the wrapped total. */
  lemma WrapAdd(x: int, y: int)
    ensures Wrap(Wrap(x) + y) == Wrap(x + y)
  {
    WrapMultiple(-(x / SPAN), x + y);
    assert Wrap(x) + y == -(x / SPAN) * SPAN + (x + y);
  }
}
