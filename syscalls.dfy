/**
 * The newlib system call layer of the C runtime (CODE/syscalls/syscalls.c):
 * the bump allocator `_sbrk` behind malloc, `_read` and `_write` over the
 * character hooks `__io_getchar` and `__io_putchar`, and the stubs that
 * answer every other call with a constant and, for some, an errno.
 */
module Syscalls {
  import opened Wrappers
  import opened Word
  import opened Memory

  // ----- newlib's errno values and the stat mode -----

  const ENOENT: int := 2
  const ECHILD: int := 10
  const EAGAIN: int := 11
  const ENOMEM: int := 12
  const EINVAL: int := 22
  const EMLINK: int := 31

  /** S_IFCHR, 0020000 in octal: a character device. */
  const S_IFCHR: int := 0x2000

  /** The null pointer, the value the heap end starts from. */
  const NULL: int := 0

  /** `(void *)-1` on the 32-bit target. */
  const FAILED: Ulong := 0xFFFF_FFFF

  // ----- _sbrk -----

  /** `stack_limit`: the stack pointer symbol minus the stack size, in 32-bit unsigned arithmetic. */
  function StackLimit(stackPointer: Ulong, stackSize: Ulong): Ulong
  {
    Wrap(stackPointer - stackSize)
  }

  /** What one call of _sbrk leaves: the new heap end, the value returned, and errno if it was set. */
  datatype Grant = Grant(heapEnd: int, result: int, errno: Option<int>)

  /** The heap end a call works from: `&_end` on the first call, while it is still NULL. */
  function Base(heapEnd: int, end: int): int
  {
    if heapEnd == NULL then end else heapEnd
  }

  /**
   * One call of _sbrk(incr) with heap end h, `&_end` at `end` and the stack
   * limit `limit`. A call is refused exactly when the heap would grow past
   * the limit; a refused call sets ENOMEM and keeps the heap end (after the
   * first-call initialisation), a granted one returns the old end and
   * advances it by exactly incr.
   */
  function SbrkStep(h: int, incr: int, end: int, limit: int): (g: Grant)
    ensures g.errno.Some? <==> Base(h, end) + incr > limit
    ensures g.errno.Some? ==> g == Grant(Base(h, end), FAILED, Some(ENOMEM))
    ensures g.errno.None? ==> g.result == Base(h, end) && g.heapEnd == g.result + incr
  {
    var base := Base(h, end);
    if base + incr > limit then Grant(base, FAILED, Some(ENOMEM))
    else Grant(base + incr, base, None)
  }

  /** A call that does not grow the heap is never refused while the heap is within the limit. */
  lemma ShrinkNeverRefused(h: int, incr: int, end: int, limit: int)
    requires incr <= 0 && Base(h, end) <= limit
    ensures SbrkStep(h, incr, end, limit).errno == None
    ensures SbrkStep(h, incr, end, limit).result == Base(h, end)
  {
  }

  /** The heap end after the calls incrs, in order, from heap end h. */
  function HeapAfter(h: int, incrs: seq<int>, end: int, limit: int): int
  {
    if incrs == [] then h
    else SbrkStep(HeapAfter(h, incrs[..|incrs| - 1], end, limit), incrs[|incrs| - 1], end, limit).heapEnd
  }

  /**
   * The heap end never passes the stack limit: from NULL or any end within
   * the limit, and with `&_end` itself within it, every sequence of calls
   * leaves the heap end NULL or within the limit.
   */
  lemma {:induction false} HeapWithinLimit(h: int, incrs: seq<int>, end: int, limit: int)
    requires end <= limit && (h == NULL || h <= limit)
    ensures HeapAfter(h, incrs, end, limit) == NULL || HeapAfter(h, incrs, end, limit) <= limit
  {
    if incrs != [] {
      HeapWithinLimit(h, incrs[..|incrs| - 1], end, limit);
    }
  }

  /** The blocks [start, end) that the granted calls among incrs hand out, in order. */
  function Blocks(h: int, incrs: seq<int>, end: int, limit: int): seq<(int, int)>
  {
    if incrs == [] then []
    else
      var before := HeapAfter(h, incrs[..|incrs| - 1], end, limit);
      var g := SbrkStep(before, incrs[|incrs| - 1], end, limit);
      Blocks(h, incrs[..|incrs| - 1], end, limit)
      + (if g.errno.None? then [(g.result, g.heapEnd)] else [])
  }

  /**
   * As long as nobody gives memory back, _sbrk is a bump allocator: the
   * blocks it grants lie in order, none overlaps the next, and all lie
   * below the heap end.
   */
  lemma {:induction false} BlocksDisjoint(h: int, incrs: seq<int>, end: int, limit: int)
    requires 0 < end && 0 <= h
    requires forall k :: 0 <= k < |incrs| ==> incrs[k] >= 0
    ensures HeapAfter(h, incrs, end, limit) >= 0
    ensures forall i :: 0 <= i < |Blocks(h, incrs, end, limit)| ==>
      Blocks(h, incrs, end, limit)[i].0 <= Blocks(h, incrs, end, limit)[i].1 <= Base(HeapAfter(h, incrs, end, limit), end)
    ensures forall i, j :: 0 <= i < j < |Blocks(h, incrs, end, limit)| ==>
      Blocks(h, incrs, end, limit)[i].1 <= Blocks(h, incrs, end, limit)[j].0
  {
    if incrs != [] {
      var p := incrs[..|incrs| - 1];
      BlocksDisjoint(h, p, end, limit);
      var before := HeapAfter(h, p, end, limit);
      var g := SbrkStep(before, incrs[|incrs| - 1], end, limit);
      assert forall k :: 0 <= k < |p| ==> p[k] == incrs[k];
      assert Base(g.heapEnd, end) == g.heapEnd;
    }
  }

  // ----- the stubs -----

  /** The calls that are only stubs. */
  datatype Stub = GetPid | Kill | Close | Fstat | IsAtty | Lseek | Open | Wait | Unlink | Times | Stat | Link | Fork | Execve

  /** A stub's answer: the value returned, errno if set, st_mode if written. */
  datatype Reply = Reply(result: int, errno: Option<int>, mode: Option<int>)

  /** The constant each stub returns, the errno it sets and the st_mode it writes. */
  function Answer(c: Stub): Reply
  {
    match c
    case GetPid => Reply(1, None, None)
    case Kill => Reply(-1, Some(EINVAL), None)
    case Close => Reply(-1, None, None)
    case Fstat => Reply(0, None, Some(S_IFCHR))
    case IsAtty => Reply(1, None, None)
    case Lseek => Reply(0, None, None)
    case Open => Reply(-1, None, None)
    case Wait => Reply(-1, Some(ECHILD), None)
    case Unlink => Reply(-1, Some(ENOENT), None)
    case Times => Reply(-1, None, None)
    case Stat => Reply(0, None, Some(S_IFCHR))
    case Link => Reply(-1, Some(EMLINK), None)
    case Fork => Reply(-1, Some(EAGAIN), None)
    case Execve => Reply(-1, Some(ENOMEM), None)
  }

  /**
   * errno is set only by a call that fails, and then to a code that names
   * the call: no two stubs set the same errno. Every file is a character
   * device that is a terminal.
   */
  lemma StubErrnos(c: Stub, c': Stub)
    ensures Answer(c).errno.Some? ==> Answer(c).result == -1 && Answer(c).errno.value > 0
    ensures Answer(c).errno.Some? && Answer(c').errno == Answer(c).errno ==> c == c'
    ensures Answer(c).mode.Some? ==> Answer(c).mode.value == S_IFCHR && Answer(c).result == 0
    ensures Answer(IsAtty).result == 1
  {
  }

  // ----- the process-wide state -----

  /**
   * What the system call layer keeps: the static heap end, errno, the
   * linker symbols, and the character hooks. `getchar(k)` is what the k-th
   * call of __io_getchar returns (the weak default returns 0); `sent` is
   * every character handed to __io_putchar.
   */
  class Runtime {
    var heapEnd: int
    var errno: int
    const end: Ulong
    const stackPointer: Ulong
    const stackSize: Ulong
    const getchar: nat -> int
    var taken: nat
    var sent: seq<Byte>

    /** Memory the heap may grow into lies below the stack. */
    ghost predicate Valid()
      reads this
    {
      end <= StackLimit(stackPointer, stackSize)
      && (heapEnd == NULL || heapEnd <= StackLimit(stackPointer, stackSize))
    }

    constructor (end: Ulong, stackPointer: Ulong, stackSize: Ulong, getchar: nat -> int)
      requires end <= StackLimit(stackPointer, stackSize)
      ensures Valid()
      ensures this.end == end && this.stackPointer == stackPointer && this.stackSize == stackSize
      ensures this.getchar == getchar
      ensures heapEnd == NULL && errno == 0 && taken == 0 && sent == []
    {
      this.end := end;
      this.stackPointer := stackPointer;
      this.stackSize := stackSize;
      this.getchar := getchar;
      heapEnd := NULL;
      errno := 0;
      taken := 0;
      sent := [];
    }

    /** _sbrk(incr), keeping the heap end within the stack limit. */
    method Sbrk(incr: int) returns (r: int)
      requires Valid()
      modifies this
      ensures Valid()
      ensures heapEnd == SbrkStep(old(heapEnd), incr, end, StackLimit(stackPointer, stackSize)).heapEnd
      ensures r == SbrkStep(old(heapEnd), incr, end, StackLimit(stackPointer, stackSize)).result
      ensures errno == (match SbrkStep(old(heapEnd), incr, end, StackLimit(stackPointer, stackSize)).errno
                        case Some(e) => e
                        case None => old(errno))
      ensures taken == old(taken) && sent == old(sent)
    {
      var limit: int := stackPointer - stackSize;
      if stackPointer < stackSize {
        limit := limit + SPAN;
      }
      if heapEnd == NULL {
        heapEnd := end;
      }
      if heapEnd + incr > limit {
        errno := ENOMEM;
        return FAILED;
      }
      var prev := heapEnd;
      heapEnd := heapEnd + incr;
      return prev;
    }

    /** _read(fd, buf, n): n characters from __io_getchar into buf; returns n. */
    method Read(fd: int, buf: array<Byte>, n: int) returns (r: int)
      requires n <= buf.Length
      modifies this, buf
      ensures r == n
      ensures taken == old(taken) + (if n > 0 then n else 0)
      ensures forall i :: 0 <= i < n ==> buf[i] == getchar(old(taken) + i) % 256
      ensures forall i :: (if n > 0 then n else 0) <= i < buf.Length ==> buf[i] == old(buf[i])
      ensures heapEnd == old(heapEnd) && errno == old(errno) && sent == old(sent)
    {
      var i := 0;
      while i < n
        invariant 0 <= i && (n > 0 ==> i <= n) && (n <= 0 ==> i == 0)
        invariant taken == old(taken) + i
        invariant forall k :: 0 <= k < i ==> buf[k] == getchar(old(taken) + k) % 256
        invariant forall k :: i <= k < buf.Length ==> buf[k] == old(buf[k])
        invariant heapEnd == old(heapEnd) && errno == old(errno) && sent == old(sent)
      {
        buf[i] := getchar(taken) % 256;
        taken := taken + 1;
        i := i + 1;
      }
      return n;
    }

    /** _write(fd, buf, n): the first n characters of buf to __io_putchar, in order; returns n. */
    method Write(fd: int, buf: array<Byte>, n: int) returns (r: int)
      requires n <= buf.Length
      modifies this
      ensures r == n
      ensures sent == old(sent) + buf[..if n > 0 then n else 0]
      ensures heapEnd == old(heapEnd) && errno == old(errno) && taken == old(taken)
    {
      var i := 0;
      while i < n
        invariant 0 <= i && (n > 0 ==> i <= n) && (n <= 0 ==> i == 0)
        invariant sent == old(sent) + buf[..i]
        invariant heapEnd == old(heapEnd) && errno == old(errno) && taken == old(taken)
      {
        sent := sent + [buf[i]];
        i := i + 1;
        assert buf[..i] == buf[..i - 1] + [buf[i - 1]];
      }
      return n;
    }

    /** Any of the stubs: its constant, and errno where it sets one. */
    method Call(c: Stub) returns (r: int)
      modifies this
      ensures r == Answer(c).result
      ensures errno == (if Answer(c).errno.Some? then Answer(c).errno.value else old(errno))
      ensures heapEnd == old(heapEnd) && taken == old(taken) && sent == old(sent)
    {
      match c
      case GetPid => r := 1;
      case Kill => errno := EINVAL; r := -1;
      case Close => r := -1;
      case Fstat => r := 0;
      case IsAtty => r := 1;
      case Lseek => r := 0;
      case Open => r := -1;
      case Wait => errno := ECHILD; r := -1;
      case Unlink => errno := ENOENT; r := -1;
      case Times => r := -1;
      case Stat => r := 0;
      case Link => errno := EMLINK; r := -1;
      case Fork => errno := EAGAIN; r := -1;
      case Execve => errno := ENOMEM; r := -1;
    }
  }
}
