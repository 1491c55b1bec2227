/**
 * The editable line reader `usart_gets(buffer, size)` of
 * CODE/monitor/monitor.c (the copy in CODE/usart_sprintf/sprintf.c is the
 * same): characters are read until a line terminator; printable ones are
 * stored and echoed while the buffer has room; backspace/DEL, Ctrl-U and
 * Ctrl-C edit the line; the result is NUL-terminated.
 */
module LineEditor {
  import opened Serial

  const NUL: char := '\0'
  const BEL: char := '\U{7}'
  const BS: char := '\U{8}'
  const DEL: char := '\U{7F}'
  const CTRL_C: char := '\U{3}'
  const CTRL_U: char := '\U{15}'

  /** Bytes 0x20 .. 0x7e: the only ones the reader stores. */
  predicate Storable(c: char) { '\U{1F}' < c < DEL }

  predicate Terminator(c: char) { c == '\n' || c == '\r' }

  /** One DEL per erased character. */
  function Rubout(n: nat): (r: seq<char>)
    ensures |r| == n && forall k :: 0 <= k < n ==> r[k] == DEL
  {
    if n == 0 then [] else Rubout(n - 1) + [DEL]
  }

  /**
   * The effect of one character other than a terminator: the new line and
   * what is echoed.
   */
  function Edit(line: seq<char>, c: char, size: int): (seq<char>, seq<char>)
  {
    if c == DEL || c == BS then
      if |line| > 0 then (line[..|line| - 1], [DEL]) else (line, [BEL])
    else if c == CTRL_U then ([], Rubout(|line|))
    else if c == CTRL_C then ([], "<break>\r\n")
    else if |line| < size - 1 then
      if Storable(c) then (line + [c], [c]) else (line, [])
    else (line, [BEL])
  }

  /** What a call returns: the line, the echo, where input stopped, and whether a terminator was read. */
  datatype Reading = Reading(line: seq<char>, echo: seq<char>, pos: nat, complete: bool)

  /**
   * Reading from position p with `line` held and `echo` sent so far. When
   * the input runs out before a terminator the firmware waits for ever
   * (complete is false).
   */
  function Gets(s: seq<char>, p: nat, line: seq<char>, echo: seq<char>, size: int): (r: Reading)
    ensures r.complete ==> p < r.pos <= |s| && Terminator(s[r.pos - 1])
    ensures !r.complete ==> r.pos >= |s|
    decreases |s| - p
  {
    if p >= |s| then Reading(line, echo, p, false)
    else if Terminator(s[p]) then Reading(line, echo + "\r\n", p + 1, true)
    else
      var (line', e) := Edit(line, s[p], size);
      Gets(s, p + 1, line', echo + e, size)
  }

  /**
   * The buffer never overflows: a line that fits in size - 1 characters
   * still fits after any edit.
   */
  lemma EditBounded(line: seq<char>, c: char, size: int)
    requires |line| <= size - 1
    ensures |Edit(line, c, size).0| <= size - 1
  {
  }

  /**
   * Only bytes 0x20 .. 0x7e ever enter the line, so neither terminator is
   * stored.
   */
  predicate AllStorable(line: seq<char>)
  {
    forall k :: 0 <= k < |line| ==> Storable(line[k])
  }

  /**
   * Each editing key does what its comment in the source says: erase drops
   * exactly the last character, or rings the bell on an empty line; Ctrl-U
   * and Ctrl-C empty the line; a printable character is appended and echoed
   * while there is room, a full line rings the bell, and anything else is
   * dropped without echo.
   */
  lemma EditKeys(line: seq<char>, c: char, size: int)
    ensures (c == DEL || c == BS) && |line| > 0 ==>
      Edit(line, c, size) == (line[..|line| - 1], [DEL])
    ensures (c == DEL || c == BS) && |line| == 0 ==> Edit(line, c, size) == (line, [BEL])
    ensures c == CTRL_U ==> Edit(line, c, size).0 == [] && |Edit(line, c, size).1| == |line|
    ensures c == CTRL_C ==> Edit(line, c, size) == ([], "<break>\r\n")
    ensures Storable(c) && c != DEL && |line| < size - 1 ==> Edit(line, c, size) == (line + [c], [c])
    ensures Storable(c) && |line| >= size - 1 ==> Edit(line, c, size) == (line, [BEL])
  {
  }

  /**
   * What a terminal shows on the current line after receiving e, starting
   * from `screen`: DEL erases the last character shown, the bell and a
   * carriage return change nothing on it, a line feed starts a fresh line,
   * and anything else is shown.
   */
  function Display(screen: seq<char>, e: seq<char>): seq<char>
  {
    if e == [] then screen
    else
      var shown := Display(screen, e[..|e| - 1]);
      var ch := e[|e| - 1];
      if ch == DEL then (if shown == [] then [] else shown[..|shown| - 1])
      else if ch == BEL || ch == '\r' then shown
      else if ch == '\n' then []
      else shown + [ch]
  }

  /** Receiving x and then y shows what receiving x + y shows. */
  lemma {:induction false} DisplayAppend(screen: seq<char>, x: seq<char>, y: seq<char>)
    ensures Display(screen, x + y) == Display(Display(screen, x), y)
    decreases |y|
  {
    if y != [] {
      assert (x + y)[..|x + y| - 1] == x + y[..|y| - 1];
      DisplayAppend(screen, x, y[..|y| - 1]);
    } else {
      assert x + y == x;
    }
  }

  /** n DELs erase the last n characters shown. */
  lemma {:induction false} RuboutErases(screen: seq<char>, n: nat)
    requires n <= |screen|
    ensures Display(screen, Rubout(n)) == screen[..|screen| - n]
  {
    if n > 0 {
      var r, r' := Rubout(n), Rubout(n - 1);
      assert r == r' + [DEL];
      assert r[..|r| - 1] == r' && r[|r| - 1] == DEL;
      RuboutErases(screen, n - 1);
      var shown := screen[..|screen| - (n - 1)];
      assert shown[..|shown| - 1] == screen[..|screen| - n];
    }
  }

  /**
   * The echo of each key keeps the terminal in step with the buffer: a
   * terminal that showed the line before the key shows the new line after
   * its echo (Ctrl-C's "<break>" ends up on a line of its own).
   */
  lemma EchoShowsEdit(line: seq<char>, c: char, size: int)
    ensures Display(line, Edit(line, c, size).1) == Edit(line, c, size).0
  {
    if c == CTRL_U {
      RuboutErases(line, |line|);
    } else if c == CTRL_C {
      var e: seq<char> := "<break>\r\n";
      assert e[|e| - 1] == '\n';
    } else if c != DEL && c != BS && |line| < size - 1 && Storable(c) {
      assert [c][..0] == [];
    }
  }

  /**
   * The whole call keeps the terminal in step: when what was echoed so far
   * shows the line held, the echo of the call shows the line it returns,
   * followed, for a completed line, by the CR LF that ends it.
   */
  lemma {:induction false} GetsShowsLine(s: seq<char>, p: nat, line: seq<char>, echo: seq<char>, size: int)
    requires Display([], echo) == line
    ensures var r := Gets(s, p, line, echo, size);
      && (!r.complete ==> Display([], r.echo) == r.line)
      && (r.complete ==> |r.echo| >= 2 && r.echo[|r.echo| - 2..] == "\r\n"
                         && Display([], r.echo[..|r.echo| - 2]) == r.line)
    decreases |s| - p
  {
    if p < |s| {
      if Terminator(s[p]) {
        var e := echo + "\r\n";
        assert e[..|e| - 2] == echo && e[|e| - 2..] == "\r\n";
      } else {
        var (line', e) := Edit(line, s[p], size);
        DisplayAppend([], echo, e);
        EchoShowsEdit(line, s[p], size);
        GetsShowsLine(s, p + 1, line', echo + e, size);
      }
    }
  }

  /**
   * The whole call: the line it returns is at most size - 1 characters of
   * 0x20 .. 0x7e.
   */
  lemma {:induction false} GetsBounded(s: seq<char>, p: nat, line: seq<char>, echo: seq<char>, size: int)
    requires |line| <= size - 1 && AllStorable(line)
    ensures var r := Gets(s, p, line, echo, size);
      |r.line| <= size - 1 && AllStorable(r.line)
    decreases |s| - p
  {
    if p < |s| && !Terminator(s[p]) {
      var (line', e) := Edit(line, s[p], size);
      EditBounded(line, s[p], size);
      GetsBounded(s, p + 1, line', echo + e, size);
    }
  }

  /** An edit only ever adds the character typed: anything else not in the line stays out. */
  lemma EditOnlyTyped(line: seq<char>, c: char, size: int, x: char)
    requires x !in line && x != c
    ensures x !in Edit(line, c, size).0
  {
    if (c == DEL || c == BS) && |line| > 0 {
      assert forall k :: 0 <= k < |line| - 1 ==> line[..|line| - 1][k] == line[k];
    }
  }

  /**
   * The line read holds only characters typed: one that is neither in the
   * line held nor anywhere in the input from p on is not in the result.
   */
  lemma {:induction false} GetsOnlyTyped(s: seq<char>, p: nat, line: seq<char>, echo: seq<char>, size: int, x: char)
    requires x !in line
    requires forall k :: p <= k < |s| ==> s[k] != x
    ensures x !in Gets(s, p, line, echo, size).line
    decreases |s| - p
  {
    if p < |s| && !Terminator(s[p]) {
      var (line', e) := Edit(line, s[p], size);
      EditOnlyTyped(line, s[p], size, x);
      GetsOnlyTyped(s, p + 1, line', echo + e, size, x);
    }
  }

  /**
   * The echo only grows: what was sent before the call is a prefix of what
   * has been sent after it.
   */
  lemma {:induction false} GetsEchoExtends(s: seq<char>, p: nat, line: seq<char>, echo: seq<char>, size: int)
    ensures echo <= Gets(s, p, line, echo, size).echo
    decreases |s| - p
  {
    if p < |s| && !Terminator(s[p]) {
      var (line', e) := Edit(line, s[p], size);
      GetsEchoExtends(s, p + 1, line', echo + e, size);
    }
  }

  /**
   * usart_gets itself: the buffer holds the line, NUL-terminated, and the
   * index of that NUL is returned; `complete` is false when the input ran
   * out first.
   */
  method GetLine(port: Port, buffer: array<char>, size: int) returns (complete: bool, index: int)
    requires port.Valid()
    requires 1 <= size <= buffer.Length
    modifies port`pos, port`output, buffer
    ensures port.Valid()
    ensures var r := Gets(port.input, old(port.pos), [], [], size);
      && complete == r.complete
      && port.pos == r.pos
      && port.output == old(port.output) + r.echo
      && (complete ==> 0 <= index < size && buffer[..index] == r.line && buffer[index] == NUL)
  {
    index := 0;
    ghost var echo: seq<char> := [];
    ghost var o0 := port.output;
    ghost var goal := Gets(port.input, port.pos, [], [], size);
    while true
      invariant port.Valid()
      invariant 0 <= index < size
      invariant port.output == o0 + echo
      invariant Gets(port.input, port.pos, buffer[..index], echo, size) == goal
      decreases |port.input| - port.pos
    {
      ghost var line := buffer[..index];
      var c := port.GetC();
      if c.None? {
        return false, index;
      }
      var chr := c.value;
      if chr == '\n' || chr == '\r' {
        buffer[index] := NUL;
        port.PutS("\r\n");
        echo := echo + "\r\n";
        assert buffer[..index] == line;
        return true, index;
      }
      index := EditKey(port, buffer, index, size, chr);
      echo := echo + Edit(line, chr, size).1;
    }
  }

  /**
   * The loop body of usart_gets for one character other than a terminator:
   * the buffer and the echo change as Edit says.
   */
  method EditKey(port: Port, buffer: array<char>, index: int, size: int, chr: char) returns (index': int)
    requires 0 <= index < size <= buffer.Length
    requires !Terminator(chr)
    modifies port`output, buffer
    ensures 0 <= index' < size
    ensures var next := Edit(old(buffer[..index]), chr, size);
      buffer[..index'] == next.0 && port.output == old(port.output) + next.1
  {
    ghost var line := buffer[..index];
    ghost var next := Edit(line, chr, size);
    index' := index;
    if chr == DEL || chr == BS {
      if index' > 0 {
        port.PutC(DEL);
        index' := index' - 1;
        assert buffer[..index'] == line[..|line| - 1];
      } else {
        port.PutC(BEL);
      }
    } else if chr == CTRL_U {
      ghost var o0 := port.output;
      ghost var erased := 0;
      while index' > 0
        invariant 0 <= index' < size && index' + erased == |line|
        invariant port.output == o0 + Rubout(erased)
        modifies port`output
      {
        port.PutC(DEL);
        index' := index' - 1;
        erased := erased + 1;
      }
      assert buffer[..index'] == [] == next.0;
    } else if chr == CTRL_C {
      port.PutS("<break>\r\n");
      index' := 0;
    } else if index' < size - 1 {
      if '\U{1F}' < chr < DEL {
        buffer[index'] := chr;
        index' := index' + 1;
        port.PutC(chr);
        assert buffer[..index'] == line + [chr];
      } else {
        assert next.1 == [];
      }
    } else {
      port.PutC(BEL);
    }
  }
}
