/**
 * The byte transport: everything the host will ever send, how much of it
 * the target has consumed, and everything the target has sent back. The
 * UART registers and their busy-waits are not modelled; a read for which no
 * byte will ever arrive is reported as None (the firmware would wait
 * forever at that point).
 */
module Serial {
  import opened Wrappers

  class Port {
    /** Every byte the host sends, in order. */
    const input: seq<char>
    /** How many of them have been consumed by usart_getc. */
    var pos: nat
    /** Every byte sent by usart_putc, in order. */
    var output: seq<char>

    ghost predicate Valid()
      reads this
    {
      pos <= |input|
    }

    constructor (input: seq<char>)
      ensures Valid() && this.input == input && pos == 0 && output == []
    {
      this.input := input;
      pos := 0;
      output := [];
    }

    /** usart_received: a byte is waiting. */
    predicate Received()
      reads this
    {
      pos < |input|
    }

    /** usart_getc: consume the next byte, or None if no byte will ever come. */
    method GetC() returns (c: Option<char>)
      requires Valid()
      modifies this`pos
      ensures Valid()
      ensures old(pos) < |input| ==> c == Some(input[old(pos)]) && pos == old(pos) + 1
      ensures old(pos) == |input| ==> c == None && pos == old(pos)
    {
      if pos < |input| {
        c := Some(input[pos]);
        pos := pos + 1;
      } else {
        c := None;
      }
    }

    /** usart_putc */
    method PutC(c: char)
      modifies this`output
      ensures output == old(output) + [c]
    {
      output := output + [c];
    }

    /** usart_puts */
    method PutS(s: seq<char>)
      modifies this`output
      ensures output == old(output) + s
    {
      output := output + s;
    }
  }

  /** What was sent before, then x, then y: the order in which usart_puts calls add up. */
  lemma SentInOrder(before: seq<char>, x: seq<char>, y: seq<char>)
    ensures before + x + y == before + (x + y)
  {
  }
}
