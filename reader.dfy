/** Reading one line of standard input into a growing buffer (tosh_read_line). */
module Reader {
  import opened Text
  import Buffers

  /** What one getchar call returns: a character, or EOF. Standard input
      itself is the string of characters it holds; once its end is reached
      the stream's end-of-file indicator stays set, so every later call
      returns EOF as well. */
  datatype Input = Char(c: char) | EndOfInput

  /** How the reader ends: the process exits, or a line is returned together
      with the input position after its terminator. */
  datatype ReadResult = Exit(status: int) | Line(text: String, next: nat)

  /** A line read from the input and the position after its terminator. */
  datatype Scanned = Scanned(text: String, next: nat)

  const ExitSuccess: int := 0

  /** Bytes by which the line buffer grows (READ_BUF_INC). */
  const ReadBufInc: nat := 1024

  /** What getchar returns at position `p`: once the input is used up it
      keeps reporting EOF. */
  function Peek(input: String, p: nat): Input
  {
    if p < |input| then Char(input[p]) else EndOfInput
  }

  /** The position after getchar at `p`; reading an exhausted stream consumes nothing. */
  function Consume(input: String, p: nat): nat
  {
    if p < |input| then p + 1 else p
  }

  predicate IsTerminator(x: Input)
  {
    x == EndOfInput || x == Char('\n')
  }

  /** The line that starts at `p` and the position just after its terminator. */
  function LineFrom(input: String, p: nat): Scanned
    decreases |input| - p
  {
    match Peek(input, p)
    case EndOfInput => Scanned([], Consume(input, p))
    case Char(c) =>
      if c == '\n' then Scanned([], p + 1)
      else
        var rest := LineFrom(input, p + 1);
        Scanned([c] + rest.text, rest.next)
  }

  /** The line is exactly the characters of the input from `p` up to the
      first newline or EOF, the terminator is excluded, and reading resumes
      just past it. */
  lemma {:induction false} LineFromSpec(input: String, p: nat)
    ensures '\n' !in LineFrom(input, p).text
    ensures LineFrom(input, p).text != [] ==>
      p + |LineFrom(input, p).text| <= |input| && input[p..p + |LineFrom(input, p).text|] == LineFrom(input, p).text
    ensures IsTerminator(Peek(input, p + |LineFrom(input, p).text|))
    ensures LineFrom(input, p).next == Consume(input, p + |LineFrom(input, p).text|)
    decreases |input| - p
  {
    if p < |input| && input[p] != '\n' {
      LineFromSpec(input, p + 1);
      var rest := LineFrom(input, p + 1);
      assert LineFrom(input, p) == Scanned([input[p]] + rest.text, rest.next);
      if rest.text != [] {
        assert input[p..p + 1 + |rest.text|] == [input[p]] + input[p + 1..p + 1 + |rest.text|];
      } else {
        assert rest.text == [];
        assert input[p..p + 1] == [input[p]];
      }
    }
  }

  lemma LineStep(input: String, p: nat)
    requires p < |input| && input[p] != '\n'
    ensures LineFrom(input, p).text == [input[p]] + LineFrom(input, p + 1).text
    ensures LineFrom(input, p).next == LineFrom(input, p + 1).next
  {
  }

  lemma LineEnd(input: String, p: nat)
    requires !(p < |input| && input[p] != '\n')
    ensures LineFrom(input, p) == Scanned([], Consume(input, p))
  {
  }

  /** A run of non-newline characters ended by a newline or the end of the
      input is the line read there. */
  lemma {:induction false} LineUpTo(input: String, pos: nat, p: nat)
    requires pos <= p <= |input|
    requires forall k :: pos <= k < p ==> input[k] != '\n'
    requires !(p < |input| && input[p] != '\n')
    ensures LineFrom(input, pos) == Scanned(input[pos..p], Consume(input, p))
    decreases p - pos
  {
    if pos == p {
      LineEnd(input, p);
    } else {
      LineStep(input, pos);
      LineUpTo(input, pos + 1, p);
      assert input[pos..p] == [input[pos]] + input[pos + 1..p];
    }
  }

  /** One character of tosh_read_line stored at the write index, the buffer
      growing by ReadBufInc when the next index reaches its end, so that the
      next character, or the terminating NUL, has a slot. */
  method Put(buf: array<char>, i: nat, c: char) returns (buf': array<char>)
    requires i < buf.Length
    modifies buf
    ensures buf' == buf || fresh(buf')
    ensures buf'.Length == if i + 1 < buf.Length then buf.Length else buf.Length + ReadBufInc
    ensures i + 1 < buf'.Length
    ensures buf'[..i + 1] == old(buf[..i]) + [c]
  {
    buf[i] := c;
    buf' := buf;
    if i + 1 >= buf.Length {
      buf' := Buffers.Realloc(buf, buf.Length + ReadBufInc);
    }
  }

  /** The read loop of tosh_read_line: characters are stored one by one
      until the newline or EOF; the buffer then holds the line, a slot
      remains for the NUL, and the terminator has been consumed. */
  method ScanLine(input: String, pos: nat) returns (buf: array<char>, i: nat, next: nat)
    ensures fresh(buf)
    ensures i < buf.Length
    ensures buf[..i] == LineFrom(input, pos).text
    ensures next == LineFrom(input, pos).next
  {
    buf := new char[ReadBufInc];
    i := 0;
    if |input| < pos {
      // A position past the end reads EOF at once.
      LineEnd(input, pos);
      return buf, i, pos;
    }
    var p := pos;
    while p < |input| && input[p] != '\n'
      invariant fresh(buf)
      invariant i < buf.Length
      invariant pos <= p <= |input|
      invariant buf[..i] == input[pos..p]
      invariant forall k :: pos <= k < p ==> input[k] != '\n'
      decreases |input| - p
    {
      buf := Put(buf, i, input[p]);
      assert input[pos..p + 1] == input[pos..p] + [input[p]];
      i, p := i + 1, p + 1;
    }
    LineUpTo(input, pos, p);
    next := Consume(input, p);
  }

  /** tosh_read_line of src/tosh.c: EOF as the very first character ends the
      process with success; otherwise the characters up to the newline or EOF
      are collected into a buffer that grows by ReadBufInc whenever it is full,
      so that the write index, and the terminating NUL, stay in bounds. */
  method ReadLine(input: String, pos: nat) returns (r: ReadResult)
    ensures Peek(input, pos) == EndOfInput ==> r == Exit(ExitSuccess)
    ensures Peek(input, pos) != EndOfInput ==>
      r == Line(LineFrom(input, pos).text, LineFrom(input, pos).next)
  {
    if Peek(input, pos) == EndOfInput {
      return Exit(ExitSuccess);
    }
    // The first character was only peeked at (ungetc), so reading starts at pos.
    var buf, i, next := ScanLine(input, pos);
    buf[i] := '\0';
    r := Line(buf[..i], next);
  }
}
