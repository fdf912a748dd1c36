/** Splitting a line into an argument vector (tosh_split_line of src/tosh.c). */
module Splitter {
  import opened Text
  import opened Buffers

  const CommentChar: char := '#'

  /** Pointer slots by which the token vector grows (SPLIT_BUF_INC). */
  const SplitBufInc: nat := 64

  /** Bytes by which a token copy grows (ARG_BUF_INC). */
  const ArgBufInc: nat := 128

  predicate StartsComment(w: String)
  {
    |w| > 0 && w[0] == CommentChar
  }

  /** The words before the first one that begins with the comment character. */
  function UntilComment(ws: seq<String>): seq<String>
  {
    if ws == [] || StartsComment(ws[0]) then [] else [ws[0]] + UntilComment(ws[1..])
  }

  /** The arguments of a line: its strtok fields up to the first comment. */
  function CommandWords(line: String): seq<String>
  {
    UntilComment(Fields(line, SplitDelims))
  }

  /** Cutting at the comment keeps a prefix of the words, none of which
      begins with '#', and drops everything from the first word that does. */
  lemma {:induction false} UntilCommentSpec(ws: seq<String>)
    ensures var r := UntilComment(ws);
      && r <= ws
      && (forall k :: 0 <= k < |r| ==> !StartsComment(r[k]))
      && (|r| < |ws| ==> StartsComment(ws[|r|]))
  {
    if ws != [] && !StartsComment(ws[0]) {
      UntilCommentSpec(ws[1..]);
      var r := UntilComment(ws[1..]);
      assert UntilComment(ws) == [ws[0]] + r;
      assert ws == [ws[0]] + ws[1..];
    }
  }

  /** A line without a word that starts with '#' keeps all its words; a '#'
      inside a word is ordinary text. */
  lemma {:induction false} NoCommentKeepsAll(ws: seq<String>)
    requires forall k :: 0 <= k < |ws| ==> !StartsComment(ws[k])
    ensures UntilComment(ws) == ws
  {
    if ws != [] {
      NoCommentKeepsAll(ws[1..]);
    }
  }

  /** Copies one token into a fresh buffer that starts at `size` bytes and
      grows by ArgBufInc whenever the write index reaches its end. The size is
      carried over to the next token rather than reset, as in the source. The
      copy is given the terminating NUL that the source never writes. */
  method CopyToken(t: String, size: nat) returns (copy: String, size': nat)
    requires size > 0
    ensures copy == t
    ensures size <= size' && |t| < size'
  {
    size' := size;
    var p := new char[size'];
    var j := 0;
    while j < |t|
      invariant 0 <= j <= |t|
      invariant fresh(p)
      invariant size <= size' == p.Length && j <= size'
      invariant p[..j] == t[..j]
    {
      if j >= size' {
        size' := size' + ArgBufInc;
        p := Realloc(p, size');
      }
      p[j] := t[j];
      j := j + 1;
    }
    if j >= size' {
      size' := size' + ArgBufInc;
      p := Realloc(p, size');
    }
    p[j] := '\0';
    copy := p[..j];
  }

  /** A token that does not begin a comment is kept, and the cut goes on
      after it. */
  lemma KeepToken(line: String, kept: seq<String>, p: nat, start: nat, end: nat, resume: nat)
    requires TokenAhead(line, SplitDelims, p, start, end, resume)
    requires start < end && line[start] != CommentChar
    requires CommandWords(line) == kept + UntilComment(Fields(line[p..], SplitDelims))
    ensures CommandWords(line) == (kept + [line[start..end]]) + UntilComment(Fields(line[resume..], SplitDelims))
  {
    assert UntilComment(Fields(line[p..], SplitDelims))
      == [line[start..end]] + UntilComment(Fields(line[resume..], SplitDelims));
  }

  /** At the end of the line, or at a token that begins a comment, no more
      words are kept. */
  lemma NoMoreWords(line: String, kept: seq<String>, p: nat, start: nat, end: nat, resume: nat)
    requires TokenAhead(line, SplitDelims, p, start, end, resume)
    requires start < end ==> line[start] == CommentChar
    requires CommandWords(line) == kept + UntilComment(Fields(line[p..], SplitDelims))
    ensures CommandWords(line) == kept
  {
    assert UntilComment(Fields(line[p..], SplitDelims)) == [];
  }

  /** The strtok loop of tosh_split_line: repeated strtok calls fill a
      vector that grows by SplitBufInc slots whenever it is full, stopping at
      the end of the line or at the first token that begins with '#'; a free
      slot remains after the tokens. */
  method CollectTokens(line: String) returns (tokens: array<Ptr<String>>, n: nat)
    ensures fresh(tokens)
    ensures n < tokens.Length
    ensures forall k :: 0 <= k < n ==> tokens[k].Ptr?
    ensures Values(tokens[..n]) == CommandWords(line)
  {
    tokens := new Ptr<String>[SplitBufInc];
    var p := 0;
    n := 0;
    ghost var kept: seq<String> := [];
    assert line[p..] == line;
    var start, end, resume := NextToken(line, SplitDelims, p);
    while start < end && line[start] != CommentChar
      invariant fresh(tokens)
      invariant n == |kept| < tokens.Length
      invariant Stores(tokens, kept)
      invariant TokenAhead(line, SplitDelims, p, start, end, resume)
      invariant CommandWords(line) == kept + UntilComment(Fields(line[p..], SplitDelims))
      decreases |line| - p
    {
      var w := line[start..end];
      KeepToken(line, kept, p, start, end, resume);
      tokens, n := Append(tokens, n, w, SplitBufInc, kept);
      kept := kept + [w];
      p := resume;
      start, end, resume := NextToken(line, SplitDelims, p);
    }
    NoMoreWords(line, kept, p, start, end, resume);
    StoredValues(tokens, kept);
  }

  /** The strtok phase of tosh_split_line: the collected tokens, closed by a
      NULL in the slot that always remains. */
  method Tokenize(line: String) returns (tokens: array<Ptr<String>>, n: nat)
    ensures fresh(tokens)
    ensures n < tokens.Length && tokens[n] == Null
    ensures forall k :: 0 <= k < n ==> tokens[k].Ptr?
    ensures Values(tokens[..n]) == CommandWords(line)
  {
    tokens, n := CollectTokens(line);
    ghost var stored := tokens[..n];
    tokens[n] := Null;
    assert tokens[..n] == stored;
  }

  /** The copy phase of tosh_split_line: walks the vector up to its NULL and
      replaces every token by a copy of its own. */
  method CopyTokens(tokens: array<Ptr<String>>, n: nat)
    requires n < tokens.Length && tokens[n] == Null
    requires forall k :: 0 <= k < n ==> tokens[k].Ptr?
    modifies tokens
    ensures tokens[..] == old(tokens[..])
  {
    var argBufsize := ArgBufInc;
    var i := 0;
    while tokens[i] != Null
      invariant 0 <= i <= n
      invariant tokens[..] == old(tokens[..])
      invariant argBufsize > 0
      decreases n - i
    {
      var copy;
      copy, argBufsize := CopyToken(tokens[i].value, argBufsize);
      tokens[i] := Ptr(copy);
      i := i + 1;
    }
  }

  /** tosh_split_line: the arguments are the line's words up to the first
      comment, in order, each non-empty and free of delimiters. */
  method SplitLine(line: String) returns (args: seq<String>)
    ensures args == CommandWords(line)
  {
    var tokens, n := Tokenize(line);
    CopyTokens(tokens, n);
    args := Values(tokens[..n]);
  }
}
