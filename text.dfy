/** Character classes and strtok-style splitting: the argument splitter of
    both revisions of tosh cuts a line at " \t\r\n\a", and the prompt cuts
    the working directory at '/'. */
module Text {

  type String = seq<char>

  /** The bell character '\a'. */
  const Bel: char := '\U{7}'

  /** The delimiters between arguments, " \t\r\n\a" (SPLIT_DELIM). */
  const SplitDelims: set<char> := {' ', '\t', '\r', '\n', Bel}

  predicate DelimFree(s: String, d: set<char>)
  {
    forall k :: 0 <= k < |s| ==> s[k] !in d
  }

  /** Length of the leading run of non-delimiters of `s`. */
  function RunLength(s: String, d: set<char>): (n: nat)
    ensures n <= |s|
    ensures DelimFree(s[..n], d)
    ensures n < |s| ==> s[n] in d
  {
    if s == [] || s[0] in d then 0 else 1 + RunLength(s[1..], d)
  }

  /** The tokens successive strtok calls return: the maximal runs of
      characters outside `d`, left to right. */
  function Fields(s: String, d: set<char>): (ws: seq<String>)
    ensures forall w :: w in ws ==> w != [] && DelimFree(w, d)
    decreases |s|
  {
    if s == [] then []
    else if s[0] in d then Fields(s[1..], d)
    else
      var n := RunLength(s, d);
      [s[..n]] + Fields(s[n..], d)
  }

  /** Fields separated by one delimiter each. */
  function JoinWith(ws: seq<String>, sep: char): String
  {
    if ws == [] then []
    else if |ws| == 1 then ws[0]
    else ws[0] + [sep] + JoinWith(ws[1..], sep)
  }

  /** All fields laid end to end. */
  function Concat(ws: seq<String>): String
  {
    if ws == [] then [] else ws[0] + Concat(ws[1..])
  }

  /** `s` with every delimiter removed. */
  function DropDelims(s: String, d: set<char>): String
  {
    if s == [] then []
    else if s[0] in d then DropDelims(s[1..], d)
    else [s[0]] + DropDelims(s[1..], d)
  }

  function CountChar(s: String, c: char): nat
  {
    if s == [] then 0 else (if s[0] == c then 1 else 0) + CountChar(s[1..], c)
  }

  /** Position of the first occurrence of `c` (what strchr finds). */
  function IndexOf(s: String, c: char): (k: nat)
    requires c in s
    ensures k < |s| && s[k] == c && c !in s[..k]
  {
    if s[0] == c then 0 else 1 + IndexOf(s[1..], c)
  }

  lemma {:induction false} RunLengthExact(s: String, d: set<char>, n: nat)
    requires n <= |s| && DelimFree(s[..n], d)
    requires n == |s| || s[n] in d
    ensures RunLength(s, d) == n
  {
    if n > 0 {
      assert s[1..][..n - 1] == s[1..n];
      assert forall k :: 0 <= k < n - 1 ==> s[1..n][k] == s[..n][k + 1];
      RunLengthExact(s[1..], d, n - 1);
    } else {
      assert s == [] || s[0] in d;
    }
  }

  /** A delimiter at the front contributes nothing. */
  lemma FieldsSkipDelim(s: String, d: set<char>)
    requires s != [] && s[0] in d
    ensures Fields(s, d) == Fields(s[1..], d)
  {
  }

  /** A non-empty delimiter-free word followed by a delimiter (or nothing)
      is exactly the next token. */
  lemma {:induction false} FieldsAfterWord(w: String, t: String, d: set<char>)
    requires w != [] && DelimFree(w, d)
    requires t == [] || t[0] in d
    ensures Fields(w + t, d) == [w] + Fields(t, d)
  {
    var s := w + t;
    assert s[..|w|] == w;
    RunLengthExact(s, d, |w|);
    assert s[..RunLength(s, d)] == w;
    assert s[RunLength(s, d)..] == t;
  }

  /** Splitting undoes joining: the splitter recovers any list of non-empty,
      delimiter-free words joined by single delimiters (for arguments: by
      single spaces). */
  lemma {:induction false} FieldsOfJoinWith(ws: seq<String>, sep: char, d: set<char>)
    requires sep in d
    requires forall k :: 0 <= k < |ws| ==> ws[k] != [] && DelimFree(ws[k], d)
    ensures Fields(JoinWith(ws, sep), d) == ws
  {
    if ws == [] {
    } else if |ws| == 1 {
      assert ws[0] + [] == ws[0];
      FieldsAfterWord(ws[0], [], d);
    } else {
      var rest := JoinWith(ws[1..], sep);
      FieldsOfJoinWith(ws[1..], sep, d);
      assert ws[0] + [sep] + rest == ws[0] + ([sep] + rest);
      FieldsAfterWord(ws[0], [sep] + rest, d);
      FieldsSkipDelim([sep] + rest, d);
      assert ([sep] + rest)[1..] == rest;
    }
  }

  lemma {:induction false} DropDelimsAppend(a: String, b: String, d: set<char>)
    ensures DropDelims(a + b, d) == DropDelims(a, d) + DropDelims(b, d)
  {
    if a != [] {
      assert (a + b)[1..] == a[1..] + b;
      DropDelimsAppend(a[1..], b, d);
    } else {
      assert a + b == b;
    }
  }

  lemma {:induction false} DropDelimsOfDelimFree(w: String, d: set<char>)
    requires DelimFree(w, d)
    ensures DropDelims(w, d) == w
  {
    if w != [] {
      DropDelimsOfDelimFree(w[1..], d);
      assert w == [w[0]] + w[1..];
    }
  }

  /** The fields hold exactly the non-delimiter characters of the line, in
      order: nothing but delimiters is lost. */
  lemma {:induction false} ConcatFields(s: String, d: set<char>)
    ensures Concat(Fields(s, d)) == DropDelims(s, d)
    decreases |s|
  {
    if s == [] {
    } else if s[0] in d {
      ConcatFields(s[1..], d);
    } else {
      var n := RunLength(s, d);
      ConcatFields(s[n..], d);
      assert s == s[..n] + s[n..];
      DropDelimsAppend(s[..n], s[n..], d);
      DropDelimsOfDelimFree(s[..n], d);
      assert ([s[..n]] + Fields(s[n..], d))[1..] == Fields(s[n..], d);
    }
  }

  /** Every field takes a character and every two fields a delimiter between
      them, so a string holds at most (|s| + 1) / 2 fields, and at most |s| / 2
      when it starts with a delimiter. */
  lemma {:induction false} FieldsCountBound(s: String, d: set<char>)
    ensures 2 * |Fields(s, d)| <= |s| + 1
    ensures s != [] && s[0] in d ==> 2 * |Fields(s, d)| <= |s|
    decreases |s|
  {
    if s == [] {
    } else if s[0] in d {
      FieldsCountBound(s[1..], d);
    } else {
      var n := RunLength(s, d);
      FieldsCountBound(s[n..], d);
    }
  }

  /** A maximal non-empty run starting at `start` is the first field of the
      rest of the line. */
  lemma TokenAt(line: String, d: set<char>, start: nat, end: nat)
    requires start < end <= |line| && DelimFree(line[start..end], d)
    requires end == |line| || line[end] in d
    ensures Fields(line[start..], d) == [line[start..end]] + Fields(line[end..], d)
  {
    var s := line[start..];
    assert s == line[start..end] + line[end..];
    FieldsAfterWord(line[start..end], line[end..], d);
  }

  lemma SkipAt(line: String, d: set<char>, k: nat)
    requires k < |line| && line[k] in d
    ensures Fields(line[k..], d) == Fields(line[k + 1..], d)
  {
    FieldsSkipDelim(line[k..], d);
    assert line[k..][1..] == line[k + 1..];
  }

  /** The span [start, end) of the next field of `line` from `p` on, and the
      point `resume` after it; start == end when no field is left. */
  predicate TokenAhead(line: String, d: set<char>, p: nat, start: nat, end: nat, resume: nat)
  {
    && p <= start <= end <= resume <= |line|
    && (start == end ==> end == |line| && Fields(line[p..], d) == [])
    && (start < end ==> Fields(line[p..], d) == [line[start..end]] + Fields(line[resume..], d))
  }

  /** Where the skipping and scanning loops of strtok stop: a maximal run
      [start, end) after nothing but delimiters is the next field. */
  lemma AheadAt(line: String, d: set<char>, p: nat, start: nat, end: nat)
    requires p <= start <= end <= |line|
    requires Fields(line[p..], d) == Fields(line[start..], d)
    requires start == end ==> end == |line|
    requires forall k :: start <= k < end ==> line[k] !in d
    requires end == |line| || line[end] in d
    ensures TokenAhead(line, d, p, start, end, if end < |line| then end + 1 else end)
  {
    if start == end {
      assert line[start..] == [];
    } else {
      TokenAt(line, d, start, end);
      if end < |line| {
        SkipAt(line, d, end);
      }
    }
  }

  /** One call of strtok on `line` resumed at `p`: skips delimiters, returns
      the span [start, end) of the next token (start == end when there is
      none) and the position the following call resumes from (just past the
      delimiter that strtok overwrites with a NUL). */
  method NextToken(line: String, d: set<char>, p: nat) returns (start: nat, end: nat, resume: nat)
    requires p <= |line|
    ensures TokenAhead(line, d, p, start, end, resume)
  {
    start := p;
    while start < |line| && line[start] in d
      invariant p <= start <= |line|
      invariant Fields(line[p..], d) == Fields(line[start..], d)
    {
      SkipAt(line, d, start);
      start := start + 1;
    }
    end := start;
    while end < |line| && line[end] !in d
      invariant start <= end <= |line|
      invariant forall k :: start <= k < end ==> line[k] !in d
    {
      end := end + 1;
    }
    resume := if end < |line| then end + 1 else end;
    AheadAt(line, d, p, start, end);
  }
}
