/** Expanding the argument vector: home-directory substitution of every '~'
    (tosh_expand_string) followed by filename globbing (tosh_expand_args). */
module Expansion {
  import opened Text
  import opened Buffers
  import opened Environment

  const Tilde: char := '~'

  /** Pointer slots by which the expanded vector grows (TOSH_EXPAND_BUF_INC). */
  const ExpandBufInc: nat := 64

  /** The glob resolver: the matches of a pattern in the order glob(3)
      returns them; no match (GLOB_NOMATCH) is the empty sequence. */
  type Glob = String -> seq<String>

  /** HOME values for which the rewrite terminates. */
  predicate HomeUsable(home: Option<String>)
  {
    home.Some? ==> Tilde !in home.value
  }

  lemma {:induction false} CountCharAppend(a: String, b: String, c: char)
    ensures CountChar(a + b, c) == CountChar(a, c) + CountChar(b, c)
  {
    if a == [] {
      assert a + b == b;
    } else {
      assert (a + b)[1..] == a[1..] + b;
      CountCharAppend(a[1..], b, c);
    }
  }

  lemma {:induction false} CountCharAbsent(s: String, c: char)
    ensures c !in s <==> CountChar(s, c) == 0
  {
    if s != [] {
      CountCharAbsent(s[1..], c);
      assert s == [s[0]] + s[1..];
    }
  }

  /** Replacing the first '~' by a tilde-free HOME removes one '~' and grows
      the string by |HOME| - 1. */
  lemma ReplaceFirstTilde(s: String, h: String)
    requires Tilde in s && Tilde !in h
    ensures var k := IndexOf(s, Tilde);
      && CountChar(s[..k] + h + s[k + 1..], Tilde) == CountChar(s, Tilde) - 1
      && |s[..k] + h + s[k + 1..]| == |s| + |h| - 1
  {
    var k := IndexOf(s, Tilde);
    assert s == s[..k] + ([s[k]] + s[k + 1..]);
    CountCharAppend(s[..k], [s[k]] + s[k + 1..], Tilde);
    CountCharAppend([s[k]], s[k + 1..], Tilde);
    CountCharAppend(s[..k] + h, s[k + 1..], Tilde);
    CountCharAppend(s[..k], h, Tilde);
    CountCharAbsent(s[..k], Tilde);
    CountCharAbsent(h, Tilde);
  }

  lemma MulStep(c: int, d: int)
    ensures d + (c - 1) * d == c * d
  {
  }

  /** tosh_expand_string: with HOME unset the string is returned unchanged;
      otherwise the first '~' anywhere in the string is replaced by HOME and
      the result is expanded again, until no '~' is left. */
  function ExpandString(s: String, home: Option<String>): (r: String)
    requires Tilde in s ==> HomeUsable(home)
    ensures home.None? ==> r == s
    ensures Tilde !in s ==> r == s
    ensures home.Some? ==> Tilde !in r
    ensures home.Some? ==> |r| == |s| + CountChar(s, Tilde) * (|home.value| - 1)
    decreases CountChar(s, Tilde)
  {
    if home.None? || Tilde !in s then
      CountCharAbsent(s, Tilde);
      s
    else
      var k := IndexOf(s, Tilde);
      var t := s[..k] + home.value + s[k + 1..];
      ReplaceFirstTilde(s, home.value);
      MulStep(CountChar(s, Tilde), |home.value| - 1);
      ExpandString(t, home)
  }

  /** Reference definition: every '~' replaced by `h`, left to right. */
  function SubstAll(s: String, h: String): String
  {
    if s == [] then []
    else (if s[0] == Tilde then h else [s[0]]) + SubstAll(s[1..], h)
  }

  lemma {:induction false} SubstAllAppend(a: String, b: String, h: String)
    ensures SubstAll(a + b, h) == SubstAll(a, h) + SubstAll(b, h)
  {
    if a == [] {
      assert a + b == b;
    } else {
      assert (a + b)[1..] == a[1..] + b;
      SubstAllAppend(a[1..], b, h);
    }
  }

  lemma {:induction false} SubstAllNoTilde(s: String, h: String)
    requires Tilde !in s
    ensures SubstAll(s, h) == s
  {
    if s != [] {
      SubstAllNoTilde(s[1..], h);
      assert s == [s[0]] + s[1..];
    }
  }

  /** The repeated first-'~' rewrite replaces every '~' of the original
      string by HOME, left to right. */
  lemma {:induction false} ExpandStringIsSubstAll(s: String, h: String)
    requires Tilde !in h
    ensures ExpandString(s, Some(h)) == SubstAll(s, h)
    decreases CountChar(s, Tilde)
  {
    if Tilde !in s {
      SubstAllNoTilde(s, h);
    } else {
      var k := IndexOf(s, Tilde);
      var t := s[..k] + h + s[k + 1..];
      ReplaceFirstTilde(s, h);
      assert ExpandString(s, Some(h)) == ExpandString(t, Some(h));
      ExpandStringIsSubstAll(t, h);
      SubstAllFirstStep(s, h);
    }
  }

  /** Rewriting the first '~' by hand does not change the reference result. */
  lemma SubstAllFirstStep(s: String, h: String)
    requires Tilde in s && Tilde !in h
    ensures var k := IndexOf(s, Tilde);
      SubstAll(s, h) == SubstAll(s[..k] + h + s[k + 1..], h)
  {
    var k := IndexOf(s, Tilde);
    var pre, post := s[..k], s[k + 1..];
    assert s == pre + ([Tilde] + post);
    SubstAllAppend(pre, [Tilde] + post, h);
    SubstAllNoTilde(pre, h);
    assert ([Tilde] + post)[1..] == post;
    assert SubstAll([Tilde] + post, h) == h + SubstAll(post, h);
    assert pre + h + post == pre + (h + post);
    SubstAllAppend(pre, h + post, h);
    SubstAllAppend(h, post, h);
    SubstAllNoTilde(h, h);
  }

  /** What one argument becomes: its tilde expansion when glob finds no
      match, otherwise the matches in the resolver's order. */
  function ExpandOne(arg: String, home: Option<String>, glob: Glob): seq<String>
    requires HomeUsable(home)
  {
    var e := ExpandString(arg, home);
    if glob(e) == [] then [e] else glob(e)
  }

  /** The expanded argument vector: the arguments' expansions, concatenated
      in order. */
  function ExpandedArgs(args: seq<String>, home: Option<String>, glob: Glob): seq<String>
    requires HomeUsable(home)
  {
    if args == [] then [] else ExpandOne(args[0], home, glob) + ExpandedArgs(args[1..], home, glob)
  }

  lemma {:induction false} ExpandedArgsAppend(a: seq<String>, b: seq<String>, home: Option<String>, glob: Glob)
    requires HomeUsable(home)
    ensures ExpandedArgs(a + b, home, glob) == ExpandedArgs(a, home, glob) + ExpandedArgs(b, home, glob)
  {
    if a == [] {
      assert a + b == b;
    } else {
      assert (a + b)[1..] == a[1..] + b;
      ExpandedArgsAppend(a[1..], b, home, glob);
    }
  }

  /** No argument is dropped: every argument yields at least one, so the
      vector never shrinks. */
  lemma {:induction false} ExpandedArgsLength(args: seq<String>, home: Option<String>, glob: Glob)
    requires HomeUsable(home)
    ensures |ExpandedArgs(args, home, glob)| >= |args|
  {
    if args != [] {
      ExpandedArgsLength(args[1..], home, glob);
    }
  }

  /** When glob matches nothing, the vector is the arguments' tilde
      expansions, one for one. */
  lemma {:induction false} ExpandedArgsNoMatch(args: seq<String>, home: Option<String>, glob: Glob)
    requires HomeUsable(home)
    requires forall k :: 0 <= k < |args| ==> glob(ExpandString(args[k], home)) == []
    ensures ExpandedArgs(args, home, glob) == seq(|args|, k requires 0 <= k < |args| => ExpandString(args[k], home))
  {
    if args != [] {
      assert forall k :: 0 <= k < |args| - 1 ==> args[1..][k] == args[k + 1];
      ExpandedArgsNoMatch(args[1..], home, glob);
      assert ExpandOne(args[0], home, glob) == [ExpandString(args[0], home)];
    }
  }

  /** Bytes in a pointer and in a char on the LP64 platforms tosh targets. */
  const PointerSize: nat := 8
  const CharSize: nat := 1

  /** Slots the vector holds after `realloc(newargs, bufsize * sizeof(char))`,
      as written. */
  function SlotsAfterGrowAsWritten(bufsize: nat): nat
  {
    bufsize * CharSize / PointerSize
  }

  /** As written, the first growth (when the 64th argument is stored) leaves
      room for only 16 pointers, so the 65th argument is written out of
      bounds. */
  lemma GrowAsWrittenTooSmall()
    ensures SlotsAfterGrowAsWritten(ExpandBufInc + ExpandBufInc) == 16
    ensures SlotsAfterGrowAsWritten(ExpandBufInc + ExpandBufInc) <= ExpandBufInc
  {
  }

  /** Slots after `realloc(newargs, bufsize * sizeof(char *))`, the evidently
      intended call: exactly the requested count. */
  function SlotsAfterGrow(bufsize: nat): (slots: nat)
    ensures slots == bufsize
  {
    bufsize * PointerSize / PointerSize
  }

  lemma ExpandedArgsStep(args: seq<String>, i: nat, home: Option<String>, glob: Glob)
    requires HomeUsable(home) && i < |args|
    ensures ExpandedArgs(args[..i + 1], home, glob)
         == ExpandedArgs(args[..i], home, glob) + ExpandOne(args[i], home, glob)
  {
    ExpandedArgsAppend(args[..i], [args[i]], home, glob);
    assert args[..i + 1] == args[..i] + [args[i]];
    assert ExpandedArgs([args[i]], home, glob) == ExpandOne(args[i], home, glob) + ExpandedArgs([], home, glob);
  }

  /** Stores `x` in the next free slot and grows the vector by ExpandBufInc
      slots when that fills it, so a free slot always remains. */
  method Push(buf: array<Ptr<String>>, k: nat, x: String) returns (buf': array<Ptr<String>>, k': nat)
    requires k < buf.Length
    modifies buf
    ensures buf' == buf || fresh(buf')
    ensures buf'.Length == if k + 1 < buf.Length then buf.Length else buf.Length + ExpandBufInc
    ensures k' == k + 1 && k' < buf'.Length
    ensures forall m :: 0 <= m < k ==> buf'[m] == old(buf[m])
    ensures buf'[k] == Ptr(x)
  {
    buf[k] := Ptr(x);
    k' := k + 1;
    buf' := buf;
    if k' >= buf.Length {
      buf' := Realloc(buf, SlotsAfterGrow(buf.Length + ExpandBufInc));
    }
  }

  /** Stores the strings `xs` one after another after the `done` ones. */
  method PushAll(buf: array<Ptr<String>>, k: nat, xs: seq<String>, ghost done: seq<String>)
    returns (buf': array<Ptr<String>>, k': nat)
    requires k == |done| < buf.Length && Stores(buf, done)
    modifies buf
    ensures buf' == buf || fresh(buf')
    ensures k' == |done + xs| < buf'.Length
    ensures Stores(buf', done + xs)
  {
    buf', k' := buf, k;
    var j := 0;
    while j < |xs|
      invariant buf' == buf || fresh(buf')
      invariant 0 <= j <= |xs|
      invariant k' == |done + xs[..j]| < buf'.Length
      invariant Stores(buf', done + xs[..j])
    {
      buf', k' := Push(buf', k', xs[j]);
      assert done + xs[..j + 1] == (done + xs[..j]) + [xs[j]];
      j := j + 1;
    }
    assert xs[..j] == xs;
  }

  /** tosh_expand_args: each argument is tilde-expanded and globbed, and the
      results are stored in a vector that grows by ExpandBufInc slots
      whenever it is full, so a free slot remains after the last one. The
      closing NULL that the loop and tosh_execute rely on is stored there
      (the source never writes it). */
  method ExpandArgs(args: seq<String>, home: Option<String>, glob: Glob) returns (newargs: seq<String>)
    requires HomeUsable(home)
    ensures newargs == ExpandedArgs(args, home, glob)
  {
    var buf := new Ptr<String>[ExpandBufInc];
    var i, k := 0, 0;
    ghost var done: seq<String> := [];
    while i < |args|
      invariant fresh(buf)
      invariant 0 <= i <= |args|
      invariant k == |done| < buf.Length
      invariant Stores(buf, done)
      invariant done == ExpandedArgs(args[..i], home, glob)
    {
      var e := ExpandString(args[i], home);
      var globbed := glob(e);
      var found := if globbed == [] then [e] else globbed;
      buf, k := PushAll(buf, k, found, done);
      ExpandedArgsStep(args, i, home, glob);
      done := done + found;
      i := i + 1;
    }
    assert args[..i] == args;
    StoredValues(buf, done);
    ghost var stored := buf[..k];
    buf[k] := Null;
    assert buf[..k] == stored;
    newargs := Values(buf[..k]);
  }
}
