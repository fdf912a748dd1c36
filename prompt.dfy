/** The prompt: the TOSH_PROMPT format language (tosh_prompt) and the
    working-directory display it uses (tosh_show_path). */
module Prompt {
  import opened Text
  import opened Environment

  /** Printed text, and the index of its colour in the table RED, GRN, YEL,
      BLU, MAG, CYN, WHT when it is printed in colour. */
  datatype Piece = Piece(text: String, colour: Option<nat>)

  const NumColours: nat := 7
  const Red: nat := 0
  const Green: nat := 1

  const PathDelims: set<char> := {'/'}

  /** The non-empty '/'-separated components strtok finds in a path. */
  function Components(path: String): seq<String>
  {
    Fields(path, PathDelims)
  }

  /** The components a display of the last `n` shows: all of them when n is
      zero or there are fewer than n. */
  function LastComponents(path: String, n: nat): (cs: seq<String>)
    ensures |cs| <= |Components(path)|
    ensures cs == Components(path)[|Components(path)| - |cs|..]
    ensures n == 0 || |Components(path)| <= n ==> cs == Components(path)
    ensures 0 < n <= |Components(path)| ==> |cs| == n
  {
    var all := Components(path);
    if n == 0 || |all| <= n then all else all[|all| - n..]
  }

  /** Each component followed by '/', coloured from index j on when
      `rainbow` is set; the index advances by two per component (one for the
      j++ of the colour lookup, one for the step that follows). */
  function ShowComponents(cs: seq<String>, rainbow: bool, j: nat): seq<Piece>
  {
    if cs == [] then []
    else
      [Piece(cs[0], if rainbow then Some(j) else None), Piece("/", None)]
      + ShowComponents(cs[1..], rainbow, if rainbow then (j + 2) % NumColours else (j + 1) % NumColours)
  }

  /** tosh_show_path: a single '/' for an absolute path, then the last n
      components, each followed by '/'. */
  function ShowPath(path: String, n: nat, rainbow: bool): seq<Piece>
  {
    RootMark(path) + ShowComponents(LastComponents(path, n), rainbow, 0)
  }

  /** The single '/' printed first for an absolute path. */
  function RootMark(path: String): seq<Piece>
  {
    if |path| > 0 && path[0] == '/' then [Piece("/", None)] else []
  }

  /** Each component is shown with one '/' after it. */
  lemma {:induction false} ShowComponentsLength(cs: seq<String>, rainbow: bool, j: nat)
    ensures |ShowComponents(cs, rainbow, j)| == 2 * |cs|
  {
    if cs != [] {
      ShowComponentsLength(cs[1..], rainbow, if rainbow then (j + 2) % NumColours else (j + 1) % NumColours);
    }
  }

  /** Advancing the colour index by two, k times, lands on j + 2k mod 7. */
  lemma ColourShift(j: nat, k: nat)
    requires k > 0
    ensures ((j + 2) % NumColours + 2 * (k - 1)) % NumColours == (j + 2 * k) % NumColours
  {
    var q := (j + 2) / NumColours;
    assert j + 2 == NumColours * q + (j + 2) % NumColours;
    assert (j + 2) % NumColours + 2 * (k - 1) == (j + 2 * k) - NumColours * q;
  }

  /** The k-th component is shown at 2k, coloured 2k steps after `j` in
      rainbow mode, and followed by an uncoloured '/'. */
  lemma {:induction false} ShowComponentsAt(cs: seq<String>, rainbow: bool, j: nat, k: nat)
    requires j < NumColours && k < |cs|
    ensures 2 * k + 1 < |ShowComponents(cs, rainbow, j)|
    ensures ShowComponents(cs, rainbow, j)[2 * k] ==
      Piece(cs[k], if rainbow then Some((j + 2 * k) % NumColours) else None)
    ensures ShowComponents(cs, rainbow, j)[2 * k + 1] == Piece("/", None)
  {
    var j' := if rainbow then (j + 2) % NumColours else (j + 1) % NumColours;
    var rest := ShowComponents(cs[1..], rainbow, j');
    var head := [Piece(cs[0], if rainbow then Some(j) else None), Piece("/", None)];
    assert ShowComponents(cs, rainbow, j) == head + rest;
    ShowComponentsLength(cs[1..], rainbow, j');
    if k > 0 {
      ShowComponentsAt(cs[1..], rainbow, j', k - 1);
      assert (head + rest)[2 * k] == rest[2 * (k - 1)];
      assert (head + rest)[2 * k + 1] == rest[2 * (k - 1) + 1];
      if rainbow {
        ColourShift(j, k);
      }
    }
  }

  /** The display shows exactly the last n components (all of them for n = 0
      or when there are fewer), in order, each followed by an uncoloured '/',
      after one '/' for an absolute path; with `rainbow` the k-th component
      shown takes colour 2k mod 7 (red, yellow, magenta, white, green, ...),
      and without it nothing is coloured. */
  lemma ShowPathSpec(path: String, n: nat, rainbow: bool, k: nat)
    requires k < |LastComponents(path, n)|
    ensures var lead := if |path| > 0 && path[0] == '/' then 1 else 0;
      var shown := LastComponents(path, n);
      && |ShowPath(path, n, rainbow)| == lead + 2 * |shown|
      && (lead == 1 ==> ShowPath(path, n, rainbow)[0] == Piece("/", None))
      && ShowPath(path, n, rainbow)[lead + 2 * k] ==
           Piece(shown[k], if rainbow then Some((2 * k) % NumColours) else None)
      && ShowPath(path, n, rainbow)[lead + 2 * k + 1] == Piece("/", None)
  {
    ShowComponentsLength(LastComponents(path, n), rainbow, 0);
    ShowComponentsAt(LastComponents(path, n), rainbow, 0, k);
  }

  /** Whatever is shown, the display is one '/' for an absolute path
      followed by two pieces per component shown; with no component shown
      (the root directory, or nothing left to show) it is the root mark
      alone. */
  lemma ShowPathShape(path: String, n: nat, rainbow: bool)
    ensures var lead := if |path| > 0 && path[0] == '/' then 1 else 0;
      && |ShowPath(path, n, rainbow)| == lead + 2 * |LastComponents(path, n)|
      && (lead == 1 ==> ShowPath(path, n, rainbow)[0] == Piece("/", None))
    ensures LastComponents(path, n) == [] ==> ShowPath(path, n, rainbow) == RootMark(path)
  {
    ShowComponentsLength(LastComponents(path, n), rainbow, 0);
  }

  /** Entries of the `components` array as written: strlen of the path after
      the first strtok call has cut it with a NUL at the end of its first
      component. */
  function ComponentsCapacityAsWritten(path: String): nat
  {
    var lead := |path| - |DropLeadingSlashes(path)|;
    lead + RunLength(DropLeadingSlashes(path), PathDelims)
  }

  function DropLeadingSlashes(path: String): (rest: String)
    ensures |rest| <= |path|
  {
    if path != [] && path[0] == '/' then DropLeadingSlashes(path[1..]) else path
  }

  /** As written, "/a/b" gives the array two entries, but its two
      components and the terminating NULL need three. */
  lemma ComponentsOverflowAsWritten()
    ensures ComponentsCapacityAsWritten("/a/b") == 2
    ensures |Components("/a/b")| + 1 == 3
  {
    var p: String := "/a/b";
    assert DropLeadingSlashes(p) == "a/b";
    assert RunLength("a/b", PathDelims) == 1 by {
      RunLengthExact("a/b", PathDelims, 1);
    }
    FieldsSkipDelim(p, PathDelims);
    assert p[1..] == "a" + "/b";
    FieldsAfterWord("a", "/b", PathDelims);
    FieldsSkipDelim("/b", PathDelims);
    assert "/b"[1..] == "b" + "";
    FieldsAfterWord("b", "", PathDelims);
    assert Components(p) == ["a", "b"];
  }

  /** Entries of `components` sized, as evidently intended, from the whole
      path before strtok cuts it. */
  function ComponentsCapacity(path: String): nat
  {
    |path|
  }

  /** For the absolute paths getcwd returns, the full length leaves room for
      every component and the terminating NULL. */
  lemma ComponentsCapacitySuffices(path: String)
    requires |path| > 0 && path[0] == '/'
    ensures |Components(path)| + 1 <= ComponentsCapacity(path)
  {
    FieldsCountBound(path, PathDelims);
  }

  // ---------------------------------------------------------------------
  // The format language.

  /** One directive of the format: a literal character, %p (with an optional
      digit giving the number of components, and an optional 'r' for colour),
      %n, %h, an unknown %x (prints nothing), or a '%' at the very end. */
  datatype Directive =
    | Literal(c: char)
    | CwdPath(levels: Option<nat>, rainbow: bool)
    | UserName
    | HostName
    | Unknown
    | Dangling

  datatype Parsed = Parsed(directive: Directive, next: nat)

  predicate IsDigit(c: char)
  {
    '0' <= c <= '9'
  }

  /** atoi: the value of the leading run of digits. */
  function Atoi(s: String): nat
  {
    AtoiFrom(s, 0)
  }

  function AtoiFrom(s: String, acc: nat): nat
  {
    if s != [] && IsDigit(s[0]) then AtoiFrom(s[1..], acc * 10 + (s[0] as int - '0' as int)) else acc
  }

  /** The format as the C string the loop walks: the text and one NUL. */
  predicate IsCString(cs: String)
  {
    |cs| > 0 && cs[|cs| - 1] == '\0' && '\0' !in cs[..|cs| - 1]
  }

  lemma NonNulBeforeEnd(cs: String, k: nat)
    requires IsCString(cs) && k < |cs| && cs[k] != '\0'
    ensures k < |cs| - 1
  {
  }

  /** The directive at index i and the index the loop reads next. The
      digit after %p is consumed as one character although atoi reads all
      the digits that follow; a '%' just before the NUL stops at the NUL. */
  function ParseAt(cs: String, i: nat): (r: Parsed)
    requires IsCString(cs) && i < |cs| - 1
    ensures i < r.next <= |cs| - 1
  {
    if cs[i] != '%' then Parsed(Literal(cs[i]), i + 1)
    else if cs[i + 1] == '\0' then Parsed(Dangling, i + 1)
    else
      NonNulBeforeEnd(cs, i + 1);
      if cs[i + 1] == 'p' then
        var digit := IsDigit(cs[i + 2]);
        var j := if digit then i + 2 else i + 1;
        if digit then NonNulBeforeEnd(cs, i + 2); Parsed(CwdPath(Some(Atoi(cs[i + 2..])), cs[j + 1] == 'r'), if cs[j + 1] == 'r' then j + 2 else j + 1)
        else Parsed(CwdPath(None, cs[j + 1] == 'r'), if cs[j + 1] == 'r' then j + 2 else j + 1)
      else if cs[i + 1] == 'n' then Parsed(UserName, i + 2)
      else if cs[i + 1] == 'h' then Parsed(HostName, i + 2)
      else Parsed(Unknown, i + 2)
  }

  /** The index the loop reads after a '%' at i that is not %p, as written:
      `switch (TOSH_PROMPT[++i])` consumes the next character even when it is
      the terminating NUL, and the loop header adds one more. */
  function NextIndexAsWritten(cs: String, i: nat): nat
    requires i + 1 < |cs| && cs[i] == '%' && cs[i + 1] != 'p'
  {
    (i + 1) + 1
  }

  /** As written, the format "%" makes the loop read index 2 of the
      two-character C string "%\0": one past its NUL. */
  lemma TrailingPercentAsWritten()
    ensures var cs := ['%', '\0'];
      IsCString(cs) && NextIndexAsWritten(cs, 0) == |cs|
  {
  }

  /** The pieces a directive prints, with the current %p level. */
  function Emit(d: Directive, levels: nat, cwd: String, user: Option<String>, host: String): seq<Piece>
  {
    match d
    case Literal(c) => [Piece([c], None)]
    case CwdPath(lv, rainbow) => ShowPath(cwd, if lv.Some? then lv.value else levels, rainbow)
    case UserName => if user.Some? then [Piece(user.value, Some(Red))] else []
    case HostName => [Piece(host, Some(Green))]
    case Unknown => []
    case Dangling => []
  }

  /** The %p level after a directive: a digit sets it for the rest of the
      prompt. */
  function LevelsAfter(d: Directive, levels: nat): nat
  {
    if d.CwdPath? && d.levels.Some? then d.levels.value else levels
  }

  function RenderFrom(cs: String, i: nat, levels: nat, cwd: String, user: Option<String>, host: String): seq<Piece>
    requires IsCString(cs) && i <= |cs| - 1
    decreases |cs| - i
  {
    if i == |cs| - 1 then []
    else
      var p := ParseAt(cs, i);
      Emit(p.directive, levels, cwd, user, host) + RenderFrom(cs, p.next, LevelsAfter(p.directive, levels), cwd, user, host)
  }

  /** The whole prompt for a format, the working directory, USER (None when
      unset) and the host name. */
  function Rendered(fmt: String, cwd: String, user: Option<String>, host: String): seq<Piece>
    requires '\0' !in fmt
  {
    assert (fmt + ['\0'])[..|fmt|] == fmt;
    RenderFrom(fmt + ['\0'], 0, 0, cwd, user, host)
  }

  /** One pass of the loop of tosh_prompt at index i of the C string: the
      pieces printed, the index after the loop's own increment, and the %p
      level. */
  method PromptStep(cs: String, i: nat, levels: nat, cwd: String, user: Option<String>, host: String)
    returns (pieces: seq<Piece>, i': nat, levels': nat)
    requires IsCString(cs) && i < |cs| - 1
    ensures i' == ParseAt(cs, i).next
    ensures levels' == LevelsAfter(ParseAt(cs, i).directive, levels)
    ensures pieces == Emit(ParseAt(cs, i).directive, levels, cwd, user, host)
  {
    i', levels', pieces := i, levels, [];
    var c := cs[i'];
    if c == '%' {
      if cs[i' + 1] == '\0' {
        // A '%' at the very end: stop at the NUL.
        i' := i' + 1;
      } else {
        i' := i' + 1;
        NonNulBeforeEnd(cs, i');
        if cs[i'] == 'p' {
          if IsDigit(cs[i' + 1]) {
            levels' := Atoi(cs[i' + 1..]);
            i' := i' + 1;
          }
          NonNulBeforeEnd(cs, i');
          if cs[i' + 1] == 'r' {
            pieces := ShowPath(cwd, levels', true);
            i' := i' + 1;
          } else {
            pieces := ShowPath(cwd, levels', false);
          }
        } else if cs[i'] == 'n' {
          if user.Some? {
            pieces := [Piece(user.value, Some(Red))];
          }
        } else if cs[i'] == 'h' {
          pieces := [Piece(host, Some(Green))];
        }
        i' := i' + 1;
      }
    } else {
      pieces := [Piece([c], None)];
      i' := i' + 1;
    }
  }

  /** tosh_prompt: walks the format up to its NUL, printing ordinary
      characters as they are and interpreting %p[digit][r], %n and %h; the
      scan never passes the terminating NUL. */
  method ShowPrompt(fmt: String, cwd: String, user: Option<String>, host: String) returns (out: seq<Piece>)
    requires '\0' !in fmt
    ensures out == Rendered(fmt, cwd, user, host)
  {
    var cs := fmt + ['\0'];
    assert cs[..|fmt|] == fmt;
    var i, levels := 0, 0;
    out := [];
    while cs[i] != '\0'
      invariant i <= |fmt|
      invariant out + RenderFrom(cs, i, levels, cwd, user, host) == RenderFrom(cs, 0, 0, cwd, user, host)
      decreases |fmt| - i
    {
      NonNulBeforeEnd(cs, i);
      var pieces, i', levels' := PromptStep(cs, i, levels, cwd, user, host);
      assert RenderFrom(cs, i, levels, cwd, user, host) == pieces + RenderFrom(cs, i', levels', cwd, user, host);
      out, i, levels := out + pieces, i', levels';
    }
    assert out + [] == out;
  }
}
