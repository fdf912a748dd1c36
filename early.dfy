/** The earlier revision of tosh (tosh.c at the repository root): a reader
    that returns the empty line at EOF instead of exiting, a plain strtok
    split whose tokens point into the line, three builtins (cd, help, quit),
    and a loop that repeats while the status is non-zero. */
module Early {
  import opened Text
  import opened Buffers
  import opened Reader
  import opened Dispatch

  // ---------------------------------------------------------------------
  // Reading a line.

  /** tosh_read_line of the earlier revision: the characters up to the
      newline or EOF are collected into a buffer that grows by ReadBufInc
      whenever the write index reaches its end; EOF is a terminator like the
      newline, so at EOF the line is empty and the shell carries on. */
  method ReadLine(input: String, pos: nat) returns (text: String, next: nat)
    ensures text == LineFrom(input, pos).text
    ensures next == LineFrom(input, pos).next
  {
    var buf, i;
    buf, i, next := ScanLine(input, pos);
    text := buf[..i];
    buf[i] := '\0';
  }

  // ---------------------------------------------------------------------
  // Splitting a line.

  /** Pointer slots by which the token vector grows (SPLIT_BUF_INC). */
  const SplitBufInc: nat := 64

  /** A token of this splitter: strtok's pointer into the line, as the span
      [start, end) it covers up to the NUL strtok writes after it. */
  datatype Span = Span(start: nat, end: nat)

  predicate InLine(line: String, spans: seq<Span>)
  {
    forall k :: 0 <= k < |spans| ==> spans[k].start <= spans[k].end <= |line|
  }

  /** The strings the spans point to. */
  function Slices(line: String, spans: seq<Span>): (ws: seq<String>)
    requires InLine(line, spans)
    ensures |ws| == |spans|
    ensures forall k :: 0 <= k < |spans| ==> ws[k] == line[spans[k].start..spans[k].end]
  {
    seq(|spans|, k requires 0 <= k < |spans| => line[spans[k].start..spans[k].end])
  }

  /** One more span adds its slice at the end. */
  lemma SlicesAppend(line: String, spans: seq<Span>, s: Span)
    requires InLine(line, spans) && s.start <= s.end <= |line|
    ensures InLine(line, spans + [s])
    ensures Slices(line, spans + [s]) == Slices(line, spans) + [line[s.start..s.end]]
  {
  }

  /** Each token strtok returns adds its span, and the split goes on after
      it. */
  lemma KeepSpan(line: String, kept: seq<Span>, p: nat, start: nat, end: nat, resume: nat)
    requires TokenAhead(line, SplitDelims, p, start, end, resume) && start < end
    requires InLine(line, kept)
    requires Fields(line, SplitDelims) == Slices(line, kept) + Fields(line[p..], SplitDelims)
    ensures InLine(line, kept + [Span(start, end)])
    ensures Fields(line, SplitDelims)
      == Slices(line, kept + [Span(start, end)]) + Fields(line[resume..], SplitDelims)
  {
    SlicesAppend(line, kept, Span(start, end));
  }

  /** Once strtok finds no token, every field has its span. */
  lemma NoMoreSpans(line: String, kept: seq<Span>, p: nat, start: nat, end: nat, resume: nat)
    requires TokenAhead(line, SplitDelims, p, start, end, resume) && start == end
    requires InLine(line, kept)
    requires Fields(line, SplitDelims) == Slices(line, kept) + Fields(line[p..], SplitDelims)
    ensures Slices(line, kept) == Fields(line, SplitDelims)
  {
    assert Slices(line, kept) + [] == Slices(line, kept);
  }

  /** The strtok loop of tosh_split_line in the earlier revision: the span
      of every token is stored in turn, the vector growing by SplitBufInc
      slots whenever it is full; the spans cover the line's maximal runs of
      non-delimiters, in order. */
  method CollectSpans(line: String) returns (tokens: array<Ptr<Span>>, n: nat, ghost kept: seq<Span>)
    ensures fresh(tokens)
    ensures n == |kept| < tokens.Length
    ensures Stores(tokens, kept)
    ensures InLine(line, kept)
    ensures Slices(line, kept) == Fields(line, SplitDelims)
  {
    tokens := new Ptr<Span>[SplitBufInc];
    var p := 0;
    n := 0;
    kept := [];
    assert line[p..] == line;
    var start, end, resume := NextToken(line, SplitDelims, p);
    while start < end
      invariant fresh(tokens)
      invariant n == |kept| < tokens.Length
      invariant Stores(tokens, kept)
      invariant InLine(line, kept)
      invariant TokenAhead(line, SplitDelims, p, start, end, resume)
      invariant Fields(line, SplitDelims) == Slices(line, kept) + Fields(line[p..], SplitDelims)
      decreases |line| - p
    {
      KeepSpan(line, kept, p, start, end, resume);
      tokens, n := Append(tokens, n, Span(start, end), SplitBufInc, kept);
      kept := kept + [Span(start, end)];
      p := resume;
      start, end, resume := NextToken(line, SplitDelims, p);
    }
    NoMoreSpans(line, kept, p, start, end, resume);
  }

  /** tosh_split_line of the earlier revision: repeated strtok calls store
      pointers into the line (no copies, no comment handling) in a
      NULL-terminated vector, and the vector always has a slot left for the
      final NULL; the tokens are the line's maximal runs of non-delimiters,
      in order. */
  method SplitLine(line: String) returns (tokens: array<Ptr<Span>>, n: nat)
    ensures fresh(tokens)
    ensures n < tokens.Length && tokens[n] == Null
    ensures forall k :: 0 <= k < n ==> tokens[k].Ptr?
    ensures InLine(line, Values(tokens[..n]))
    ensures Slices(line, Values(tokens[..n])) == Fields(line, SplitDelims)
  {
    ghost var kept;
    tokens, n, kept := CollectSpans(line);
    StoredValues(tokens, kept);
    ghost var stored := tokens[..n];
    tokens[n] := Null;
    assert tokens[..n] == stored;
  }

  /** The tokens of a line, as the strings tosh_exec receives. */
  method Arguments(line: String) returns (args: seq<String>)
    ensures args == Fields(line, SplitDelims)
  {
    var tokens, n := SplitLine(line);
    args := Slices(line, Values(tokens[..n]));
  }

  // ---------------------------------------------------------------------
  // Running a command.

  /** The handlers builtin_func points to in this revision. */
  datatype Handler = CdHandler | HelpHandler | QuitHandler

  /** builtin_str and builtin_func of the earlier revision, in table order. */
  const BuiltinNames: seq<String> := ["cd", "help", "quit"]
  const BuiltinFuncs: seq<Handler> := [CdHandler, HelpHandler, QuitHandler]

  /** The builtins of the earlier revision: cd without a directory is an
      error, otherwise it attempts chdir; help lists the table; quit returns
      0. Everything but quit returns 1. */
  function Invoke(h: Handler, args: seq<String>): Outcome
    requires |args| >= 1
  {
    match h
    case CdHandler => if |args| < 2 then Returned(1, MissingArgument) else Returned(1, ChangeDir(args[1]))
    case HelpHandler => Returned(1, ListBuiltins(BuiltinNames))
    case QuitHandler => Returned(0, NoAction)
  }

  /** What tosh_exec of the earlier revision does with an argument vector. */
  function Dispatched(args: seq<String>): Outcome
  {
    if args == [] then Returned(1, NoAction)
    else
      var i := FirstMatch(BuiltinNames, args[0]);
      if i < |BuiltinFuncs| then Invoke(BuiltinFuncs[i], args)
      else LaunchExternal(args)
  }

  /** tosh_exec: an empty vector returns 1; a first argument exactly equal to
      a table name runs that builtin; anything else is launched. */
  method Exec(args: seq<String>) returns (o: Outcome)
    ensures o == Dispatched(args)
  {
    if args == [] {
      return Returned(1, NoAction);
    }
    var i := 0;
    while i < |BuiltinNames|
      invariant 0 <= i <= |BuiltinNames|
      invariant forall k :: 0 <= k < i ==> BuiltinNames[k] != args[0]
    {
      if args[0] == BuiltinNames[i] {
        FirstMatchSpec(BuiltinNames[i..], args[0]);
        FirstMatchPrefix(BuiltinNames, i, args[0]);
        return Invoke(BuiltinFuncs[i], args);
      }
      i := i + 1;
    }
    FirstMatchPrefix(BuiltinNames, i, args[0]);
    o := LaunchExternal(args);
  }

  /** The cases of dispatch, by name. In this revision "exec" is not a
      builtin and is launched like any other program. */
  lemma DispatchCases(args: seq<String>)
    ensures args == [] ==> Dispatched(args) == Returned(1, NoAction)
    ensures |args| == 1 && args[0] == "cd" ==> Dispatched(args) == Returned(1, MissingArgument)
    ensures |args| >= 2 && args[0] == "cd" ==> Dispatched(args) == Returned(1, ChangeDir(args[1]))
    ensures args != [] && args[0] == "help" ==> Dispatched(args) == Returned(1, ListBuiltins(["cd", "help", "quit"]))
    ensures args != [] && args[0] == "quit" ==> Dispatched(args) == Returned(0, NoAction)
    ensures args != [] && args[0] !in {"cd", "help", "quit"} ==> Dispatched(args) == Returned(1, Launch(args))
  {
    if args != [] {
      FirstMatchSpec(BuiltinNames, args[0]);
      var i := FirstMatch(BuiltinNames, args[0]);
      if i < |BuiltinNames| {
        assert BuiltinNames[i] == args[0];
      } else {
        assert args[0] !in BuiltinNames;
      }
    }
  }

  /** Every command returns to the loop, and it stops it exactly when it is
      quit. */
  lemma StopsExactlyOnQuit(args: seq<String>)
    ensures Dispatched(args).Returned?
    ensures !Continues(Dispatched(args)) <==> args != [] && args[0] == "quit"
  {
    DispatchCases(args);
  }

  // ---------------------------------------------------------------------
  // The loop.

  /** The passes of the loop and whether a zero status ended it. */
  datatype Run = Run(trace: seq<Iteration>, stopped: bool)

  /** At most `fuel` passes of tosh_loop from read position `pos`: read a
      line, split it, run it, repeat while the status is non-zero. */
  function LoopFrom(input: String, pos: nat, fuel: nat): Run
    decreases fuel
  {
    if fuel == 0 then Run([], false)
    else
      var sc := LineFrom(input, pos);
      var args := Fields(sc.text, SplitDelims);
      var o := Dispatched(args);
      if Continues(o) then
        var rest := LoopFrom(input, sc.next, fuel - 1);
        Run([Iteration(sc.text, args, o)] + rest.trace, rest.stopped)
      else Run([Iteration(sc.text, args, o)], true)
  }

  /** A pass that does not stop the loop is followed by the rest of the
      run. */
  lemma LoopStep(input: String, pos: nat, fuel: nat)
    requires fuel > 0
    requires Continues(Dispatched(Fields(LineFrom(input, pos).text, SplitDelims)))
    ensures LoopFrom(input, pos, fuel).trace
      == [Iteration(LineFrom(input, pos).text, Fields(LineFrom(input, pos).text, SplitDelims),
                    Dispatched(Fields(LineFrom(input, pos).text, SplitDelims)))]
         + LoopFrom(input, LineFrom(input, pos).next, fuel - 1).trace
    ensures LoopFrom(input, pos, fuel).stopped == LoopFrom(input, LineFrom(input, pos).next, fuel - 1).stopped
  {
  }

  /** Once the input is used up every pass reads the empty line, runs
      nothing and goes on: the loop never ends at EOF. */
  lemma {:induction false} SpinsAtEndOfInput(input: String, pos: nat, fuel: nat)
    requires pos >= |input|
    ensures LoopFrom(input, pos, fuel).trace == seq(fuel, _ => Iteration([], [], Returned(1, NoAction)))
    ensures !LoopFrom(input, pos, fuel).stopped
    decreases fuel
  {
    if fuel > 0 {
      assert LineFrom(input, pos) == Scanned([], pos);
      assert Fields([], SplitDelims) == [];
      SpinsAtEndOfInput(input, pos, fuel - 1);
      assert seq(fuel, _ => Iteration([], [], Returned(1, NoAction)))
        == [Iteration([], [], Returned(1, NoAction))] + seq(fuel - 1, _ => Iteration([], [], Returned(1, NoAction)));
    }
  }

  /** Every pass ran the tokens of its line. */
  lemma {:induction false} LoopRunsTokens(input: String, pos: nat, fuel: nat)
    ensures forall k :: 0 <= k < |LoopFrom(input, pos, fuel).trace| ==>
      LoopFrom(input, pos, fuel).trace[k].args == Fields(LoopFrom(input, pos, fuel).trace[k].line, SplitDelims)
      && LoopFrom(input, pos, fuel).trace[k].outcome == Dispatched(LoopFrom(input, pos, fuel).trace[k].args)
    decreases fuel
  {
    if fuel > 0 {
      var sc := LineFrom(input, pos);
      if Continues(Dispatched(Fields(sc.text, SplitDelims))) {
        LoopStep(input, pos, fuel);
        LoopRunsTokens(input, sc.next, fuel - 1);
      }
    }
  }

  /** Every pass but the last continued; a run that stopped ended on a zero
      status, and one that did not used all its passes. */
  lemma {:induction false} LoopPasses(input: String, pos: nat, fuel: nat)
    ensures forall k :: 0 <= k < |LoopFrom(input, pos, fuel).trace| - 1 ==>
      Continues(LoopFrom(input, pos, fuel).trace[k].outcome)
    ensures LoopFrom(input, pos, fuel).stopped ==>
      LoopFrom(input, pos, fuel).trace != [] && !Continues(LoopFrom(input, pos, fuel).trace[|LoopFrom(input, pos, fuel).trace| - 1].outcome)
    ensures !LoopFrom(input, pos, fuel).stopped ==> |LoopFrom(input, pos, fuel).trace| == fuel
    decreases fuel
  {
    if fuel > 0 {
      var sc := LineFrom(input, pos);
      if Continues(Dispatched(Fields(sc.text, SplitDelims))) {
        LoopStep(input, pos, fuel);
        LoopPasses(input, sc.next, fuel - 1);
      }
    }
  }

  /** The bound only cuts the run short: with more passes allowed, a run
      extends the shorter one, and a run that stopped is the same. */
  lemma {:induction false} MorePasses(input: String, pos: nat, fuel: nat, more: nat)
    ensures LoopFrom(input, pos, fuel).trace <= LoopFrom(input, pos, fuel + more).trace
    ensures LoopFrom(input, pos, fuel).stopped ==> LoopFrom(input, pos, fuel + more) == LoopFrom(input, pos, fuel)
    decreases fuel
  {
    if fuel > 0 {
      var sc := LineFrom(input, pos);
      if Continues(Dispatched(Fields(sc.text, SplitDelims))) {
        LoopStep(input, pos, fuel);
        LoopStep(input, pos, fuel + more);
        MorePasses(input, sc.next, fuel - 1, more);
      }
    }
  }

  /** tosh_loop of the earlier revision, for at most `fuel` passes: read a
      line, split it, run it, while the status is non-zero. */
  method RunLoop(input: String, fuel: nat) returns (trace: seq<Iteration>, stopped: bool)
    ensures Run(trace, stopped) == LoopFrom(input, 0, fuel)
  {
    var pos, passes := 0, 0;
    trace := [];
    while passes < fuel
      invariant passes <= fuel
      invariant LoopFrom(input, 0, fuel).trace == trace + LoopFrom(input, pos, fuel - passes).trace
      invariant LoopFrom(input, 0, fuel).stopped == LoopFrom(input, pos, fuel - passes).stopped
    {
      var line, next := ReadLine(input, pos);
      var args := Arguments(line);
      var status := Exec(args);
      if !Continues(status) {
        return trace + [Iteration(line, args, status)], true;
      }
      LoopStep(input, pos, fuel - passes);
      trace := trace + [Iteration(line, args, status)];
      pos, passes := next, passes + 1;
    }
    return trace, false;
  }
}
