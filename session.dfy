/** The main loop of src/tosh.c (tosh_loop): sync the option variables,
    read a line, record it, split it, expand it, run it; repeat while the
    command returns a non-zero status. */
module Session {
  import opened Text
  import opened Environment
  import opened Reader
  import opened Splitter
  import opened Expansion
  import opened Dispatch
  import opened Options
  import opened History

  /** How the loop ends: EOF at the start of a line exits the process with
      success; a zero status ends the loop; exec may replace the process. */
  datatype Ending = AtEndOfInput | Stopped | ReplacedBy(argv: seq<String>)

  /** What running one line does: its arguments after expansion, and the
      outcome of running them. */
  datatype Command = Command(args: seq<String>, outcome: Outcome)

  /** The passes of a run, how it ended, and the history stream at the end. */
  datatype Run = Run(trace: seq<Iteration>, ending: Ending, history: FileState)

  /** How a line is run, given the state the loop holds fixed. */
  type Interpreter = String -> Command

  /** A line that is read ends past where it started and within the
      input. */
  lemma LineProgress(input: String, p: nat)
    requires Peek(input, p) != EndOfInput
    ensures p < LineFrom(input, p).next <= |input|
  {
    LineFromSpec(input, p);
  }

  /** The passes from read position `pos` on, each line run by `interpret`
      and recorded in the history. */
  function LoopFrom(history: FileState, pos: nat, input: String, interpret: Interpreter): Run
    requires Positioned(history)
    decreases |input| - pos
  {
    if Peek(input, pos) == EndOfInput then Run([], AtEndOfInput, history)
    else
      var sc := LineFrom(input, pos);
      LineProgress(input, pos);
      var c := interpret(sc.text);
      var it := Iteration(sc.text, c.args, c.outcome);
      var h := Recorded(history, sc.text);
      if Continues(c.outcome) then
        var rest := LoopFrom(h, sc.next, input, interpret);
        Run([it] + rest.trace, rest.ending, rest.history)
      else Run([it], if c.outcome.Replaced? then ReplacedBy(c.outcome.argv) else Stopped, h)
  }

  /** One pass that continues: the run is that pass followed by the run from
      the next line, with the line recorded. */
  lemma LoopStep(history: FileState, pos: nat, input: String, interpret: Interpreter)
    requires Positioned(history) && Peek(input, pos) != EndOfInput
    requires Continues(interpret(LineFrom(input, pos).text).outcome)
    ensures LineFrom(input, pos).next > pos
    ensures Positioned(Recorded(history, LineFrom(input, pos).text))
    ensures var line := LineFrom(input, pos).text;
      var rest := LoopFrom(Recorded(history, line), LineFrom(input, pos).next, input, interpret);
      LoopFrom(history, pos, input, interpret)
        == Run([Iteration(line, interpret(line).args, interpret(line).outcome)] + rest.trace, rest.ending, rest.history)
  {
    LineProgress(input, pos);
  }

  /** A pass that stops the loop is its last, with the line recorded. */
  lemma LoopStop(history: FileState, pos: nat, input: String, interpret: Interpreter)
    requires Positioned(history) && Peek(input, pos) != EndOfInput
    requires !Continues(interpret(LineFrom(input, pos).text).outcome)
    ensures LoopFrom(history, pos, input, interpret).trace
      == [Iteration(LineFrom(input, pos).text, interpret(LineFrom(input, pos).text).args,
                    interpret(LineFrom(input, pos).text).outcome)]
    ensures LoopFrom(history, pos, input, interpret).history == Recorded(history, LineFrom(input, pos).text)
  {
    LineProgress(input, pos);
  }

  /** Recording one line is recording the one-line journal. */
  lemma StopRecordsLine(history: FileState, it: Iteration)
    requires Positioned(history)
    ensures Recorded(history, it.line) == RecordedAll(history, Lines([it]))
  {
    RecordedThenAll(history, it.line, []);
    RecordedNothing(Recorded(history, it.line));
    assert Lines([it]) == [it.line] + [];
  }

  /** The last pass of a trace. */
  function Last(trace: seq<Iteration>): Iteration
    requires trace != []
  {
    trace[|trace| - 1]
  }

  /** The lines of a trace. */
  function Lines(trace: seq<Iteration>): (ls: seq<String>)
    ensures |ls| == |trace|
    ensures forall k :: 0 <= k < |trace| ==> ls[k] == trace[k].line
  {
    seq(|trace|, k requires 0 <= k < |trace| => trace[k].line)
  }

  lemma LinesCons(it: Iteration, trace: seq<Iteration>)
    ensures Lines([it] + trace) == [it.line] + Lines(trace)
  {
  }

  /** Every pass but the last continues: the loop goes on exactly while the
      status is non-zero. */
  lemma {:induction false} LoopContinuesUntilLast(history: FileState, pos: nat, input: String, interpret: Interpreter)
    requires Positioned(history)
    ensures forall k :: 0 <= k < |LoopFrom(history, pos, input, interpret).trace| - 1 ==>
      Continues(LoopFrom(history, pos, input, interpret).trace[k].outcome)
    decreases |input| - pos
  {
    if Peek(input, pos) != EndOfInput {
      var sc := LineFrom(input, pos);
      LineProgress(input, pos);
      if Continues(interpret(sc.text).outcome) {
        LoopContinuesUntilLast(Recorded(history, sc.text), sc.next, input, interpret);
      }
    }
  }

  /** The loop ends at EOF exactly when every pass continued; otherwise its
      last pass returned zero (Stopped) or replaced the process. */
  lemma {:induction false} LoopEnding(history: FileState, pos: nat, input: String, interpret: Interpreter)
    requires Positioned(history)
    ensures LoopFrom(history, pos, input, interpret).ending == AtEndOfInput <==>
      LoopFrom(history, pos, input, interpret).trace == [] || Continues(Last(LoopFrom(history, pos, input, interpret).trace).outcome)
    ensures LoopFrom(history, pos, input, interpret).ending == Stopped ==>
      LoopFrom(history, pos, input, interpret).trace != [] && Last(LoopFrom(history, pos, input, interpret).trace).outcome.Returned?
    ensures LoopFrom(history, pos, input, interpret).ending.ReplacedBy? ==>
      LoopFrom(history, pos, input, interpret).trace != [] && Last(LoopFrom(history, pos, input, interpret).trace).outcome == Replaced(LoopFrom(history, pos, input, interpret).ending.argv)
    decreases |input| - pos
  {
    if Peek(input, pos) != EndOfInput {
      var sc := LineFrom(input, pos);
      LineProgress(input, pos);
      if Continues(interpret(sc.text).outcome) {
        var h := Recorded(history, sc.text);
        LoopEnding(h, sc.next, input, interpret);
        var rest := LoopFrom(h, sc.next, input, interpret);
        var it := Iteration(sc.text, interpret(sc.text).args, interpret(sc.text).outcome);
        if rest.trace != [] {
          assert Last([it] + rest.trace) == Last(rest.trace);
        }
      }
    }
  }

  /** Every pass is the interpretation of its line. */
  lemma {:induction false} LoopInterprets(history: FileState, pos: nat, input: String, interpret: Interpreter)
    requires Positioned(history)
    ensures forall k :: 0 <= k < |LoopFrom(history, pos, input, interpret).trace| ==>
      Command(LoopFrom(history, pos, input, interpret).trace[k].args, LoopFrom(history, pos, input, interpret).trace[k].outcome) == interpret(LoopFrom(history, pos, input, interpret).trace[k].line)
    decreases |input| - pos
  {
    if Peek(input, pos) != EndOfInput {
      var sc := LineFrom(input, pos);
      LineProgress(input, pos);
      if Continues(interpret(sc.text).outcome) {
        LoopInterprets(Recorded(history, sc.text), sc.next, input, interpret);
      }
    }
  }

  /** The history ends up holding exactly the lines read, in order. */
  lemma {:induction false} LoopRecordsLines(history: FileState, pos: nat, input: String, interpret: Interpreter)
    requires Positioned(history)
    ensures LoopFrom(history, pos, input, interpret).history == RecordedAll(history, Lines(LoopFrom(history, pos, input, interpret).trace))
    decreases |input| - pos
  {
    if Peek(input, pos) == EndOfInput {
      RecordedNothing(history);
    } else {
      var sc := LineFrom(input, pos);
      var c := interpret(sc.text);
      var it := Iteration(sc.text, c.args, c.outcome);
      var h := Recorded(history, sc.text);
      if Continues(c.outcome) {
        LoopStep(history, pos, input, interpret);
        LoopRecordsLines(h, sc.next, input, interpret);
        var rest := LoopFrom(h, sc.next, input, interpret);
        RecordedThenAll(history, sc.text, Lines(rest.trace));
        LinesCons(it, rest.trace);
      } else {
        LoopStop(history, pos, input, interpret);
        StopRecordsLine(history, it);
      }
    }
  }

  /** Recording no lines leaves the file as it was. */
  lemma RecordedNothing(f: FileState)
    requires Positioned(f)
    ensures RecordedAll(f, []) == f
  {
    assert f.contents == f.contents[..f.pos] + [] + f.contents[f.pos..];
  }

  /** What tosh_loop does with one line, HOME taken from the environment:
      split it, expand the words, dispatch the result. */
  function Interpret(line: String, home: Option<String>, glob: Glob, execvp: Execvp): Command
    requires HomeUsable(home)
  {
    var args := ExpandedArgs(CommandWords(line), home, glob);
    Command(args, Dispatched(args, home, execvp))
  }

  /** The interpreter the loop runs with a fixed HOME. */
  function Interpreting(home: Option<String>, glob: Glob, execvp: Execvp): Interpreter
    requires HomeUsable(home)
  {
    line => Interpret(line, home, glob, execvp)
  }

  /** The shell's run over the input, from an option table, an environment
      whose HOME has no '~', and an open history stream. The table is synced
      at the top of every pass, but after the first sync nothing changes it
      (a second sync is a no-op and no builtin sets a variable), so every
      line runs with the synced table's HOME. */
  function Session(table: Table, history: FileState, input: String, glob: Glob, execvp: Execvp): Run
    requires WellFormed(table) && Positioned(history) && HomeUsable(Home(table.env))
  {
    SyncKeepsHome(table);
    LoopFrom(history, 0, input, Interpreting(Home(Synced(table).env), glob, execvp))
  }

  /** Syncing never touches HOME. */
  lemma SyncKeepsHome(t: Table)
    requires WellFormed(t)
    ensures Home(Synced(t).env) == Home(t.env)
  {
    SyncAgrees(t);
    assert "HOME" !in OptionNames;
  }

  /** The session is the loop run with the HOME of the table's
      environment. */
  lemma SessionLoop(table: Table, history: FileState, input: String, glob: Glob, execvp: Execvp)
    requires WellFormed(table) && Positioned(history) && HomeUsable(Home(table.env))
    ensures Session(table, history, input, glob, execvp)
      == LoopFrom(history, 0, input, Interpreting(Home(table.env), glob, execvp))
  {
    SyncKeepsHome(table);
  }

  /** Every pass ran the expanded words of its line, with HOME from the
      environment. */
  lemma SessionRunsExpandedWords(table: Table, history: FileState, input: String, glob: Glob, execvp: Execvp)
    requires WellFormed(table) && Positioned(history) && HomeUsable(Home(table.env))
    ensures forall k :: 0 <= k < |Session(table, history, input, glob, execvp).trace| ==>
      Session(table, history, input, glob, execvp).trace[k].args
        == ExpandedArgs(CommandWords(Session(table, history, input, glob, execvp).trace[k].line), Home(table.env), glob)
    ensures forall k :: 0 <= k < |Session(table, history, input, glob, execvp).trace| ==>
      Session(table, history, input, glob, execvp).trace[k].outcome
        == Dispatched(Session(table, history, input, glob, execvp).trace[k].args, Home(table.env), execvp)
  {
    SessionLoop(table, history, input, glob, execvp);
    LoopInterprets(history, 0, input, Interpreting(Home(table.env), glob, execvp));
  }

  /** Only exec and quit end the loop: each earlier pass ran something else
      (or nothing), and a run that did not meet EOF ended on one of them. */
  lemma SessionStopsOnExecOrQuit(table: Table, history: FileState, input: String, glob: Glob, execvp: Execvp)
    requires WellFormed(table) && Positioned(history) && HomeUsable(Home(table.env))
    ensures forall k :: 0 <= k < |Session(table, history, input, glob, execvp).trace| - 1 ==>
      !ExecOrQuit(Session(table, history, input, glob, execvp).trace[k].args)
    ensures Session(table, history, input, glob, execvp).ending != AtEndOfInput ==>
      Session(table, history, input, glob, execvp).trace != [] &&
      ExecOrQuit(Last(Session(table, history, input, glob, execvp).trace).args)
  {
    var home := Home(table.env);
    var interpret := Interpreting(home, glob, execvp);
    SessionLoop(table, history, input, glob, execvp);
    LoopInterprets(history, 0, input, interpret);
    LoopContinuesUntilLast(history, 0, input, interpret);
    LoopEnding(history, 0, input, interpret);
    var trace := LoopFrom(history, 0, input, interpret).trace;
    forall k | 0 <= k < |trace|
      ensures !Continues(trace[k].outcome) <==> ExecOrQuit(trace[k].args)
    {
      StopsExactlyOnExecOrQuit(trace[k].args, home, execvp);
    }
  }

  /** A line without command words (blank, or only a comment) runs nothing
      and the loop goes on. */
  lemma BlankLineContinues(table: Table, history: FileState, input: String, glob: Glob, execvp: Execvp)
    requires WellFormed(table) && Positioned(history) && HomeUsable(Home(table.env))
    requires Peek(input, 0) != EndOfInput && CommandWords(LineFrom(input, 0).text) == []
    ensures Session(table, history, input, glob, execvp).trace != []
    ensures Session(table, history, input, glob, execvp).trace[0]
      == Iteration(LineFrom(input, 0).text, [], Returned(1, NoAction))
  {
    SessionLoop(table, history, input, glob, execvp);
  }

  /** The line "quit" (whose word globs to nothing) ends the loop after that
      one pass. */
  lemma QuitStops(table: Table, history: FileState, input: String, glob: Glob, execvp: Execvp)
    requires WellFormed(table) && Positioned(history) && HomeUsable(Home(table.env))
    requires Peek(input, 0) != EndOfInput
    requires CommandWords(LineFrom(input, 0).text) == ["quit"] && glob("quit") == []
    ensures Session(table, history, input, glob, execvp).trace
      == [Iteration(LineFrom(input, 0).text, ["quit"], Returned(0, NoAction))]
    ensures Session(table, history, input, glob, execvp).ending == Stopped
  {
    SessionLoop(table, history, input, glob, execvp);
    var interpret := Interpreting(Home(table.env), glob, execvp);
    InterpretQuit(LineFrom(input, 0).text, Home(table.env), glob, execvp);
    LoopStop(history, 0, input, interpret);
  }

  /** A line whose only word is "quit" (which globs to nothing) runs the
      builtin quit, which returns 0. */
  lemma InterpretQuit(line: String, home: Option<String>, glob: Glob, execvp: Execvp)
    requires HomeUsable(home)
    requires CommandWords(line) == ["quit"] && glob("quit") == []
    ensures Interpret(line, home, glob, execvp) == Command(["quit"], Returned(0, NoAction))
  {
    assert Tilde !in "quit";
    ExpandedArgsNoMatch(["quit"], home, glob);
    assert ExpandedArgs(["quit"], home, glob) == ["quit"];
    DispatchCases(["quit"], home, execvp);
  }

  /** The body of a pass once the line is read: split it, expand the words
      with HOME from the environment, run the result. */
  method RunLine(line: String, env: Env, glob: Glob, execvp: Execvp) returns (args: seq<String>, o: Outcome)
    requires HomeUsable(Home(env))
    ensures Command(args, o) == Interpret(line, Home(env), glob, execvp)
  {
    var words := SplitLine(line);
    var home := Getenv(env, "HOME");
    args := ExpandArgs(words, home, glob);
    o := Execute(args, home, execvp);
  }

  /** tosh_loop: the settings are synced with the environment at the top of
      every pass; EOF at the start of a line exits; otherwise the line is
      recorded, split, expanded and run, until a command returns zero. */
  method RunLoop(settings: Settings, history: HistoryFile, input: String, glob: Glob, execvp: Execvp)
    returns (trace: seq<Iteration>, ending: Ending)
    requires settings.Valid() && history.Valid() && HomeUsable(Home(settings.env))
    modifies settings, history
    ensures trace == Session(old(Table(settings.values, settings.env)), old(history.State()), input, glob, execvp).trace
    ensures ending == Session(old(Table(settings.values, settings.env)), old(history.State()), input, glob, execvp).ending
    ensures history.State() == Session(old(Table(settings.values, settings.env)), old(history.State()), input, glob, execvp).history
    ensures Table(settings.values, settings.env) == Synced(old(Table(settings.values, settings.env)))
  {
    ghost var t0 := Table(settings.values, settings.env);
    ghost var synced := Synced(t0);
    SyncKeepsHome(t0);
    ghost var home := Home(t0.env);
    ghost var interpret := Interpreting(home, glob, execvp);
    SessionLoop(t0, history.State(), input, glob, execvp);
    ghost var r0 := LoopFrom(history.State(), 0, input, interpret);
    var pos := 0;
    trace := [];
    while true
      invariant settings.Valid() && history.Valid()
      invariant Synced(Table(settings.values, settings.env)) == synced
      invariant Home(settings.env) == home
      invariant r0.trace == trace + LoopFrom(history.State(), pos, input, interpret).trace
      invariant r0.ending == LoopFrom(history.State(), pos, input, interpret).ending
      invariant r0.history == LoopFrom(history.State(), pos, input, interpret).history
      decreases |input| - pos
    {
      ghost var before := Table(settings.values, settings.env);
      SyncKeepsHome(before);
      settings.SyncEnvVars();
      SyncIdempotent(before);
      var r := ReadLine(input, pos);
      if r.Exit? {
        return trace, AtEndOfInput;
      }
      LineProgress(input, pos);
      ghost var state := history.State();
      history.RecordLine(r.text);
      var args, o := RunLine(r.text, settings.env, glob, execvp);
      assert Command(args, o) == interpret(r.text);
      if !Continues(o) {
        LoopStop(state, pos, input, interpret);
        trace := trace + [Iteration(r.text, args, o)];
        return trace, if o.Replaced? then ReplacedBy(o.argv) else Stopped;
      }
      LoopStep(state, pos, input, interpret);
      trace := trace + [Iteration(r.text, args, o)];
      pos := r.next;
    }
  }
}
