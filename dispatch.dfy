/** Running an argument vector: the builtin table lookup of tosh_execute,
    the builtins cd, exec, help and quit, and the external launch. */
module Dispatch {
  import opened Text
  import opened Environment

  /** What a command did besides returning its status. */
  datatype Action =
    | NoAction
      /** chdir was attempted; a failure only prints a diagnostic. */
    | ChangeDir(path: String)
      /** cd of the earlier revision was given no directory. */
    | MissingArgument
      /** help printed the builtin names in table order. */
    | ListBuiltins(names: seq<String>)
      /** exec could not replace the process image. */
    | ExecFailed(argv: seq<String>)
      /** An external program was forked and waited for. */
    | Launch(argv: seq<String>)

  /** A command either returns a status to the loop (zero stops it) or, for a
      successful exec, replaces the shell and never returns. */
  datatype Outcome = Returned(status: int, action: Action) | Replaced(argv: seq<String>)

  /** One pass of a shell loop: the line read, the argument vector it
      became, and what running that vector did. */
  datatype Iteration = Iteration(line: String, args: seq<String>, outcome: Outcome)

  /** execvp: true when the program image was replaced. */
  type Execvp = seq<String> -> bool

  /** Whether the session loop reads another line after this outcome. */
  predicate Continues(o: Outcome)
  {
    o.Returned? && o.status != 0
  }

  datatype Builtin = Cd | Exec | Help | Quit

  /** builtin_str and builtin_func, in table order. */
  const BuiltinNames: seq<String> := ["cd", "exec", "help", "quit"]
  const BuiltinFuncs: seq<Builtin> := [Cd, Exec, Help, Quit]

  /** tosh_cd: without a directory it retries with HOME in the argument
      slot, and does nothing when HOME is unset; otherwise it attempts chdir.
      The status is always 1. */
  function RunCd(args: seq<String>, home: Option<String>): Outcome
    requires |args| >= 1
    decreases if |args| < 2 then 1 else 0
  {
    if |args| < 2 then
      match home
      case Some(h) => RunCd(args[..1] + [h], home)
      case None => Returned(1, NoAction)
    else
      Returned(1, ChangeDir(args[1]))
  }

  /** tosh_exec: replaces the shell by args[1..]; with no program, or when
      execvp fails, it returns 0 and the loop stops. */
  function RunExec(args: seq<String>, execvp: Execvp): Outcome
    requires |args| >= 1
  {
    if |args| < 2 then Returned(0, NoAction)
    else if execvp(args[1..]) then Replaced(args[1..])
    else Returned(0, ExecFailed(args[1..]))
  }

  function Invoke(b: Builtin, args: seq<String>, home: Option<String>, execvp: Execvp): Outcome
    requires |args| >= 1
  {
    match b
    case Cd => RunCd(args, home)
    case Exec => RunExec(args, execvp)
    case Help => Returned(1, ListBuiltins(BuiltinNames))
    case Quit => Returned(0, NoAction)
  }

  /** tosh_launch, taken as an opaque step: it forks, waits and returns 1
      whatever became of the child. */
  function LaunchExternal(args: seq<String>): Outcome
  {
    Returned(1, Launch(args))
  }

  /** The first table index whose name is exactly `name`, or |names|. */
  function FirstMatch(names: seq<String>, name: String): nat
  {
    if names == [] then 0
    else if names[0] == name then 0
    else 1 + FirstMatch(names[1..], name)
  }

  /** What tosh_execute does with an argument vector. */
  function Dispatched(args: seq<String>, home: Option<String>, execvp: Execvp): Outcome
  {
    if args == [] then Returned(1, NoAction)
    else
      var i := FirstMatch(BuiltinNames, args[0]);
      if i < |BuiltinFuncs| then Invoke(BuiltinFuncs[i], args, home, execvp)
      else LaunchExternal(args)
  }

  lemma {:induction false} FirstMatchSpec(names: seq<String>, name: String)
    ensures FirstMatch(names, name) <= |names|
    ensures FirstMatch(names, name) < |names| <==> name in names
    ensures FirstMatch(names, name) < |names| ==> names[FirstMatch(names, name)] == name
    ensures forall k :: 0 <= k < FirstMatch(names, name) ==> names[k] != name
  {
    if names != [] && names[0] != name {
      FirstMatchSpec(names[1..], name);
      assert names == [names[0]] + names[1..];
    }
  }

  /** tosh_execute: an empty vector returns 1 and runs nothing; a first
      argument exactly equal to a table name runs that builtin with the whole
      vector; anything else is launched as an external program. */
  method Execute(args: seq<String>, home: Option<String>, execvp: Execvp) returns (o: Outcome)
    ensures o == Dispatched(args, home, execvp)
  {
    if args == [] {
      return Returned(1, NoAction);
    }
    var i := 0;
    while i < |BuiltinNames|
      invariant 0 <= i <= |BuiltinNames|
      invariant forall k :: 0 <= k < i ==> BuiltinNames[k] != args[0]
    {
      if args[0] == BuiltinNames[i] {
        FirstMatchSpec(BuiltinNames[i..], args[0]);
        FirstMatchPrefix(BuiltinNames, i, args[0]);
        return Invoke(BuiltinFuncs[i], args, home, execvp);
      }
      i := i + 1;
    }
    FirstMatchPrefix(BuiltinNames, i, args[0]);
    o := LaunchExternal(args);
  }

  lemma {:induction false} FirstMatchPrefix(names: seq<String>, i: nat, name: String)
    requires i <= |names|
    requires forall k :: 0 <= k < i ==> names[k] != name
    ensures FirstMatch(names, name) == i + FirstMatch(names[i..], name)
  {
    if i > 0 {
      assert names[0] != name;
      assert names[1..][i - 1..] == names[i..];
      FirstMatchPrefix(names[1..], i - 1, name);
    } else {
      assert names[0..] == names;
    }
  }

  /** The three cases of dispatch, by name: an empty vector continues with no
      action; "cd", "exec", "help" and "quit" run their builtins; every other
      program name is launched and the loop continues. */
  lemma DispatchCases(args: seq<String>, home: Option<String>, execvp: Execvp)
    ensures args == [] ==> Dispatched(args, home, execvp) == Returned(1, NoAction)
    ensures args != [] && args[0] == "cd" ==> Dispatched(args, home, execvp) == RunCd(args, home)
    ensures args != [] && args[0] == "exec" ==> Dispatched(args, home, execvp) == RunExec(args, execvp)
    ensures args != [] && args[0] == "help" ==>
      Dispatched(args, home, execvp) == Returned(1, ListBuiltins(["cd", "exec", "help", "quit"]))
    ensures args != [] && args[0] == "quit" ==> Dispatched(args, home, execvp) == Returned(0, NoAction)
    ensures args != [] && args[0] !in {"cd", "exec", "help", "quit"} ==>
      Dispatched(args, home, execvp) == Returned(1, Launch(args))
  {
    if args != [] {
      FirstMatchSpec(BuiltinNames, args[0]);
      var i := FirstMatch(BuiltinNames, args[0]);
      if i < |BuiltinNames| {
        assert BuiltinNames[i] == args[0];
      } else {
        assert args[0] !in BuiltinNames;
      }
    }
  }

  /** cd always continues: with a directory it attempts chdir there, without
      one it goes to HOME, and with HOME unset it does nothing. */
  lemma CdResult(args: seq<String>, home: Option<String>)
    requires |args| >= 1
    ensures RunCd(args, home).Returned? && RunCd(args, home).status == 1
    ensures |args| >= 2 ==> RunCd(args, home).action == ChangeDir(args[1])
    ensures |args| < 2 && home.Some? ==> RunCd(args, home).action == ChangeDir(home.value)
    ensures |args| < 2 && home.None? ==> RunCd(args, home).action == NoAction
  {
    if |args| < 2 && home.Some? {
      assert (args[..1] + [home.value])[1] == home.value;
    }
  }

  /** exec never continues the loop: with no program it returns 0 and does
      nothing; when execvp replaces the image the shell becomes args[1..];
      when execvp fails it reports the failure and returns 0. */
  lemma ExecResult(args: seq<String>, execvp: Execvp)
    requires |args| >= 1
    ensures |args| < 2 ==> RunExec(args, execvp) == Returned(0, NoAction)
    ensures |args| >= 2 && execvp(args[1..]) ==> RunExec(args, execvp) == Replaced(args[1..])
    ensures |args| >= 2 && !execvp(args[1..]) ==> RunExec(args, execvp) == Returned(0, ExecFailed(args[1..]))
    ensures !Continues(RunExec(args, execvp))
  {
  }

  /** A command whose name is the builtin exec or quit. */
  predicate ExecOrQuit(args: seq<String>)
  {
    args != [] && args[0] in {"exec", "quit"}
  }

  /** The loop stops after exactly the builtins exec and quit: exec either
      replaces the shell or returns 0, quit returns 0, and everything else,
      an empty line included, returns a non-zero status. */
  lemma StopsExactlyOnExecOrQuit(args: seq<String>, home: Option<String>, execvp: Execvp)
    ensures !Continues(Dispatched(args, home, execvp)) <==> ExecOrQuit(args)
  {
    DispatchCases(args, home, execvp);
    if args != [] && args[0] == "cd" {
      CdResult(args, home);
    }
  }
}
