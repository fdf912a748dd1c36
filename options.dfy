/** The shell's options: the command-line flags (tosh_parse_args) and the
    table of option variables kept in agreement with the environment
    (tosh_sync_env_vars). */
module Options {
  import opened Text
  import opened Environment

  // ---------------------------------------------------------------------
  // Command-line arguments.

  /** What the command line asks for: -v (verbose), -d (debug), a script to
      read commands from, and the flag letters reported as unknown, in
      order. */
  datatype Startup = Startup(verbose: bool, debug: bool, script: Option<String>, unknown: String)

  /** An argument that starts with '-'; the empty argument is not one. */
  predicate IsFlag(a: String)
  {
    |a| > 0 && a[0] == '-'
  }

  /** Index of the first non-flag argument after the program name, or |argv|
      when every argument is a flag. */
  function FirstOperand(argv: seq<String>): (k: nat)
    ensures |argv| <= 1 ==> k == |argv|
    ensures |argv| > 1 ==> 1 <= k <= |argv|
  {
    if |argv| <= 1 then |argv| else 1 + OperandFrom(argv[1..])
  }

  function OperandFrom(args: seq<String>): (k: nat)
    ensures k <= |args|
  {
    if args == [] || !IsFlag(args[0]) then 0 else 1 + OperandFrom(args[1..])
  }

  lemma {:induction false} OperandFromSpec(args: seq<String>)
    ensures forall j :: 0 <= j < OperandFrom(args) ==> IsFlag(args[j])
    ensures OperandFrom(args) < |args| ==> !IsFlag(args[OperandFrom(args)])
  {
    if args != [] && IsFlag(args[0]) {
      OperandFromSpec(args[1..]);
      assert forall j :: 1 <= j < OperandFrom(args) ==> args[j] == args[1..][j - 1];
    }
  }

  /** The letters of the flags before the first operand, in order. */
  function FlagLetters(argv: seq<String>): String
  {
    var k := FirstOperand(argv);
    if |argv| <= 1 then [] else LettersOf(argv[1..k])
  }

  function LettersOf(flags: seq<String>): String
  {
    if flags == [] then [] else (if |flags[0]| > 0 then flags[0][1..] else []) + LettersOf(flags[1..])
  }

  /** The letters reported as unknown: everything but 'v' and 'd'. */
  function Unrecognised(letters: String): (u: String)
    ensures forall c :: c in u <==> c in letters && c != 'v' && c != 'd'
  {
    if letters == [] then []
    else (if letters[0] in {'v', 'd'} then [] else [letters[0]]) + Unrecognised(letters[1..])
  }

  /** The meaning of a command line. */
  function Parse(argv: seq<String>): Startup
  {
    var k := FirstOperand(argv);
    var letters := FlagLetters(argv);
    Startup('v' in letters, 'd' in letters, if k < |argv| then Some(argv[k]) else None, Unrecognised(letters))
  }

  /** The first non-flag argument is the script; it ends parsing, every
      argument before it (the program name aside) is a flag. */
  lemma FirstOperandSpec(argv: seq<String>)
    requires |argv| > 1
    ensures forall j :: 1 <= j < FirstOperand(argv) ==> IsFlag(argv[j])
    ensures FirstOperand(argv) < |argv| ==> !IsFlag(argv[FirstOperand(argv)])
  {
    OperandFromSpec(argv[1..]);
    assert forall j :: 1 <= j < FirstOperand(argv) ==> argv[j] == argv[1..][j - 1];
  }

  lemma {:induction false} OperandFromAppend(args: seq<String>, rest: seq<String>)
    requires OperandFrom(args) < |args|
    ensures OperandFrom(args + rest) == OperandFrom(args)
  {
    if IsFlag(args[0]) {
      assert (args + rest)[1..] == args[1..] + rest;
      OperandFromAppend(args[1..], rest);
    }
  }

  /** Arguments after the script are ignored. */
  lemma ParseIgnoresRest(argv: seq<String>, rest: seq<String>)
    requires FirstOperand(argv) < |argv|
    ensures Parse(argv + rest) == Parse(argv)
  {
    assert (argv + rest)[1..] == argv[1..] + rest;
    OperandFromAppend(argv[1..], rest);
    var k := FirstOperand(argv);
    assert (argv + rest)[1..k] == argv[1..k];
  }

  lemma LettersOfAppend(a: seq<String>, b: seq<String>)
    ensures LettersOf(a + b) == LettersOf(a) + LettersOf(b)
  {
    if a != [] {
      assert (a + b)[1..] == a[1..] + b;
      LettersOfAppend(a[1..], b);
    } else {
      assert a + b == b;
    }
  }

  lemma UnrecognisedAppend(a: String, b: String)
    ensures Unrecognised(a + b) == Unrecognised(a) + Unrecognised(b)
  {
    if a != [] {
      assert (a + b)[1..] == a[1..] + b;
      UnrecognisedAppend(a[1..], b);
    } else {
      assert a + b == b;
    }
  }

  /** The effect of one flag letter (the switch of tosh_parse_args): 'v'
      and 'd' switch their option on, any other letter is reported. */
  function Letter(r: Startup, c: char): Startup
  {
    if c == 'v' then r.(verbose := true)
    else if c == 'd' then r.(debug := true)
    else r.(unknown := r.unknown + [c])
  }

  /** Reading flag letters one at a time, in order: afterwards verbose is on
      exactly when it was on or a 'v' was read, debug likewise for 'd', and
      every other letter has been reported after the earlier ones, in
      order; the script is untouched. */
  function Absorb(r: Startup, letters: String): (r': Startup)
    ensures r'.verbose <==> r.verbose || 'v' in letters
    ensures r'.debug <==> r.debug || 'd' in letters
    ensures r'.script == r.script
    ensures r'.unknown == r.unknown + Unrecognised(letters)
    decreases |letters|
  {
    if letters == [] then r
    else
      LetterStep(r, letters);
      LetterStepUnknown(r, letters);
      Absorb(Letter(r, letters[0]), letters[1..])
  }

  /** The first letter's effect followed by the rest's is the effect of
      all the letters, for the two switches and the script. */
  lemma {:induction false} LetterStep(r: Startup, letters: String)
    requires letters != []
    ensures Letter(r, letters[0]).verbose || 'v' in letters[1..] <==> r.verbose || 'v' in letters
    ensures Letter(r, letters[0]).debug || 'd' in letters[1..] <==> r.debug || 'd' in letters
    ensures Letter(r, letters[0]).script == r.script
  {
    assert letters == [letters[0]] + letters[1..];
  }

  /** ... and for the letters reported. */
  lemma {:induction false} LetterStepUnknown(r: Startup, letters: String)
    requires letters != []
    ensures Letter(r, letters[0]).unknown + Unrecognised(letters[1..]) == r.unknown + Unrecognised(letters)
  {
    var c := letters[0];
    var kept := if c in {'v', 'd'} then [] else [c];
    assert Unrecognised(letters) == kept + Unrecognised(letters[1..]);
    assert Letter(r, c).unknown == r.unknown + kept;
    assert (r.unknown + kept) + Unrecognised(letters[1..]) == r.unknown + (kept + Unrecognised(letters[1..]));
  }

  /** Reading letters in two parts is reading them at once. */
  lemma {:induction false} AbsorbAppend(r: Startup, a: String, b: String)
    ensures Absorb(Absorb(r, a), b) == Absorb(r, a + b)
    decreases |a|
  {
    if a == [] {
      assert a + b == b;
    } else {
      assert (a + b)[0] == a[0] && (a + b)[1..] == a[1..] + b;
      AbsorbAppend(Letter(r, a[0]), a[1..], b);
    }
  }

  /** One letter: 'v' and 'd' switch their option on, any other letter is
      reported. */
  lemma AbsorbOne(r: Startup, c: char)
    ensures Absorb(r, [c]) == if c == 'v' then r.(verbose := true)
      else if c == 'd' then r.(debug := true)
      else r.(unknown := r.unknown + [c])
  {
    assert Unrecognised([c]) == (if c in {'v', 'd'} then [] else [c]) + Unrecognised([]);
  }

  /** One more flag argument contributes its letters after the '-'. */
  lemma LettersStep(argv: seq<String>, i: nat)
    requires 1 <= i < |argv|
    ensures LettersOf(argv[1..i + 1]) == LettersOf(argv[1..i]) + (if |argv[i]| > 0 then argv[i][1..] else [])
  {
    assert argv[1..i + 1] == argv[1..i] + [argv[i]];
    LettersOfAppend(argv[1..i], [argv[i]]);
    assert LettersOf([argv[i]]) == (if |argv[i]| > 0 then argv[i][1..] else []) + LettersOf([]);
  }

  /** The inner loop of tosh_parse_args: every letter of one flag argument
      after its '-' switches on -v or -d or is reported as unknown. */
  method ReadFlag(r: Startup, arg: String) returns (r': Startup)
    requires IsFlag(arg)
    ensures r' == Absorb(r, arg[1..])
  {
    r' := r;
    var j := 1;
    assert Absorb(r, arg[1..j]) == r;
    while j < |arg|
      invariant 1 <= j <= |arg|
      invariant r' == Absorb(r, arg[1..j])
    {
      AbsorbAppend(r, arg[1..j], [arg[j]]);
      AbsorbOne(r', arg[j]);
      assert arg[1..j + 1] == arg[1..j] + [arg[j]];
      if arg[j] == 'v' {
        r' := r'.(verbose := true);
      } else if arg[j] == 'd' {
        r' := r'.(debug := true);
      } else {
        r' := r'.(unknown := r'.unknown + [arg[j]]);
      }
      j := j + 1;
    }
    assert arg[1..j] == arg[1..];
  }

  /** tosh_parse_args: reads the letters of every flag argument, and stops
      at the first non-flag argument, which names the script. */
  method ParseArgs(argv: seq<String>) returns (r: Startup)
    ensures r == Parse(argv)
  {
    var none := Startup(false, false, None, []);
    r := none;
    if |argv| <= 1 {
      assert Parse(argv) == r;
      return;
    }
    FirstOperandSpec(argv);
    var i := 1;
    while i < |argv|
      invariant 1 <= i <= FirstOperand(argv) <= |argv|
      invariant r == Absorb(none, LettersOf(argv[1..i]))
    {
      if IsFlag(argv[i]) {
        r := ReadFlag(r, argv[i]);
        AbsorbAppend(none, LettersOf(argv[1..i]), argv[i][1..]);
        LettersStep(argv, i);
        i := i + 1;
      } else {
        assert i == FirstOperand(argv);
        AbsorbFromNone(LettersOf(argv[1..i]));
        r := r.(script := Some(argv[i]));
        return;
      }
    }
    AbsorbFromNone(LettersOf(argv[1..i]));
  }

  /** From nothing parsed, reading letters gives the meaning of those
      letters, with no script. */
  lemma {:induction false} AbsorbFromNone(letters: String)
    ensures Absorb(Startup(false, false, None, []), letters)
      == Startup('v' in letters, 'd' in letters, None, Unrecognised(letters))
  {
  }


  // ---------------------------------------------------------------------
  // Option variables and the environment.

  /** The option variables, in table order. */
  const OptionNames: seq<String> := ["TOSH_VERBOSE", "TOSH_PROMPT", "TOSH_HIST_PATH", "TOSH_CONFIG_PATH", "TOSH_DEBUG"]
  const Verbose: nat := 0
  const PromptOption: nat := 1
  const HistPath: nat := 2
  const Debug: nat := 4

  /** Their built-in values. */
  const Defaults: seq<String> := ["OFF", "%n@%h %p2r ⟡ ", "~/.tosh_history", "~/.toshrc", "OFF"]

  lemma OptionNamesDistinct()
    ensures forall a, b :: 0 <= a < b < |OptionNames| ==> OptionNames[a] != OptionNames[b]
  {
  }

  /** The option values and the environment. */
  datatype Table = Table(values: seq<String>, env: Env)

  predicate WellFormed(t: Table)
  {
    |t.values| == |OptionNames|
  }

  /** One entry of the sync loop: a variable set in the environment gives the
      option its value; an unset one is created from the option. */
  function SyncEntry(t: Table, k: nat): (t': Table)
    requires WellFormed(t) && k < |OptionNames|
    ensures WellFormed(t')
  {
    var name := OptionNames[k];
    if name in t.env then Table(t.values[k := t.env[name]], t.env)
    else Table(t.values, t.env[name := t.values[k]])
  }

  /** The table after the first i entries of the sync loop. */
  function SyncedUpTo(t: Table, i: nat): (t': Table)
    requires WellFormed(t) && i <= |OptionNames|
    ensures WellFormed(t')
  {
    if i == 0 then t else SyncEntry(SyncedUpTo(t, i - 1), i - 1)
  }

  function Synced(t: Table): Table
    requires WellFormed(t)
  {
    SyncedUpTo(t, |OptionNames|)
  }

  /** One entry touches at most its own option. */
  lemma SyncEntryValues(u: Table, k: nat)
    requires WellFormed(u) && k < |OptionNames|
    ensures forall j :: 0 <= j < |OptionNames| && j != k ==> SyncEntry(u, k).values[j] == u.values[j]
    ensures SyncEntry(u, k).values[k]
      == if OptionNames[k] in u.env then u.env[OptionNames[k]] else u.values[k]
  {
  }

  /** The options the loop has not reached yet keep their values. */
  lemma {:induction false} SyncedValuesAbove(t: Table, i: nat)
    requires WellFormed(t) && i <= |OptionNames|
    ensures forall k :: i <= k < |OptionNames| ==> SyncedUpTo(t, i).values[k] == t.values[k]
  {
    if i > 0 {
      SyncedValuesAbove(t, i - 1);
      SyncEntryValues(SyncedUpTo(t, i - 1), i - 1);
    }
  }

  /** What the first i entries of the loop have done to the environment:
      their variables now exist, created from the option where they were
      unset, and nothing else changed. */
  lemma {:induction false} SyncedEnvUpTo(t: Table, i: nat)
    requires WellFormed(t) && i <= |OptionNames|
    ensures forall name :: name in SyncedUpTo(t, i).env <==> name in t.env || name in OptionNames[..i]
    ensures forall name :: name in t.env ==> SyncedUpTo(t, i).env[name] == t.env[name]
    ensures forall k :: 0 <= k < i && OptionNames[k] !in t.env ==> SyncedUpTo(t, i).env[OptionNames[k]] == t.values[k]
  {
    if i > 0 {
      SyncedEnvUpTo(t, i - 1);
      OptionNamesDistinct();
      assert OptionNames[..i] == OptionNames[..i - 1] + [OptionNames[i - 1]];
      var u := SyncedUpTo(t, i - 1);
      var name := OptionNames[i - 1];
      forall k | 0 <= k < i && OptionNames[k] !in t.env
        ensures SyncedUpTo(t, i).env[OptionNames[k]] == t.values[k]
      {
        if k < i - 1 {
          assert OptionNames[k] != name;
        } else {
          assert name !in OptionNames[..i - 1];
          assert name !in u.env;
          SyncedValuesAbove(t, i - 1);
          assert u.values[i - 1] == t.values[i - 1];
        }
      }
    }
  }

  /** What the first i entries of the loop have done to the options: those
      take the environment's value where it had one. */
  lemma {:induction false} SyncedValuesUpTo(t: Table, i: nat)
    requires WellFormed(t) && i <= |OptionNames|
    ensures forall k :: 0 <= k < i ==>
      SyncedUpTo(t, i).values[k] == (if OptionNames[k] in t.env then t.env[OptionNames[k]] else t.values[k])
  {
    if i > 0 {
      var u := SyncedUpTo(t, i - 1);
      var name := OptionNames[i - 1];
      SyncedValuesUpTo(t, i - 1);
      SyncedValuesAbove(t, i - 1);
      SyncedEnvUpTo(t, i - 1);
      SyncEntryValues(u, i - 1);
      OptionNamesDistinct();
      assert name !in OptionNames[..i - 1];
      assert name in u.env <==> name in t.env;
    }
  }

  /** After a sync every option variable exists in the environment and equals
      the option's value; the environment wins where it had the variable;
      every other variable (HOME and USER among them) is unchanged. */
  lemma SyncAgrees(t: Table)
    requires WellFormed(t)
    ensures forall k :: 0 <= k < |OptionNames| ==>
      OptionNames[k] in Synced(t).env && Synced(t).env[OptionNames[k]] == Synced(t).values[k]
    ensures forall k :: 0 <= k < |OptionNames| ==>
      Synced(t).values[k] == (if OptionNames[k] in t.env then t.env[OptionNames[k]] else t.values[k])
    ensures forall name :: name !in OptionNames ==>
      (name in Synced(t).env <==> name in t.env) && (name in t.env ==> Synced(t).env[name] == t.env[name])
  {
    SyncedValuesUpTo(t, |OptionNames|);
    SyncedEnvUpTo(t, |OptionNames|);
    assert OptionNames[..|OptionNames|] == OptionNames;
  }

  /** A second sync changes nothing. */
  lemma SyncIdempotent(t: Table)
    requires WellFormed(t)
    ensures Synced(Synced(t)) == Synced(t)
  {
    var s := Synced(t);
    SyncAgrees(t);
    SyncAgrees(s);
    SyncedValuesUpTo(s, |OptionNames|);
    SyncedEnvUpTo(s, |OptionNames|);
    assert OptionNames[..|OptionNames|] == OptionNames;
    assert Synced(s).values == s.values;
    assert Synced(s).env.Keys == s.env.Keys;
    assert Synced(s).env == s.env;
  }

  /** The option variables and the process environment, as the shell keeps
      them: the five global option pointers and the environment map. */
  class Settings {
    var values: seq<String>
    var env: Env

    ghost predicate Valid()
      reads this
    {
      |values| == |OptionNames|
    }

    /** Built-in option values and the inherited environment. */
    constructor (inherited: Env)
      ensures Valid() && values == Defaults && env == inherited
    {
      values := Defaults;
      env := inherited;
    }

    /** The flags' effect on the option variables: -v sets TOSH_VERBOSE and
        -d sets TOSH_DEBUG to "ON". */
    method ApplyFlags(s: Startup)
      requires Valid()
      modifies this
      ensures Valid() && env == old(env)
      ensures values == old(values)[Verbose := if s.verbose then "ON" else old(values)[Verbose]]
                                   [Debug := if s.debug then "ON" else old(values)[Debug]]
    {
      if s.verbose {
        values := values[Verbose := "ON"];
      }
      if s.debug {
        values := values[Debug := "ON"];
      }
    }

    /** tosh_sync_env_vars: for each option, takes the environment's value
        when the variable is set, and otherwise sets the variable (setenv
        without overwrite) from the option. */
    method SyncEnvVars()
      requires Valid()
      modifies this
      ensures Valid()
      ensures Table(values, env) == Synced(old(Table(values, env)))
    {
      ghost var t := Table(values, env);
      var i := 0;
      while i < |OptionNames|
        invariant 0 <= i <= |OptionNames| && Valid()
        invariant Table(values, env) == SyncedUpTo(t, i)
      {
        var name := OptionNames[i];
        var s := Getenv(env, name);
        if s.None? {
          env := env[name := values[i]];
        } else {
          values := values[i := s.value];
        }
        i := i + 1;
      }
    }
  }
}
