# tosh line interpretation, modelled in Dafny

tosh is a very small Unix shell written in C. This project models how it
turns input into commands, for two revisions of the program:

- **src/tosh.c**, the main revision. `tosh_loop` does the following on each
  pass:
  - syncs the option variables with the environment;
  - reads a line (`tosh_read_line`);
  - records the line in the history file (`tosh_record_line`);
  - splits it into words, dropping everything from the first word that
    starts with `#` (`tosh_split_line`);
  - expands every `~` to `$HOME` (`tosh_expand_string`) and globs each word
    (`tosh_expand_args`);
  - runs the result as one of the builtins `cd`, `exec`, `help`, `quit`, or
    as an external program (`tosh_execute`, `tosh_launch`).

  The loop repeats while the command returns a non-zero status. The
  revision also has two side parsers:
  - the command-line flags (`tosh_parse_args`);
  - the `TOSH_PROMPT` format language with its working-directory display
    (`tosh_prompt`, `tosh_show_path`).
- **tosh.c**, the earlier revision:
  - a reader that returns the empty line at EOF;
  - a plain strtok split into slices of the line;
  - three builtins (`cd`, `help`, `quit`);
  - the same status-driven loop.

The model is organised as one module per component:

| module | file | what it holds |
|---|---|---|
| `Text` | text.dfy | strtok splitting (`Fields`) and one strtok call (`NextToken`) |
| `Buffers` | buffers.dfy | NULL-terminated pointer vectors, `realloc`, appending with growth |
| `Environment` | env.dfy | `getenv` over an environment map |
| `Reader` | reader.dfy | input as a string whose end is a sticky EOF; `tosh_read_line` |
| `Splitter` | splitter.dfy | `tosh_split_line` of src/tosh.c |
| `Expansion` | expansion.dfy | `tosh_expand_string`, `tosh_expand_args` with a glob oracle |
| `Dispatch` | dispatch.dfy | `tosh_execute`, the builtins, `tosh_launch` as an opaque step |
| `Options` | options.dfy | `tosh_parse_args`; the option table and `tosh_sync_env_vars` (class `Settings`) |
| `Prompt` | prompt.dfy | `tosh_show_path`, the `TOSH_PROMPT` language, `tosh_prompt` |
| `History` | history.dfy | the history stream (class `HistoryFile`), `tosh_record_line` |
| `Session` | session.dfy | `tosh_loop` of src/tosh.c |
| `Early` | early.dfy | the earlier revision (tosh.c): reader, splitter, dispatch, loop |

The outside world is represented as follows:

- **Input.** Standard input is a string of characters. Reading at or past
  its end yields EOF and consumes nothing. The stream's end-of-file
  indicator stays set once reached, so every later read yields EOF too.
- **Environment.** The environment is a map, and HOME is read from it.
- **Glob.** `glob` is one function, for the whole session, from a pattern to its matches, in the order
  the resolver returns them. An empty result means GLOB_NOMATCH.
- **execvp.** `execvp` is a predicate: true when the process image was
  replaced.
- **External programs.** Launching an external program is an opaque step that
  returns 1.
- **Builtin side effects.** `chdir`, the help listing and a failed exec are
  recorded as an `Action` value in the outcome.

The history stream is opened with "r+". So records overwrite the file from
the current stream position, and `History.Overwrite` models exactly that. The session model takes any starting position, so it covers the stream as opened (offset 0) and the appending stream that was evidently intended (`History.AppendOpened`); see "## Findings".

Buffers that the source grows with `realloc` are Dafny arrays that are
reallocated the same way. Methods that fill them are proved against
functions on sequences:
- `Reader.ReadLine` against `LineFrom`;
- `Splitter.SplitLine` against `CommandWords`;
- `Expansion.ExpandArgs` against `ExpandedArgs`;
- `Prompt.ShowPrompt` against `Rendered`;
- `Session.RunLoop` against `Session`.

## Model

| member | source | states |
|---|---|---|
| Text.Fields | src/tosh.c:261-276 | every token strtok returns on the delimiter set is non-empty and holds no delimiter |
| Text.FieldsOfJoinWith | src/tosh.c:261-276 | splitting recovers any list of non-empty, delimiter-free words joined by single delimiters |
| Text.ConcatFields | src/tosh.c:261-276 | the tokens laid end to end are exactly the line's non-delimiter characters, in order |
| Text.FieldsCountBound | src/tosh.c:556-566 | a string of length L holds at most (L + 1) / 2 tokens, and at most L / 2 when it starts with a delimiter |
| Text.IndexOf | src/tosh.c:449 | the position strchr finds holds the character, and no earlier position does |
| Text.RunLength | src/tosh.c:261 | the run strtok scans is delimiter-free, and it ends at a delimiter or at the end of the string |
| Text.NextToken | src/tosh.c:261-275 | one strtok call: it skips delimiters; the span it returns is the next token and the rest of the line holds the remaining tokens; an empty span means no token is left |
| Buffers.Realloc | src/tosh.c:226 | realloc returns a fresh buffer of the requested size that starts with the whole old one |
| Buffers.Append | src/tosh.c:263-273 | the pointer is stored in the next slot; earlier slots are kept; when the vector is full it grows, so a free slot always remains |
| Reader.LineFromSpec | src/tosh.c:210-219 | the line read is exactly the slice of the input from the read position up to the first newline or EOF, with no newline; the next read starts just past the newline, or stays at EOF |
| Reader.Put | src/tosh.c:212-231 | a character is stored after the earlier ones; the buffer grows by 1024 exactly when the next index reaches its end, so the next write (or the NUL) is in bounds |
| Reader.ScanLine | src/tosh.c:210-232 | the buffer holds the line read, a slot remains for the NUL, and the terminator is consumed |
| Reader.ReadLine | src/tosh.c:192-233 | EOF as the first character exits with EXIT_SUCCESS; otherwise it returns the line and the position after its terminator |
| Splitter.UntilCommentSpec | src/tosh.c:262 | the kept words are a prefix of the tokens; none of them starts with '#'; the first token dropped starts with '#' |
| Splitter.NoCommentKeepsAll | src/tosh.c:241-244 | with no token starting with '#' every token is kept, so a '#' inside a word is ordinary text |
| Splitter.CopyToken | src/tosh.c:281-291 | the copy equals the token; the buffer size is carried over and only grows, and it stays larger than the token |
| Splitter.CollectTokens | src/tosh.c:260-276 | the slots filled hold the line's tokens up to the first one that starts with '#', in order, and a free slot remains |
| Splitter.Tokenize | src/tosh.c:260-277 | as CollectTokens, with the vector NULL-terminated |
| Splitter.CopyTokens | src/tosh.c:279-292 | replacing each token by its copy leaves the vector's strings unchanged |
| Splitter.SplitLine | src/tosh.c:245-296 | the arguments are exactly the line's command words: the strtok tokens before the first one that starts with '#' |
| Expansion.ExpandString | src/tosh.c:439-463 | HOME unset or no '~' leaves the string unchanged; otherwise no '~' remains and each '~' adds the length of HOME less one |
| Expansion.ReplaceFirstTilde | src/tosh.c:449-459 | one rewrite of the first '~' removes one '~' and adds the length of HOME less one, which makes the recursion terminate |
| Expansion.ExpandStringIsSubstAll | src/tosh.c:449-462 | the repeated first-'~' rewrite equals replacing every '~' of the original by HOME, left to right |
| Expansion.ExpandedArgsAppend | src/tosh.c:480-513 | expanding a concatenation is concatenating the expansions |
| Expansion.ExpandedArgsLength | src/tosh.c:480-513 | no argument is dropped: the expanded vector is at least as long as the input |
| Expansion.ExpandedArgsNoMatch | src/tosh.c:486-490 | when nothing matches, each argument becomes its tilde expansion, one for one |
| Expansion.GrowAsWrittenTooSmall | src/tosh.c:493-496 | as written, the first growth yields 16 pointer slots, no more than the 64 already in use |
| Expansion.SlotsAfterGrow | src/tosh.c:493-496 | corrected growth gives exactly the requested number of slots |
| Expansion.Push | src/tosh.c:490-496 | the argument goes to the next slot; earlier slots are kept; the vector grows by 64 slots when full |
| Expansion.PushAll | src/tosh.c:499-511 | the glob matches are stored in order after the arguments already stored |
| Expansion.ExpandArgs | src/tosh.c:473-519 | the result is the in-order concatenation of [expansion] for a non-matching argument and of its glob matches otherwise |
| Dispatch.FirstMatchSpec | src/tosh.c:346-354 | the lookup finds the first table entry equal to the name, or reports that there is none |
| Dispatch.Execute | src/tosh.c:334-358 | the loop over the builtin table returns what `Dispatched` prescribes |
| Dispatch.DispatchCases | src/tosh.c:82-98 | an empty vector returns 1; "cd", "exec", "help", "quit" run their builtins; "help" lists the four names in table order; "quit" returns 0; any other name is launched and returns 1 |
| Dispatch.CdResult | src/tosh.c:675-689 | cd always returns 1; it changes to args[1], or to HOME when args[1] is missing, and does nothing when HOME is also unset |
| Dispatch.ExecResult | src/tosh.c:692-700 | exec with no program returns 0 and does nothing; when execvp succeeds the shell is replaced by args[1..]; when it fails the failure is reported and 0 is returned; it never continues the loop |
| Dispatch.StopsExactlyOnExecOrQuit | src/tosh.c:692-722 | a command returns a zero status or replaces the shell exactly when it is the builtin exec or quit |
| Options.FirstOperand | src/tosh.c:523-549 | with only the program name there is no script; otherwise the script index lies after the program name and within the arguments |
| Options.OperandFromSpec | src/tosh.c:527-549 | every argument before the operand starts with '-', and the operand itself does not |
| Options.FirstOperandSpec | src/tosh.c:527-549 | every argument between the program name and the script is a flag, and the script is not |
| Options.ParseIgnoresRest | src/tosh.c:543-548 | arguments after the script are ignored |
| Options.Unrecognised | src/tosh.c:538-540 | a letter is reported exactly when it occurs and is neither 'v' nor 'd' |
| Options.Absorb | src/tosh.c:530-542 | reading the letters one at a time leaves verbose on iff it was on or a 'v' was read, and likewise debug and 'd'; every other letter is reported after the earlier ones, in order; the script is untouched |
| Options.AbsorbAppend | src/tosh.c:530-542 | reading letters in two parts has the same effect as reading them at once |
| Options.AbsorbOne | src/tosh.c:531-541 | 'v' switches verbose on; 'd' switches debug on; any other letter is reported |
| Options.ReadFlag | src/tosh.c:530-542 | the letter loop over one flag argument has the effect of reading all its letters after '-' |
| Options.ParseArgs | src/tosh.c:521-551 | the result is `Parse`: the flags' letters up to the first operand, which becomes the script |
| Options.OptionNamesDistinct | src/tosh.c:61-67 | the five option variable names are distinct |
| Options.SyncEntryValues | src/tosh.c:611-617 | one sync step changes at most its own option, which takes the environment's value when the variable is set |
| Options.SyncedEnvUpTo | src/tosh.c:610-619 | after i steps, the first i option variables exist; those that were unset hold the option's value; nothing else in the environment changed |
| Options.SyncedValuesUpTo | src/tosh.c:610-619 | after i steps, each of the first i options holds the environment's value when it had one, and keeps its own otherwise |
| Options.SyncAgrees | src/tosh.c:607-620 | after a sync every option variable exists and equals its option; the environment wins where it had the variable; HOME, USER and every other variable are untouched |
| Options.SyncIdempotent | src/tosh.c:607-620 | a second sync changes nothing |
| Options.Settings.constructor | src/tosh.c:52-58 | the options start at their built-in defaults, in the inherited environment |
| Options.Settings.ApplyFlags | src/tosh.c:532-537 | -v sets TOSH_VERBOSE to "ON", -d sets TOSH_DEBUG to "ON", and nothing else changes |
| Options.Settings.SyncEnvVars | src/tosh.c:607-620 | the options and the environment become `Synced` of their old values |
| Prompt.LastComponents | src/tosh.c:568-574 | the display shows a suffix of the components: all of them when n is zero or they are fewer than n, otherwise exactly n |
| Prompt.ShowComponentsLength | src/tosh.c:574-578 | each component shown is followed by exactly one '/' |
| Prompt.ColourShift | src/tosh.c:575-577 | advancing the colour index by two, k times, gives (j + 2k) mod 7 |
| Prompt.ShowComponentsAt | src/tosh.c:574-578 | component k is shown at position 2k, coloured 2k steps on in rainbow mode, and followed by an uncoloured '/' |
| Prompt.ShowPathShape | src/tosh.c:555-578 | for every n: one '/' for an absolute path, then two pieces per component shown; with no component shown (the root directory) the display is the root mark alone |
| Prompt.ShowPathSpec | src/tosh.c:555-578 | one '/' for an absolute path; then the last n components in order, each followed by '/'; in rainbow mode component k takes colour 2k mod 7, otherwise nothing is coloured |
| Prompt.ComponentsOverflowAsWritten | src/tosh.c:557 | as written, "/a/b" sizes the components array at 2 entries, but its two components and the NULL need 3 |
| Prompt.ComponentsCapacitySuffices | src/tosh.c:557-566 | sized from the whole absolute path, the array holds every component and the NULL |
| Prompt.ParseAt | src/tosh.c:378-431 | each directive read advances the index and never passes the format's NUL, a trailing '%' included |
| Prompt.TrailingPercentAsWritten | src/tosh.c:378-381 | as written, the format "%" makes the loop read past its NUL |
| Prompt.PromptStep | src/tosh.c:379-430 | one pass of the format loop prints what the directive at the index prescribes and advances as `ParseAt` does |
| Prompt.ShowPrompt | src/tosh.c:367-434 | the printed pieces are the rendering of the whole format |
| History.Entry | src/tosh.c:636-643 | a line adds nothing to the history exactly when it is empty |
| History.NonEmpty | src/tosh.c:636-638 | only non-empty lines remain, each one taken from the lines given |
| History.Overwrite | src/tosh.c:639-642 | data written at the stream position replaces the bytes there; the bytes before and after are kept |
| History.BeyondOverwrite | src/tosh.c:639-642 | bytes past the written range are those of the old file |
| History.OverwriteTwice | src/tosh.c:639-642 | two writes in a row are one write of both |
| History.RecordedThenAll | src/tosh.c:633-645 | recording one line and then others is recording them all |
| History.RecordedOneByOne | src/tosh.c:633-645 | recording lines one call after another writes their journal |
| History.RecordedFromStart | src/tosh.c:633-645 | from the start of the file, the journal overwrites the beginning and the rest of the old file stays; on an empty file the file is exactly the journal |
| History.JournalOfNonEmpty | src/tosh.c:636-638 | empty lines leave no trace in the history |
| History.HistoryRoundTrip | src/tosh.c:633-645 | reading the history back, one line per newline, recovers the non-empty lines recorded, in order |
| History.HistoryOverwrittenAsWritten | src/tosh.c:654 | as written, a new session writes from offset 0 over the old history: "cd /tmp" followed by "ls" next session leaves "ls" and a stray "/tmp" line |
| History.AppendKeepsHistory | src/tosh.c:633-645 | a stream opened for appending adds the session's journal after the old history, and reading the file back gives the old lines then the new ones |
| History.HistoryFile.constructor | src/tosh.c:654 | "r+" opens an existing file with the stream at its start |
| History.HistoryFile.Write | src/tosh.c:639-642 | fwrite overwrites from the position and moves the position past the data |
| History.HistoryFile.RecordLine | src/tosh.c:633-645 | an empty line writes nothing; any other line is written followed by a newline |
| Session.LineProgress | src/tosh.c:210-215 | a line that is read ends beyond where it started, within the input |
| Session.LoopStep | src/tosh.c:156-186 | a pass with a non-zero status is followed by the run from the next line, with its line recorded |
| Session.LoopStop | src/tosh.c:156-186 | a pass with a zero status is the last one, with its line recorded |
| Session.LoopContinuesUntilLast | src/tosh.c:186 | every pass but the last returned a non-zero status |
| Session.LoopEnding | src/tosh.c:186 | the run ends at EOF iff the last pass continued (or there was none); "stopped" means the last pass returned zero; "replaced" means it was a successful exec |
| Session.LoopInterprets | src/tosh.c:165-177 | every pass's arguments and outcome are the interpretation of its line |
| Session.LoopRecordsLines | src/tosh.c:165-168 | the history ends up holding the journal of exactly the lines read, in order |
| Session.RecordedNothing | src/tosh.c:633-645 | recording no lines writes nothing, so the file is left as it was |
| Session.SyncKeepsHome | src/tosh.c:607-620 | syncing the options never changes HOME |
| Session.SessionLoop | src/tosh.c:156-158 | syncing at the top of every pass amounts to running the loop with the HOME of the initial environment |
| Session.SessionRunsExpandedWords | src/tosh.c:165-177 | every pass ran the expanded command words of its line, and its outcome is their dispatch |
| Session.SessionStopsOnExecOrQuit | src/tosh.c:177-186 | no pass before the last was exec or quit; a run that did not end at EOF ended on one of them |
| Session.BlankLineContinues | src/tosh.c:337-343 | a blank or comment-only line runs nothing and the loop goes on |
| Session.InterpretQuit | src/tosh.c:717-722 | a line whose only word is "quit" runs the quit builtin, which returns 0 |
| Session.QuitStops | src/tosh.c:186 | the line "quit" ends the session after that one pass |
| Session.RunLine | src/tosh.c:170-177 | splitting, expanding and executing a line yields its interpretation |
| Session.RunLoop | src/tosh.c:151-187 | the trace, the ending and the history are those of `Session`, and the options end up synced |
| Early.ReadLine | tosh.c:88-120 | the line and the next read position are those of `LineFrom`: the characters before the first newline or EOF, which is a terminator like the newline, so no exit happens |
| Early.KeepSpan | tosh.c:142-156 | each token strtok returns adds its span, and the split goes on after it |
| Early.NoMoreSpans | tosh.c:142-156 | once strtok finds no token, every field of the line has its span |
| Early.CollectSpans | tosh.c:140-156 | the spans stored cover the line's strtok tokens, in order, and a free slot remains |
| Early.SplitLine | tosh.c:127-159 | the vector is NULL-terminated, and its slices are exactly the line's tokens, with no comment handling |
| Early.Arguments | tosh.c:74 | the arguments tosh_exec receives are the line's tokens |
| Early.Exec | tosh.c:195-216 | the loop over the builtin table returns what `Early.Dispatched` prescribes |
| Early.DispatchCases | tosh.c:195-249 | an empty vector returns 1; cd without a directory is an error that returns 1; cd with one changes to it; help lists the three names; quit returns 0; "exec" and every other name are launched and return 1 |
| Early.StopsExactlyOnQuit | tosh.c:218-249 | every command returns to the loop, and the status is zero exactly for quit |
| Early.LoopStep | tosh.c:66-82 | a pass with a non-zero status is followed by the run from the next line |
| Early.SpinsAtEndOfInput | tosh.c:100-104 | at EOF every pass reads the empty line, runs nothing and continues, so the loop never ends |
| Early.LoopRunsTokens | tosh.c:71-77 | every pass ran the tokens of its line, and its outcome is their dispatch |
| Early.LoopPasses | tosh.c:66-82 | every pass but the last continued; a stopped run ended on a zero status; an unstopped run used all its passes |
| Early.MorePasses | tosh.c:66-82 | allowing more passes only extends the run, and a run that stopped is unchanged |
| Early.RunLoop | tosh.c:61-83 | the passes and whether the loop stopped are those of `Early.LoopFrom` |

## Left out

- Terminal I/O is not modelled: `getchar_unbuf`'s termios handling and `isatty`. Input is a plain character sequence, and src/getchar_unbuf.c is not part of this model.
- Processes and signals are not modelled: `fork`, `execvp`, `waitpid`, `perror`, the SIGINT handler (src/tosh.c:622-631) and `exit` on allocation failure. External programs are an opaque step that returns 1, and `execvp` is an oracle.
- Output is not modelled: ANSI colour codes, `DEBUG_LOG`, the verbose messages, the diagnostics on stderr and the text `help` prints. Help is recorded as the list of builtin names. Prompt output is pieces with a colour index.
- `getcwd`, `gethostname` and their buffer-growth loops are not modelled. The working directory, host name and USER are parameters of the prompt.
- `freopen` of the script file is not modelled. `Options.ParseArgs` returns the script name, and the session reads a given input.
- Opening and closing the history file are not modelled (src/tosh.c:647-667), and neither is a history file that failed to open. The stream is a `HistoryFile` opened with "r+" at offset 0.
- Short writes of `fwrite` are not modelled.
- `tosh_glob_free` and every `free` are not modelled, and so neither is the defect that `tosh_cd` without a directory stores `getenv("HOME")`'s pointer in `args[1]` (src/tosh.c:677-679), which `tosh_loop` then frees (src/tosh.c:181-184). Nor is the glob pattern language of POSIX `glob()`. Globbing is an oracle that returns the matches in order.
- `Session.Session`: the prompt is not printed inside the loop model. `Prompt.ShowPrompt` models it separately. The early revision's fixed prompt "yes? " is not modelled either.
- `Session.Session`: the option table is synced once. A second sync is a no-op (`Options.SyncIdempotent`) and nothing in the loop sets a variable, so this is the same as syncing on every pass. `Session.RunLoop` syncs on every pass and proves the match.
- `Session.Session`: the working directory and the file system are not session state, so one `glob` oracle resolves the patterns of every pass. A `cd` is recorded only as a `ChangeDir` action, and it does not change what later patterns match, even though `glob()` (src/tosh.c:486-490) resolves them against the directory `chdir` (src/tosh.c:684) sets. Nor do files that external programs create or remove. `Session.SessionRunsExpandedWords` therefore describes runs in which what each pattern matches stays fixed.
- `Expansion.ExpandString`: requires a HOME without '~' only for strings that contain a '~'; for those the source recurses without end, while a string without '~' is returned unchanged whatever HOME holds. The argument-vector expansion and the session require a HOME without '~' outright: their words are arbitrary, and the default history path `~/.tosh_history` (src/tosh.c:55) holds a '~'.
- `Expansion.ExpandString`: buffer sizes are not modelled. The `realloc` at src/tosh.c:447 reserves strlen(str) + strlen(HOME) bytes before looking for a '~'. So with HOME empty, a string without '~' keeps its strlen(str) characters in strlen(str) bytes and loses the byte for its NUL, and the empty string is reallocated to size 0.
- `Prompt.Atoi`: the digits after `%p` are read as an unbounded natural, so `atoi` overflow is not modelled.
- A NUL character inside a line is not modelled. The C code would cut the line there.
- `Splitter.CopyToken`: stores the terminating NUL that the source never writes (src/tosh.c:282-291). The model therefore describes the intended copy.
- `Expansion.ExpandArgs`: stores the closing NULL that the source never writes (src/tosh.c:518). `tosh_loop` (line 181) and `tosh_execute` (line 337) rely on it, and the model gives them that intended vector.
- `Early.RunLoop`: the earlier revision's loop never ends at EOF (`Early.SpinsAtEndOfInput`). Its model is bounded by a number of passes, and `Early.MorePasses` shows that the bound only cuts a run short.

## Findings

| source | as written | input that shows it | evidently intended | confidence | as-written member | corrected member |
|---|---|---|---|---|---|---|
| src/tosh.c:378-381 | after '%', `switch (TOSH_PROMPT[++i])` consumes the next character even when it is the NUL, and the loop header then steps past it | TOSH_PROMPT = "%" | a '%' at the end of the format stops at the NUL | high (not executed) | Prompt.TrailingPercentAsWritten | Prompt.ParseAt |
| src/tosh.c:557 | `components` is sized by `strlen(path)` after strtok has cut the path after its first component | the working directory "/a/b" gives 2 entries for 2 components and a NULL | size the array from the whole path before it is cut | high (not executed) | Prompt.ComponentsOverflowAsWritten | Prompt.ComponentsCapacitySuffices |
| src/tosh.c:495, 508 | `newargs` grows with `realloc(newargs, bufsize * sizeof(char))`, a size in bytes for an array of pointers | a line with 65 arguments: after the first growth the array holds 16 pointers, and the 65th is written out of bounds | `bufsize * sizeof(char *)` | high (not executed) | Expansion.GrowAsWrittenTooSmall | Expansion.SlotsAfterGrow |
| src/tosh.c:654 | the history file is opened with "r+", which puts the stream at offset 0, so each session writes over the start of the old history | an old history "cd /tmp\n" and a new session that runs "ls": the file becomes "ls\n/tmp\n" | open for appending, so a session adds its lines after the old ones | medium (not executed) | History.HistoryOverwrittenAsWritten | History.AppendKeepsHistory |
