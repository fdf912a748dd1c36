/** The history file (tosh_record_line): every non-empty line read is
    written to the file, followed by a newline. */
module History {
  import opened Text

  const Newline: char := '\n'

  /** What one line adds to the history: nothing for an empty line, else the
      line and a newline. */
  function Entry(line: String): (e: String)
    ensures line == [] <==> e == []
  {
    if line == [] then [] else line + [Newline]
  }

  /** The text the history holds for the lines recorded, in order. */
  function Journal(lines: seq<String>): String
  {
    if lines == [] then [] else Entry(lines[0]) + Journal(lines[1..])
  }

  /** The lines with the empty ones left out. */
  function NonEmpty(lines: seq<String>): (ls: seq<String>)
    ensures forall k :: 0 <= k < |ls| ==> ls[k] != []
    ensures forall w :: w in ls ==> w in lines
  {
    if lines == [] then []
    else (if lines[0] == [] then [] else [lines[0]]) + NonEmpty(lines[1..])
  }

  /** The bytes of `contents` from offset n on (none past its end). */
  function Beyond(contents: String, n: nat): (t: String)
    ensures |t| == if n < |contents| then |contents| - n else 0
  {
    if n < |contents| then contents[n..] else []
  }

  /** `data` written over `contents` from offset `pos` on, as a stream
      opened with "r+" does: the bytes there are replaced, the file grows
      only past its end. */
  function Overwrite(contents: String, pos: nat, data: String): (c: String)
    requires pos <= |contents|
    ensures |c| == pos + |data| + |Beyond(contents, pos + |data|)|
    ensures c[..pos] == contents[..pos]
    ensures c[pos..pos + |data|] == data
    ensures c[pos + |data|..] == Beyond(contents, pos + |data|)
  {
    contents[..pos] + data + Beyond(contents, pos + |data|)
  }

  /** Bytes past the written range are those of the old file. */
  lemma BeyondOverwrite(contents: String, pos: nat, data: String, n: nat)
    requires pos <= |contents| && pos + |data| <= n
    ensures Beyond(Overwrite(contents, pos, data), n) == Beyond(contents, n)
  {
    var a := contents[..pos] + data;
    var b := Beyond(contents, pos + |data|);
    assert Overwrite(contents, pos, data) == a + b;
    if n < |a + b| {
      assert (a + b)[n..] == b[n - |a|..];
    }
  }

  /** The file's bytes and the stream's position. */
  datatype FileState = FileState(contents: String, pos: nat)

  predicate Positioned(f: FileState)
  {
    f.pos <= |f.contents|
  }

  /** The file after one call of tosh_record_line. */
  function Recorded(f: FileState, line: String): (f': FileState)
    requires Positioned(f)
    ensures Positioned(f')
  {
    var e := Entry(line);
    FileState(Overwrite(f.contents, f.pos, e), f.pos + |e|)
  }


  /** The file after recording the lines: their journal written from the
      stream position. */
  function RecordedAll(f: FileState, lines: seq<String>): (f': FileState)
    requires Positioned(f)
    ensures Positioned(f')
  {
    var j := Journal(lines);
    FileState(Overwrite(f.contents, f.pos, j), f.pos + |j|)
  }

  /** Two writes in a row are one write of both. */
  lemma OverwriteTwice(contents: String, pos: nat, d1: String, d2: String)
    requires pos <= |contents|
    ensures Overwrite(Overwrite(contents, pos, d1), pos + |d1|, d2) == Overwrite(contents, pos, d1 + d2)
  {
    var c1 := Overwrite(contents, pos, d1);
    var n := pos + |d1| + |d2|;
    BeyondOverwrite(contents, pos, d1, n);
    assert c1[..pos + |d1|] == contents[..pos] + d1 by {
      assert c1[..pos + |d1|] == c1[..pos] + c1[pos..pos + |d1|];
    }
    assert (contents[..pos] + d1) + d2 == contents[..pos] + (d1 + d2);
  }

  /** Recording one line and then more is recording them all. */
  lemma RecordedThenAll(f: FileState, line: String, more: seq<String>)
    requires Positioned(f)
    ensures RecordedAll(Recorded(f, line), more) == RecordedAll(f, [line] + more)
  {
    assert ([line] + more)[1..] == more;
    OverwriteTwice(f.contents, f.pos, Entry(line), Journal(more));
  }

  /** Recording lines one call after the other is writing their journal. */
  lemma RecordedOneByOne(f: FileState, lines: seq<String>, line: String)
    requires Positioned(f)
    ensures Recorded(RecordedAll(f, lines), line) == RecordedAll(f, lines + [line])
  {
    JournalAppend(lines, line);
    OverwriteTwice(f.contents, f.pos, Journal(lines), Entry(line));
  }

  lemma {:induction false} JournalAppend(lines: seq<String>, line: String)
    ensures Journal(lines + [line]) == Journal(lines) + Entry(line)
  {
    if lines == [] {
      assert [] + [line] == [line];
      assert Journal([line]) == Entry(line) + Journal([]);
    } else {
      assert (lines + [line])[1..] == lines[1..] + [line];
      JournalAppend(lines[1..], line);
    }
  }

  /** A history started on an empty file holds exactly the journal; on an
      existing file, the journal overwrites its beginning and the rest of
      the old file stays. */
  lemma RecordedFromStart(contents: String, lines: seq<String>)
    ensures var g := RecordedAll(FileState(contents, 0), lines);
      && g.contents == Journal(lines) + Beyond(contents, |Journal(lines)|)
      && g.pos == |Journal(lines)|
      && (|Journal(lines)| >= |contents| ==> g.contents == Journal(lines))
  {
    assert contents[..0] == [];
  }

  lemma {:induction false} JournalOfNonEmpty(lines: seq<String>)
    ensures Journal(lines) == Journal(NonEmpty(lines))
  {
    if lines != [] {
      JournalOfNonEmpty(lines[1..]);
      var rest := NonEmpty(lines[1..]);
      if lines[0] != [] {
        assert NonEmpty(lines) == [lines[0]] + rest;
        assert ([lines[0]] + rest)[1..] == rest;
      } else {
        assert NonEmpty(lines) == [] + rest == rest;
        assert Journal(lines) == [] + Journal(lines[1..]) == Journal(lines[1..]);
      }
    }
  }

  lemma {:induction false} FieldsOfEntries(ls: seq<String>)
    requires forall k :: 0 <= k < |ls| ==> ls[k] != [] && Newline !in ls[k]
    ensures Fields(Journal(ls), {Newline}) == ls
  {
    var d := {Newline};
    if ls != [] {
      FieldsOfEntries(ls[1..]);
      var w, rest := ls[0], Journal(ls[1..]);
      assert DelimFree(w, d);
      assert Journal(ls) == w + ([Newline] + rest);
      FieldsAfterWord(w, [Newline] + rest, d);
      FieldsSkipDelim([Newline] + rest, d);
      assert ([Newline] + rest)[1..] == rest;
      assert [w] + ls[1..] == ls;
    }
  }

  /** Reading the history back, one line per newline, recovers the
      non-empty lines recorded, in order (for lines without a newline, as
      the line reader returns them). */
  lemma HistoryRoundTrip(lines: seq<String>)
    requires forall k :: 0 <= k < |lines| ==> Newline !in lines[k]
    ensures Fields(Journal(lines), {Newline}) == NonEmpty(lines)
  {
    JournalOfNonEmpty(lines);
    var ne := NonEmpty(lines);
    forall k | 0 <= k < |ne|
      ensures ne[k] != [] && Newline !in ne[k]
    {
      assert ne[k] in ne;
      var j :| 0 <= j < |lines| && lines[j] == ne[k];
    }
    FieldsOfEntries(ne);
  }

  lemma {:induction false} JournalConcat(a: seq<String>, b: seq<String>)
    ensures Journal(a + b) == Journal(a) + Journal(b)
  {
    if a == [] {
      assert a + b == b;
    } else {
      assert (a + b)[1..] == a[1..] + b;
      JournalConcat(a[1..], b);
    }
  }

  /** As written, the history file is opened with "r+", so a new session
      writes from offset 0 over the old history: after "cd /tmp" in one
      session, "ls" in the next leaves "ls" followed by the stray line
      "/tmp", and "cd /tmp" is lost. */
  lemma HistoryOverwrittenAsWritten()
    ensures RecordedAll(FileState("cd /tmp\n", 0), ["ls"]).contents == "ls\n/tmp\n"
  {
    assert Journal(["ls"]) == "ls\n" + Journal([]);
  }

  /** The stream as the evidently intended append mode opens it: at the end
      of the existing file. */
  function AppendOpened(existing: String): (f: FileState)
    ensures Positioned(f) && f.pos == |existing|
  {
    FileState(existing, |existing|)
  }

  /** Opened for appending, a session adds its journal after the old
      history, so reading the file back gives the lines of both sessions,
      the old ones first. */
  lemma AppendKeepsHistory(before: seq<String>, lines: seq<String>)
    requires forall k :: 0 <= k < |before| ==> Newline !in before[k]
    requires forall k :: 0 <= k < |lines| ==> Newline !in lines[k]
    ensures RecordedAll(AppendOpened(Journal(before)), lines).contents == Journal(before) + Journal(lines)
    ensures Fields(RecordedAll(AppendOpened(Journal(before)), lines).contents, {Newline}) == NonEmpty(before + lines)
  {
    var earlier := Journal(before);
    assert earlier[..|earlier|] == earlier;
    JournalConcat(before, lines);
    forall k | 0 <= k < |before + lines|
      ensures Newline !in (before + lines)[k]
    {
      if k >= |before| {
        assert (before + lines)[k] == lines[k - |before|];
      }
    }
    HistoryRoundTrip(before + lines);
  }

  /** The open history stream: the file's bytes and the position of the
      stream, which "r+" puts at the start. */
  class HistoryFile {
    var contents: String
    var pos: nat

    ghost predicate Valid()
      reads this
    {
      pos <= |contents|
    }

    ghost function State(): FileState
      reads this
    {
      FileState(contents, pos)
    }

    /** Opening an existing file for reading and writing. */
    constructor (existing: String)
      ensures Valid() && contents == existing && pos == 0
    {
      contents := existing;
      pos := 0;
    }

    method Write(data: String)
      requires Valid()
      modifies this
      ensures Valid()
      ensures contents == Overwrite(old(contents), old(pos), data) && pos == old(pos) + |data|
    {
      contents := Overwrite(contents, pos, data);
      pos := pos + |data|;
    }

    /** tosh_record_line: an empty line writes nothing; any other line is
        written followed by a newline. */
    method RecordLine(line: String)
      requires Valid()
      modifies this
      ensures Valid() && State() == Recorded(old(State()), line)
    {
      if |line| == 0 {
        return;
      }
      Write(line);
      Write([Newline]);
      assert line + [Newline] == Entry(line);
    }
  }
}
