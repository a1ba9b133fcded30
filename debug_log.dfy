/** HeartRate/DebugLog.cs: a named logger over one process-wide log file.
    Every line also goes to the debugger's output; the file, once opened,
    is emptied before a write whenever it has grown past one MiB, so it
    never holds much more than that. */
module DebugLog {
  import opened Wrappers
  import opened Exceptions
  import opened Text
  import opened Platform

  /** The length, in bytes, past which the file is emptied before a write. */
  const MaxLength: nat := 1024 * 1024

  /** FormatLine: "{now}: {s}" and a line feed, `now` being DateTime.Now
      rendered by ToString(). */
  function FormatLine(now: string, s: string): (r: string)
    ensures |r| == |now| + |s| + 3
    ensures r[..|now|] == now && r[|now|..|now| + 2] == ": " && r[|now| + 2..|r| - 1] == s
    ensures r[|r| - 1] == '\n'
  {
    now + ": " + s + "\n"
  }

  /** The file's content after one write of `line`: the old content is kept
      while it is at most MaxLength bytes long, and dropped (SetLength(0))
      once it is longer. */
  function Appended(content: string, line: string): string {
    if Utf8Count(content) > MaxLength then line else content + line
  }

  /** A write keeps what was there exactly when the file had not outgrown
      the limit, and always ends with the new line. */
  lemma AppendedKeepsOrDrops(content: string, line: string)
    ensures Utf8Count(content) <= MaxLength ==> Appended(content, line)[..|content|] == content
    ensures Utf8Count(content) > MaxLength ==> Appended(content, line) == line
    ensures |Appended(content, line)| >= |line|
    ensures Appended(content, line)[|Appended(content, line)| - |line|..] == line
  {
  }

  /** With lines of at most `longest` bytes, a file that holds at most
      MaxLength + longest bytes still does after one more write. */
  lemma AppendedBounded(content: string, line: string, longest: nat)
    requires Utf8Count(content) <= MaxLength + longest
    requires Utf8Count(line) <= longest
    ensures Utf8Count(Appended(content, line)) <= MaxLength + longest
  {
    if Utf8Count(content) <= MaxLength {
      Utf8CountConcat(content, line);
    }
  }

  /** The content after `n` writes of the same line. */
  function WrittenTimes(content: string, line: string, n: nat): string
    decreases n
  {
    if n == 0 then content else WrittenTimes(Appended(content, line), line, n - 1)
  }

  /** However many lines are written, a log started empty stays within one
      line of MaxLength; this is what the repeated writes of the repository's
      truncation test exercise. */
  lemma {:induction false} WritesStayBounded(content: string, line: string, n: nat)
    requires Utf8Count(content) <= MaxLength + Utf8Count(line)
    ensures Utf8Count(WrittenTimes(content, line, n)) <= MaxLength + Utf8Count(line)
    decreases n
  {
    if n > 0 {
      AppendedBounded(content, line, Utf8Count(line));
      WritesStayBounded(Appended(content, line), line, n - 1);
    }
  }

  /** The static state: the open log file, if any (null before Initialize),
      and what went to Debug.WriteLine. */
  class LogState {
    const fs: FileSystem
    var stream: Option<string>
    var debugOutput: seq<string>

    /** A stream is only ever held on a file that could be opened. */
    ghost predicate Valid()
      reads this
    {
      stream.Some? ==> stream.value !in fs.unwritable
    }

    constructor (fs: FileSystem)
      ensures Valid()
      ensures this.fs == fs && stream == None && debugOutput == []
    {
      this.fs := fs;
      stream := None;
      debugOutput := [];
    }

    /** Initialize: open the file with FileMode.Create, which empties it;
        a file that cannot be opened throws and leaves the old stream. */
    method Initialize(filename: string) returns (o: Outcome<Exception>)
      requires Valid()
      modifies this, fs
      ensures Valid()
      ensures filename in fs.unwritable ==>
        o == Fail(IOException) && stream == old(stream) && fs.files == old(fs.files)
      ensures filename !in fs.unwritable ==>
        o == Pass && stream == Some(filename) && fs.files == old(fs.files)[filename := ""]
      ensures debugOutput == old(debugOutput)
    {
      o := fs.Create(filename, "");
      if o.Pass? {
        stream := Some(filename);
      }
    }

    /** WriteLog: the text goes to the debugger and, when a file is open,
        as a formatted line to the file, emptied first if it has grown past
        MaxLength. */
    method WriteLog(s: string, now: string)
      requires Valid()
      modifies this, fs
      ensures Valid()
      ensures debugOutput == old(debugOutput) + [s]
      ensures stream == old(stream)
      ensures stream.None? ==> fs.files == old(fs.files)
      ensures stream.Some? ==>
        fs.files == old(fs.files)[stream.value := Appended(old(fs.Content(stream.value)), FormatLine(now, s))]
    {
      debugOutput := debugOutput + [s];
      if stream.Some? {
        var content := fs.Content(stream.value);
        var line := FormatLine(now, s);
        if Utf8Count(content) > MaxLength {
          content := "";
          assert content + line == line;
        }
        var _ := fs.Create(stream.value, content + line);
      }
    }
  }

  /** A named logger. */
  class DebugLog {
    const name: string

    constructor (name: string)
      ensures this.name == name
    {
      this.name := name;
    }

    /** Write: the text, prefixed with the logger's name and ": ". */
    method Write(state: LogState, s: string, now: string)
      requires state.Valid()
      modifies state, state.fs
      ensures state.Valid()
      ensures state.debugOutput == old(state.debugOutput) + [name + ": " + s]
      ensures state.stream == old(state.stream)
      ensures state.stream.None? ==> state.fs.files == old(state.fs.files)
      ensures state.stream.Some? ==>
        state.fs.files == old(state.fs.files)[state.stream.value :=
          Appended(old(state.fs.Content(state.stream.value)), FormatLine(now, name + ": " + s))]
    {
      state.WriteLog(name + ": " + s, now);
    }
  }
}
