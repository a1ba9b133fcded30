/** src/HeartRate/FileWriters.cs: the recording sinks of the newer
    generation. A CSV row is built into a reused StringBuilder with its own
    quoting rule (a backslash before each '"'); the IBI file gets one line per
    RR interval in milliseconds; the heart-rate file is overwritten with the
    BPM; the UDP writer sends the CSV row as one datagram. */
module FileWriters {
  import opened Wrappers
  import opened Exceptions
  import opened Text
  import opened HeartRateData
  import opened Extensions
  import opened Platform
  import DateTimeFormatter

  // ---------------------------------------------------------------- files

  /** FileWriter: a file name (null disables the writer) over a file system. */
  class FileWriter {
    const filename: Option<string>
    const fs: FileSystem

    constructor (filename: Option<string>, fs: FileSystem)
      ensures this.filename == filename && this.fs == fs
    {
      this.filename := filename;
      this.fs := fs;
    }

    /** AppendLine: append s and a CRLF, nothing without a file name. */
    method AppendLine(s: string) returns (o: Outcome<Exception>)
      modifies fs
      ensures filename.None? ==> o == Pass && fs.files == old(fs.files)
      ensures filename.Some? && filename.value in fs.unwritable ==>
        o == Fail(IOException) && fs.files == old(fs.files)
      ensures filename.Some? && filename.value !in fs.unwritable ==>
        o == Pass && fs.files == old(fs.files)[filename.value := old(fs.Content(filename.value)) + (s + "\r\n")]
    {
      if filename.None? {
        return Pass;
      }
      o := fs.Append(filename.value, s + "\r\n");
    }

    /** Write: replace the whole file with s (FileMode.Create). */
    method Write(s: string) returns (o: Outcome<Exception>)
      modifies fs
      ensures filename.None? ==> o == Pass && fs.files == old(fs.files)
      ensures filename.Some? && filename.value in fs.unwritable ==>
        o == Fail(IOException) && fs.files == old(fs.files)
      ensures filename.Some? && filename.value !in fs.unwritable ==>
        o == Pass && fs.files == old(fs.files)[filename.value := s]
    {
      if filename.None? {
        return Pass;
      }
      o := fs.Create(filename.value, s);
    }
  }

  // ---------------------------------------------------------------- IBI file

  /** One RR interval, in 1/1024 s, as whole milliseconds:
      Math.Round(t / 1024d * 1000d), which is exactly t * 125 / 128. */
  function AsMillis(t: int): (ms: int)
    ensures 2 * Abs(t * 125 - 128 * ms) <= 128
    ensures 2 * Abs(t * 125 - 128 * ms) == 128 ==> ms % 2 == 0
  {
    RoundHalfEven(t * 125, 128)
  }

  /** AsMS: every interval converted and rendered, in input order. */
  function AsMS(rr: seq<int>): (r: seq<string>)
    ensures |r| == |rr|
    ensures forall i :: 0 <= i < |rr| ==> r[i] == IntToString(AsMillis(rr[i]))
  {
    if rr == [] then [] else [IntToString(AsMillis(rr[0]))] + AsMS(rr[1..])
  }

  /** Conversion examples: 4 * 1024 is 4000 ms, 64 is 62.5 rounded to even,
      and 4 * 1024 + 516 is 4503.90625, which rounds to 4504. */
  lemma AsMillisExamples()
    ensures AsMillis(4096) == 4000
    ensures AsMillis(64) == 62
    ensures AsMillis(4 * 1024 + 516) == 4504
  {
    RoundHalfEvenUnique(4096 * 125, 128, 4000);
    RoundHalfEvenUnique(64 * 125, 128, 62);
    RoundHalfEvenUnique(4612 * 125, 128, 4504);
  }

  /** The RR intervals an IBI file records for a reading: None when it
      records nothing (null or empty intervals, or an error reading). */
  function IbiIntervals(reading: HeartRateReading): Option<seq<int>>
  {
    if reading.RRIntervals.None? || |reading.RRIntervals.value| == 0 || reading.IsError then None
    else reading.RRIntervals
  }

  class IBIFile {
    const writer: FileWriter

    constructor (writer: FileWriter)
      ensures this.writer == writer
    {
      this.writer := writer;
    }

    /** IBIFile.Reading: the intervals joined with CRLF, plus AppendLine's
        CRLF, i.e. one CRLF-terminated line per interval. */
    method Reading(reading: HeartRateReading) returns (o: Outcome<Exception>)
      modifies writer.fs
      ensures writer.filename.None? || IbiIntervals(reading).None? ==>
        o == Pass && writer.fs.files == old(writer.fs.files)
      ensures writer.filename.Some? && IbiIntervals(reading).Some? ==>
        var path := writer.filename.value;
        if path in writer.fs.unwritable then o == Fail(IOException) && writer.fs.files == old(writer.fs.files)
        else o == Pass && writer.fs.files == old(writer.fs.files)[path :=
          old(writer.fs.Content(path)) + Lines(AsMS(IbiIntervals(reading).value))]
    {
      if writer.filename.None? { return Pass; }
      if reading.RRIntervals.None? { return Pass; }
      if |reading.RRIntervals.value| == 0 { return Pass; }
      if reading.IsError { return Pass; }
      var lines := AsMS(reading.RRIntervals.value);
      JoinCrlfIsLines(lines);
      o := writer.AppendLine(Join(lines, "\r\n"));
    }
  }

  // ---------------------------------------------------------------- CSV

  /** The shared, thread-static StringBuilder. */
  class CsvBuilder {
    var text: string

    constructor ()
      ensures text == ""
    {
      text := "";
    }
  }

  /** The body of a quoted field: a backslash before each '"'. */
  function Escape(v: string): (e: string)
    ensures |e| == |v| + Count(v, '"')
    ensures e != [] ==> e[0] != '"'
  {
    if v == [] then []
    else (if v[0] == '"' then "\\\"" else [v[0]]) + Escape(v[1..])
  }

  lemma {:induction false} EscapeConcat(a: string, b: string)
    ensures Escape(a + b) == Escape(a) + Escape(b)
  {
    if a == [] {
      assert a + b == b;
    } else {
      assert (a + b)[0] == a[0] && (a + b)[1..] == a[1..] + b;
      EscapeConcat(a[1..], b);
    }
  }

  /** Reads a quoted field's body back: a backslash right before a '"' is
      dropped, every other character is kept. */
  function Unescape(e: string): string
  {
    if e == [] then []
    else if |e| >= 2 && e[0] == '\\' && e[1] == '"' then "\"" + Unescape(e[2..])
    else [e[0]] + Unescape(e[1..])
  }

  /** Escaping loses nothing: the field's value can be read back. */
  lemma {:induction false} UnescapeEscape(v: string)
    ensures Unescape(Escape(v)) == v
  {
    if v != [] {
      UnescapeEscape(v[1..]);
      var rest := Escape(v[1..]);
      if v[0] == '"' {
        assert Escape(v) == "\\\"" + rest;
        assert Escape(v)[2..] == rest;
      } else {
        assert Escape(v) == [v[0]] + rest;
        assert Escape(v)[1..] == rest;
        if v[0] == '\\' && rest != [] {
          assert rest[0] != '"';
        }
      }
    }
  }

  /** A field is quoted when asked to be or when it holds ',' or '\n'. */
  predicate NeedsQuotes(s: string, alwaysQuote: bool) {
    alwaysQuote || ',' in s || '\n' in s
  }

  /** The text AppendCsvValue appends for an already rendered value. */
  function CsvValue(s: string, alwaysQuote: bool, appendComma: bool): string
  {
    if NeedsQuotes(s, alwaysQuote) then "\"" + Escape(s) + "\"" + Comma(appendComma)
    else s + Comma(appendComma)
  }

  function Comma(appendComma: bool): string {
    if appendComma then "," else ""
  }

  /** A quoted field is '"', a body and '"' (then the comma); the body
      unescapes to the value and is longer by the number of '"' in it. An
      unquoted field is the value itself, any '"' included. */
  lemma CsvValueShape(s: string, alwaysQuote: bool, appendComma: bool)
    ensures NeedsQuotes(s, alwaysQuote) ==>
      var v := CsvValue(s, alwaysQuote, appendComma);
      var c := |Comma(appendComma)|;
      && |v| >= 2 + c && v[0] == '"' && v[|v| - 1 - c] == '"'
      && Unescape(v[1..|v| - 1 - c]) == s
      && |v[1..|v| - 1 - c]| == |s| + Count(s, '"')
    ensures !NeedsQuotes(s, alwaysQuote) ==> CsvValue(s, alwaysQuote, appendComma) == s + Comma(appendComma)
  {
    if NeedsQuotes(s, alwaysQuote) {
      var e := Escape(s);
      var comma := Comma(appendComma);
      var v := CsvValue(s, alwaysQuote, appendComma);
      assert v == "\"" + e + "\"" + comma;
      Quoted(e, comma);
      assert v[1..|v| - 1 - |comma|] == e;
      UnescapeEscape(s);
    }
  }

  /** Where the quotes and the body of a quoted field lie. */
  lemma Quoted(e: string, comma: string)
    ensures var v := "\"" + e + "\"" + comma;
      && |v| == |e| + 2 + |comma| && v[0] == '"' && v[|e| + 1] == '"' && v[1..|e| + 1] == e
  {
    var v := "\"" + e + "\"" + comma;
    assert v == "\"" + (e + ("\"" + comma));
    assert v[1..] == e + ("\"" + comma);
    assert v[1..|e| + 1] == v[1..][..|e|];
  }

  /** One more character of the body: a '"' is appended after a backslash,
      anything else by itself. */
  lemma EscapeSnoc(start: string, v: string, i: nat, before: string, after: string)
    requires i < |v| && before == start + Escape(v[..i])
    requires after == (if v[i] == '"' then before + "\\" + [v[i]] else before + [v[i]])
    ensures after == start + Escape(v[..i + 1])
  {
    assert v[..i + 1] == v[..i] + [v[i]];
    EscapeConcat(v[..i], [v[i]]);
    assert Escape([v[i]]) == (if v[i] == '"' then "\\\"" else [v[i]]);
  }

  /** AppendCsvValue: append the value's field, a character at a time. */
  method AppendCsvValue(sb: CsvBuilder, stringed: string, alwaysQuote: bool, appendComma: bool)
    modifies sb
    ensures sb.text == old(sb.text) + CsvValue(stringed, alwaysQuote, appendComma)
  {
    var needsQuotes := alwaysQuote || ',' in stringed || '\n' in stringed;
    if !needsQuotes {
      sb.text := sb.text + stringed;
      if appendComma { sb.text := sb.text + ","; }
      return;
    }
    sb.text := sb.text + "\"";
    ghost var start := sb.text;
    var i := 0;
    while i < |stringed|
      invariant 0 <= i <= |stringed|
      invariant sb.text == start + Escape(stringed[..i])
    {
      var c := stringed[i];
      ghost var before := sb.text;
      if c == '"' { sb.text := sb.text + "\\"; }
      sb.text := sb.text + [c];
      EscapeSnoc(start, stringed, i, before, sb.text);
      i := i + 1;
    }
    assert stringed[..|stringed|] == stringed;
    sb.text := sb.text + ("\"" + Comma(appendComma));
    Regroup(old(sb.text), "\"", Escape(stringed), Comma(appendComma));
  }

  /** The field appended in three pieces is the field appended whole. */
  lemma Regroup(text: string, quote: string, body: string, comma: string)
    ensures text + quote + body + (quote + comma) == text + (quote + body + quote + comma)
  {
    assert text + quote + body + (quote + comma) == text + (quote + body) + (quote + comma);
  }

  /** (format ?? "").ToLower() == "csv". */
  predicate IsCsv(format: Option<string>) {
    var f := format.GetOr("");
    |f| == 3 && (f[0] == 'c' || f[0] == 'C') && (f[1] == 's' || f[1] == 'S') && (f[2] == 'v' || f[2] == 'V')
  }

  /** Nullable<int>.ToString(): empty for null. */
  function OptionalIntString(e: Option<int>): string {
    if e.None? then "" else IntToString(e.value)
  }

  /** The RR column: the raw intervals joined with ",", empty for null. */
  function RrValue(rr: Option<seq<int>>): string {
    if rr.None? then "" else Join(IntStrings(rr.value), ",")
  }

  /** The date column: the log date format, else DateTime.ToString(). */
  function DateString(settings: HeartRateSettings, now: Instant): string {
    DateTimeFormatter.Format(settings.LogDateFormat, now, Some(DateTimeFormatter.DefaultColumn))
  }

  /** The fields appended for a csv reading. */
  function CsvFields(date: string, reading: HeartRateReading): string
  {
    CsvValue(date, false, true)
      + CsvValue(IntToString(reading.BeatsPerMinute), false, true)
      + CsvValue(StatusName(reading.Status), false, true)
      + CsvValue(OptionalIntString(reading.EnergyExpended), false, true)
      + CsvValue(RrValue(reading.RRIntervals), true, false)
  }

  /** What GetCsv returns when the builder held `pending` on entry. */
  function CsvResult(pending: string, settings: HeartRateSettings, reading: HeartRateReading, now: Instant): Option<string>
  {
    if reading.IsError then None
    else
      var text := pending + (if IsCsv(settings.LogFormat) then CsvFields(DateString(settings, now), reading) else "");
      if |text| > 0 then Some(text) else None
  }

  /** The row of one reading, written out field by field: the date (quoted
      only if it holds ',' or '\n'), BPM, status name and energy expended
      verbatim, each followed by a comma, then the RR intervals, always
      quoted and never escaped since they hold no '"'. */
  function CsvRow(date: string, reading: HeartRateReading): string
  {
    ((if ',' in date || '\n' in date then "\"" + Escape(date) + "\"" else date) + ",")
      + (IntToString(reading.BeatsPerMinute) + ",")
      + (StatusName(reading.Status) + ",")
      + (OptionalIntString(reading.EnergyExpended) + ",")
      + ("\"" + RrValue(reading.RRIntervals) + "\"")
  }

  lemma {:induction false} EscapeNoQuote(s: string)
    requires '"' !in s
    ensures Escape(s) == s
  {
    if s != [] {
      EscapeNoQuote(s[1..]);
    }
  }

  lemma RrValuePlain(rr: Option<seq<int>>)
    ensures '"' !in RrValue(rr)
  {
    if rr.Some? {
      JoinIntsChars(rr.value);
    }
  }

  /** Every field but the date and the RR intervals is written verbatim. */
  lemma {:induction false} CsvFieldsIsRow(date: string, reading: HeartRateReading)
    ensures CsvFields(date, reading) == CsvRow(date, reading)
  {
    var bpm := IntToString(reading.BeatsPerMinute);
    var status := StatusName(reading.Status);
    var energy := OptionalIntString(reading.EnergyExpended);
    var rr := RrValue(reading.RRIntervals);
    IntToStringPlain(reading.BeatsPerMinute);
    if reading.EnergyExpended.Some? {
      IntToStringPlain(reading.EnergyExpended.value);
    }
    RrValuePlain(reading.RRIntervals);
    EscapeNoQuote(rr);
    PlainField(bpm);
    PlainField(status);
    PlainField(energy);
  }

  lemma PlainField(s: string)
    requires ',' !in s && '\n' !in s
    ensures CsvValue(s, false, true) == s + ","
  {
  }

  /** GetCsv from an empty builder: nothing for an error reading or a
      non-csv format, and otherwise the row, whose last field is quoted and
      not followed by a comma. */
  lemma GetCsvCases(settings: HeartRateSettings, reading: HeartRateReading, now: Instant)
    ensures reading.IsError ==> CsvResult("", settings, reading, now) == None
    ensures !IsCsv(settings.LogFormat) ==> CsvResult("", settings, reading, now) == None
    ensures !reading.IsError && IsCsv(settings.LogFormat) ==>
      CsvResult("", settings, reading, now) == Some(CsvRow(DateString(settings, now), reading))
  {
    var date := DateString(settings, now);
    CsvFieldsIsRow(date, reading);
    assert "" + CsvFields(date, reading) == CsvFields(date, reading);
  }

  /** A row ends with the closing quote of the RR field. */
  lemma CsvRowEnd(date: string, reading: HeartRateReading)
    ensures |CsvRow(date, reading)| > 0 && CsvRow(date, reading)[|CsvRow(date, reading)| - 1] == '"'
  {
  }

  /** The five AppendCsvValue calls of the csv case. */
  method AppendRow(sb: CsvBuilder, dateString: string, reading: HeartRateReading)
    modifies sb
    ensures sb.text == old(sb.text) + CsvFields(dateString, reading)
  {
    ghost var start := sb.text;
    AppendCsvValue(sb, dateString, false, true);
    ghost var done := CsvValue(dateString, false, true);
    AppendCsvValue(sb, IntToString(reading.BeatsPerMinute), false, true);
    done := Extend(start, done, CsvValue(IntToString(reading.BeatsPerMinute), false, true), sb.text);
    AppendCsvValue(sb, StatusName(reading.Status), false, true);
    done := Extend(start, done, CsvValue(StatusName(reading.Status), false, true), sb.text);
    AppendCsvValue(sb, OptionalIntString(reading.EnergyExpended), false, true);
    done := Extend(start, done, CsvValue(OptionalIntString(reading.EnergyExpended), false, true), sb.text);
    AppendCsvValue(sb, RrValue(reading.RRIntervals), true, false);
    done := Extend(start, done, CsvValue(RrValue(reading.RRIntervals), true, false), sb.text);
  }

  /** A builder that held start + done and got one more field holds
      start + (done + field). */
  lemma Extend(start: string, done: string, field: string, text: string) returns (next: string)
    requires text == start + done + field
    ensures next == done + field && text == start + next
  {
    next := done + field;
  }

  /** LogFile.GetCsv. */
  method GetCsv(sb: CsvBuilder, settings: HeartRateSettings, reading: HeartRateReading, now: Instant)
    returns (csv: Option<string>)
    modifies sb
    ensures csv == CsvResult(old(sb.text), settings, reading, now)
    ensures sb.text == if reading.IsError then old(sb.text) else ""
  {
    if reading.IsError {
      return None;
    }
    var dateString := DateString(settings, now);
    if IsCsv(settings.LogFormat) {
      AppendRow(sb, dateString, reading);
    } else {
      assert old(sb.text) + "" == old(sb.text);
    }
    if |sb.text| > 0 {
      csv := Some(sb.text);
      sb.text := "";
      return;
    }
    csv := None;
  }

  class LogFile {
    const settings: HeartRateSettings
    const writer: FileWriter

    constructor (settings: HeartRateSettings, writer: FileWriter)
      ensures this.settings == settings && this.writer == writer
    {
      this.settings := settings;
      this.writer := writer;
    }

    /** LogFile.Reading: append the CSV row, if any, as one line. The builder
        is not touched without a file name. */
    method Reading(sb: CsvBuilder, reading: HeartRateReading, now: Instant) returns (o: Outcome<Exception>)
      modifies sb, writer.fs
      ensures writer.filename.None? ==> o == Pass && writer.fs.files == old(writer.fs.files) && sb.text == old(sb.text)
      ensures writer.filename.Some? ==>
        var csv := CsvResult(old(sb.text), settings, reading, now);
        var path := writer.filename.value;
        && sb.text == (if reading.IsError then old(sb.text) else "")
        && (csv.None? ==> o == Pass && writer.fs.files == old(writer.fs.files))
        && (csv.Some? && path in writer.fs.unwritable ==> o == Fail(IOException) && writer.fs.files == old(writer.fs.files))
        && (csv.Some? && path !in writer.fs.unwritable ==>
              o == Pass && writer.fs.files == old(writer.fs.files)[path := old(writer.fs.Content(path)) + (csv.value + "\r\n")])
    {
      if writer.filename.None? {
        return Pass;
      }
      var csv := GetCsv(sb, settings, reading, now);
      if csv.None? {
        return Pass;
      }
      o := writer.AppendLine(csv.value);
    }
  }

  class HeartRateFile {
    const writer: FileWriter

    constructor (writer: FileWriter)
      ensures this.writer == writer
    {
      this.writer := writer;
    }

    /** HeartRateFile.Reading: the file becomes the decimal BPM. */
    method Reading(reading: HeartRateReading) returns (o: Outcome<Exception>)
      modifies writer.fs
      ensures writer.filename.None? || reading.IsError ==> o == Pass && writer.fs.files == old(writer.fs.files)
      ensures writer.filename.Some? && !reading.IsError ==>
        var path := writer.filename.value;
        if path in writer.fs.unwritable then o == Fail(IOException) && writer.fs.files == old(writer.fs.files)
        else o == Pass && writer.fs.files == old(writer.fs.files)[path := IntToString(reading.BeatsPerMinute)]
    {
      if writer.filename.None? { return Pass; }
      if reading.IsError { return Pass; }
      o := writer.Write(IntToString(reading.BeatsPerMinute));
    }
  }

  /** The heart-rate file of a non-negative BPM reads back as that BPM. */
  lemma HeartRateFileReadsBack(bpm: nat)
    ensures forall i :: 0 <= i < |IntToString(bpm)| ==> IsDigit(IntToString(bpm)[i])
    ensures ParseNat(IntToString(bpm)) == bpm
  {
    ParseNatToString(bpm);
  }

  // ---------------------------------------------------------------- UDP

  /** The size of the reused send buffer. */
  const BufferSize: nat := 1024 * 10

  class UdpWriter {
    const settings: HeartRateSettings
    const client: UdpClient?

    /** The client exists iff the UDP settings are valid. */
    constructor (settings: HeartRateSettings, handle: Resource)
      ensures this.settings == settings
      ensures (client != null) == settings.UdpIsValid
      ensures client != null ==> fresh(client) && client.sent == [] && client.handle == handle
    {
      this.settings := settings;
      if settings.UdpIsValid {
        client := new UdpClient(handle);
      } else {
        client := null;
      }
    }

    /** UdpWriter.Reading: one datagram, the CSV row plus "\n", when there is
        a client and a row; encoding into the 10 KiB buffer throws when the
        datagram needs more bytes, and Send throws on a disposed client. */
    method Reading(sb: CsvBuilder, reading: HeartRateReading, now: Instant) returns (o: Outcome<Exception>)
      modifies sb, client
      ensures client == null ==> o == Pass && sb.text == old(sb.text)
      ensures client != null ==>
        var csv := CsvResult(old(sb.text), settings, reading, now);
        && sb.text == (if reading.IsError then old(sb.text) else "")
        && (csv.None? ==> o == Pass && client.sent == old(client.sent))
        && (csv.Some? && Utf8Count(csv.value + "\n") > BufferSize ==>
              o == Fail(ArgumentException) && client.sent == old(client.sent))
        && (csv.Some? && Utf8Count(csv.value + "\n") <= BufferSize && client.handle.disposeCalls > 0 ==>
              o == Fail(ObjectDisposedException) && client.sent == old(client.sent))
        && (csv.Some? && Utf8Count(csv.value + "\n") <= BufferSize && client.handle.disposeCalls == 0 ==>
              o == Pass && client.sent == old(client.sent) + [csv.value + "\n"])
    {
      if client == null {
        return Pass;
      }
      var csv := GetCsv(sb, settings, reading, now);
      if csv.None? {
        return Pass;
      }
      var datagram := csv.value + "\n";
      if Utf8Count(datagram) > BufferSize {
        return Fail(ArgumentException);
      }
      o := client.Send(datagram);
    }

    /** UdpWriter.Dispose: TryDispose on the client, if any. */
    method Dispose()
      modifies if client != null then {client.handle} else {}
      ensures client != null ==> client.handle.disposeCalls == old(client.handle.disposeCalls) + 1
    {
      if client != null {
        var _ := TryDispose(client.handle);
      }
    }
  }

  /** A datagram is never empty and always ends in "\n"; for a row of at most
      2559 characters it always fits the buffer. */
  lemma DatagramFits(csv: string)
    requires |csv| + 1 <= BufferSize / 4
    ensures Utf8Count(csv + "\n") <= BufferSize
    ensures (csv + "\n")[|csv|] == '\n'
  {
    Utf8CountBounds(csv + "\n");
  }
}
