/** HeartRate/FileWriters.cs: the recording sinks of the older generation.
    The IBI file gets whole seconds (despite the method's name) and the log
    row is an unquoted interpolation whose third column repeats the BPM. */
module LegacyFileWriters {
  import opened Wrappers
  import opened Exceptions
  import opened Text
  import opened HeartRateData
  import opened Platform
  import FileWriters

  /** AsMilliseconds on one interval: Math.Round(t / 1024d), whole seconds. */
  function AsSeconds(t: int): (s: int)
    ensures 2 * Abs(t - 1024 * s) <= 1024
    ensures 2 * Abs(t - 1024 * s) == 1024 ==> s % 2 == 0
  {
    RoundHalfEven(t, 1024)
  }

  /** AsMilliseconds: every interval converted and rendered, in input order. */
  function AsMilliseconds(rr: seq<int>): (r: seq<string>)
    ensures |r| == |rr|
    ensures forall i :: 0 <= i < |rr| ==> r[i] == IntToString(AsSeconds(rr[i]))
  {
    if rr == [] then [] else [IntToString(AsSeconds(rr[0]))] + AsMilliseconds(rr[1..])
  }

  /** The intervals of the repository's IBI test come out as 4 to 9. */
  lemma AsMillisecondsTestVector()
    ensures AsMilliseconds([4 * 1024, 4 * 1024 + 516, 6 * 1024 + 4, 7 * 1024, 8 * 1024, 9 * 1024])
         == [IntToString(4), IntToString(5), IntToString(6), IntToString(7), IntToString(8), IntToString(9)]
  {
    RoundHalfEvenUnique(4 * 1024, 1024, 4);
    RoundHalfEvenUnique(4 * 1024 + 516, 1024, 5);
    RoundHalfEvenUnique(6 * 1024 + 4, 1024, 6);
    RoundHalfEvenUnique(7 * 1024, 1024, 7);
    RoundHalfEvenUnique(8 * 1024, 1024, 8);
    RoundHalfEvenUnique(9 * 1024, 1024, 9);
  }

  class IBIFile {
    const filename: Option<string>
    const fs: FileSystem

    constructor (filename: Option<string>, fs: FileSystem)
      ensures this.filename == filename && this.fs == fs
    {
      this.filename := filename;
      this.fs := fs;
    }

    /** IBIFile.Reading: File.AppendAllLines, one CRLF-terminated line per
        interval; there is no error-reading check in this version. */
    method Reading(reading: HeartRateReading) returns (o: Outcome<Exception>)
      modifies fs
      ensures filename.None? || reading.RRIntervals.None? || |reading.RRIntervals.value| == 0 ==>
        o == Pass && fs.files == old(fs.files)
      ensures filename.Some? && reading.RRIntervals.Some? && |reading.RRIntervals.value| > 0 ==>
        var path := filename.value;
        if path in fs.unwritable then o == Fail(IOException) && fs.files == old(fs.files)
        else o == Pass && fs.files == old(fs.files)[path := old(fs.Content(path)) + Lines(AsMilliseconds(reading.RRIntervals.value))]
    {
      if filename.None? { return Pass; }
      if reading.RRIntervals.None? { return Pass; }
      if |reading.RRIntervals.value| == 0 { return Pass; }
      o := fs.Append(filename.value, Lines(AsMilliseconds(reading.RRIntervals.value)));
    }
  }

  /** The interpolated row `{date},{bpm},{status},{energy},{rr}` and CRLF,
      where status is the BPM again. */
  function LogRow(date: string, reading: HeartRateReading): string
  {
    var bpm := IntToString(reading.BeatsPerMinute);
    var status := IntToString(reading.BeatsPerMinute);
    date + "," + bpm + "," + status + "," + FileWriters.OptionalIntString(reading.EnergyExpended)
      + "," + FileWriters.RrValue(reading.RRIntervals) + "\r\n"
  }

  /** Nothing in the row is quoted: the commas of the date and of the RR list
      add to the four separators, n >= 1 intervals adding n - 1. */
  lemma LogRowCommas(date: string, reading: HeartRateReading)
    ensures Count(LogRow(date, reading), ',') == Count(date, ',') + 4
      + (if reading.RRIntervals.None? || |reading.RRIntervals.value| == 0 then 0
         else |reading.RRIntervals.value| - 1)
  {
    var bpm := IntToString(reading.BeatsPerMinute);
    var energy := FileWriters.OptionalIntString(reading.EnergyExpended);
    var rr := FileWriters.RrValue(reading.RRIntervals);
    IntToStringPlain(reading.BeatsPerMinute);
    CountAbsent(bpm, ',');
    if reading.EnergyExpended.Some? {
      IntToStringPlain(reading.EnergyExpended.value);
    }
    CountAbsent(energy, ',');
    if reading.RRIntervals.Some? && |reading.RRIntervals.value| > 0 {
      JoinIntsCommas(reading.RRIntervals.value);
    } else if reading.RRIntervals.Some? {
      assert rr == "";
    }
    CountAbsent("\r\n", ',');
    var p1 := date + ",";
    var p2 := p1 + bpm;
    var p3 := p2 + ",";
    var p4 := p3 + bpm;
    var p5 := p4 + ",";
    var p6 := p5 + energy;
    var p7 := p6 + ",";
    var p8 := p7 + rr;
    CountConcat(date, ",", ',');
    CountConcat(p1, bpm, ',');
    CountConcat(p2, ",", ',');
    CountConcat(p3, bpm, ',');
    CountConcat(p4, ",", ',');
    CountConcat(p5, energy, ',');
    CountConcat(p6, ",", ',');
    CountConcat(p7, rr, ',');
    CountConcat(p8, "\r\n", ',');
  }

  class LogFile {
    const settings: HeartRateSettings
    const filename: Option<string>
    const fs: FileSystem

    constructor (settings: HeartRateSettings, filename: Option<string>, fs: FileSystem)
      ensures this.settings == settings && this.filename == filename && this.fs == fs
    {
      this.settings := settings;
      this.filename := filename;
      this.fs := fs;
    }

    /** LogFile.Reading: File.AppendAllText of the row when the format is
        csv; error readings are logged like any other. */
    method Reading(reading: HeartRateReading, now: Instant) returns (o: Outcome<Exception>)
      modifies fs
      ensures filename.None? || !FileWriters.IsCsv(settings.LogFormat) ==> o == Pass && fs.files == old(fs.files)
      ensures filename.Some? && FileWriters.IsCsv(settings.LogFormat) ==>
        var path := filename.value;
        if path in fs.unwritable then o == Fail(IOException) && fs.files == old(fs.files)
        else o == Pass && fs.files == old(fs.files)[path :=
          old(fs.Content(path)) + LogRow(FileWriters.DateString(settings, now), reading)]
    {
      if filename.None? {
        return Pass;
      }
      var data: Option<string> := None;
      var dateString := FileWriters.DateString(settings, now);
      if FileWriters.IsCsv(settings.LogFormat) {
        data := Some(LogRow(dateString, reading));
      }
      if data.Some? {
        o := fs.Append(filename.value, data.value);
      } else {
        o := Pass;
      }
    }
  }
}
