/** src/HeartRate/HeartRateForm.cs, the parts with logic: building the four
    recording sinks from the settings, passing each reading to them in a
    fixed order, classifying the reading for display, and the queue of the
    last label fonts. Drawing, menus and dialogs are not part of this model. */
module HeartRateForm {
  import opened Wrappers
  import opened Exceptions
  import opened Text
  import opened HeartRateData
  import opened Extensions
  import opened Platform
  import opened FileWriters
  import DateTimeFormatter

  /** The sinks, in the order a reading reaches them. */
  datatype Sink = Log | Ibi | Udp | HrFile

  /** isDisconnected: no beats or no skin contact. */
  predicate IsDisconnected(reading: HeartRateReading) {
    reading.BeatsPerMinute == 0 || reading.Status == NoContact
  }

  /** isWarn / isAlert: a level of zero or less disables the flag. */
  predicate AtLevel(level: int, bpm: int) {
    level > 0 && bpm >= level
  }

  /** The older form's test: anything but Contact counts as disconnected. */
  predicate LegacyIsDisconnected(status: ContactSensorStatus, bpm: int) {
    bpm == 0 || status != Contact
  }

  /** A disabled level never fires; an enabled one fires from the level up,
      and an alert level at or above the warn level implies the warning. */
  lemma LevelFacts(warn: int, alert: int, bpm: int, higher: int)
    ensures warn <= 0 ==> !AtLevel(warn, bpm)
    ensures AtLevel(warn, bpm) && bpm <= higher ==> AtLevel(warn, higher)
    ensures 0 < warn <= alert && AtLevel(alert, bpm) ==> AtLevel(warn, bpm)
  {
  }

  /** The two generations disagree exactly on readings with a non-zero BPM
      from a sensor that does not report contact. */
  lemma DisconnectedDiffers(reading: HeartRateReading)
    ensures LegacyIsDisconnected(reading.Status, reading.BeatsPerMinute) && !IsDisconnected(reading)
      <==> reading.BeatsPerMinute != 0 && (reading.Status == NotSupported || reading.Status == NotSupported2)
    ensures IsDisconnected(reading) ==> LegacyIsDisconnected(reading.Status, reading.BeatsPerMinute)
  {
  }

  /** What the notify icon shows after a reading: the tooltip text (null
      clears it), the icon text, and the warn and alert flags. */
  datatype Display = Display(tooltip: Option<string>, iconText: Option<string>, warn: bool, alert: bool)

  /** The display for a reading; `disconnectedTimedOut` says whether the
      disconnected stopwatch has passed its timeout. */
  function DisplayFor(settings: HeartRateSettings, reading: HeartRateReading, disconnectedTimedOut: bool): (d: Display)
    ensures reading.IsError ==>
      d.iconText == reading.Error
      && (reading.Error.None? ==> d.tooltip == None)
      && (reading.Error.Some? ==> d.tooltip.Some?
                                  && |d.tooltip.value| == (if |reading.Error.value| < 60 then |reading.Error.value| else 60)
                                  && d.tooltip.value == reading.Error.value[..|d.tooltip.value|])
    ensures !reading.IsError && IsDisconnected(reading) ==>
      var description := "Disconnected " + StatusName(reading.Status) + " (" + IntToString(reading.BeatsPerMinute) + ")";
      d.tooltip == Some(description)
      && d.iconText == Some(if disconnectedTimedOut then description else IntToString(reading.BeatsPerMinute))
    ensures !reading.IsError && !IsDisconnected(reading) ==>
      d.tooltip == None && d.iconText == Some(IntToString(reading.BeatsPerMinute))
    ensures d.warn == AtLevel(settings.WarnLevel, reading.BeatsPerMinute)
    ensures d.alert == AtLevel(settings.AlertLevel, reading.BeatsPerMinute)
  {
    var bpm := reading.BeatsPerMinute;
    var isWarn := settings.WarnLevel > 0 && bpm >= settings.WarnLevel;
    var isAlert := settings.AlertLevel > 0 && bpm >= settings.AlertLevel;
    if reading.IsError then
      var t := Truncate(reading.Error, 60);
      Display(t.value, reading.Error, isWarn, isAlert)
    else if IsDisconnected(reading) then
      var description := "Disconnected " + StatusName(reading.Status) + " (" + IntToString(bpm) + ")";
      Display(Some(description), Some(if disconnectedTimedOut then description else IntToString(bpm)), isWarn, isAlert)
    else Display(None, Some(IntToString(bpm)), isWarn, isAlert)
  }

  /** The most recent n entries of s. */
  function LastN(s: seq<Resource>, n: nat): (r: seq<Resource>)
    ensures |r| == if |s| < n then |s| else n
    ensures r == s[|s| - |r|..]
  {
    if |s| <= n then s else s[|s| - n..]
  }

  /** The most recent ten of one more entry are the most recent ten before
      it, with the oldest dropped when there were already ten. */
  lemma LastNSnoc(s: seq<Resource>, x: Resource)
    ensures LastN(s + [x], 10) ==
      if |LastN(s, 10)| + 1 > 10 then (LastN(s, 10) + [x])[1..] else LastN(s, 10) + [x]
  {
    var t := s + [x];
    if |s| >= 10 {
      assert t[|t| - 10..] == (s[|s| - 10..] + [x])[1..];
    } else {
      assert t == s + [x];
    }
  }

  /** The form's four sink fields at the start of a dispatch, with the file
      system and the builder they share. */
  datatype SinkSet = SinkSet(log: LogFile?, ibi: IBIFile?, udp: UdpWriter?, hrfile: HeartRateFile?,
                             fs: FileSystem, sb: CsvBuilder)
  {
    predicate Valid() {
      && (log != null ==> log.writer.fs == fs)
      && (ibi != null ==> ibi.writer.fs == fs)
      && (hrfile != null ==> hrfile.writer.fs == fs)
    }

    /** The UDP client, when there is one. */
    function Clients(): set<UdpClient> {
      if udp != null && udp.client != null then {udp.client} else {}
    }

    /** What the sinks' Reading calls can change: the files, the builder's
        pending text and the datagrams sent. */
    ghost function Snapshot(): Effects
      reads fs, sb, Clients()
    {
      Effects(fs.files, sb.text, if udp != null && udp.client != null then udp.client.sent else [])
    }

    /** Whether the UDP client has been disposed (a Send would throw). */
    ghost function Disposed(): bool
      reads if udp != null && udp.client != null then {udp.client.handle} else {}
    {
      udp != null && udp.client != null && udp.client.handle.disposeCalls > 0
    }

    /** What a sink's Reading may change. */
    function Footprint(): set<object> {
      {fs, sb} + (if udp != null && udp.client != null then {udp.client} else {})
    }
  }

  /** The four sinks LoadSettingsFilesLocked builds: a writer per file name
      over the shared file system, and a UDP writer for the settings. */
  method NewSinks(settings: HeartRateSettings, logName: Option<string>, ibiName: Option<string>,
                  hrName: Option<string>, handle: Resource, fs: FileSystem, sb: CsvBuilder)
    returns (made: SinkSet)
    ensures made.Valid() && made.fs == fs && made.sb == sb
    ensures made.log != null && fresh(made.log) && made.log.settings == settings && made.log.writer.filename == logName
    ensures made.ibi != null && fresh(made.ibi) && made.ibi.writer.filename == ibiName
    ensures made.udp != null && fresh(made.udp) && made.udp.settings == settings
    ensures (made.udp.client != null) == settings.UdpIsValid
    ensures made.udp.client != null ==> made.udp.client.sent == [] && made.udp.client.handle == handle
    ensures made.hrfile != null && fresh(made.hrfile) && made.hrfile.writer.filename == hrName
  {
    var logWriter := new FileWriter(logName, fs);
    var log := new LogFile(settings, logWriter);
    var ibiWriter := new FileWriter(ibiName, fs);
    var ibi := new IBIFile(ibiWriter);
    var udp := new UdpWriter(settings, handle);
    var hrWriter := new FileWriter(hrName, fs);
    var hrfile := new HeartRateFile(hrWriter);
    made := SinkSet(log, ibi, udp, hrfile, fs, sb);
  }

  /** The state the sinks write to: the files' text, the CSV builder's
      pending text, and the datagrams the UDP client has sent. */
  datatype Effects = Effects(files: map<string, string>, text: string, sent: seq<string>)

  /** The outcome of a dispatch so far and the state it left. */
  datatype Dispatched = Dispatched(outcome: Outcome<Exception>, effects: Effects)

  /** A file's text; a missing file reads as empty. */
  function FileContent(files: map<string, string>, path: string): string {
    if path in files then files[path] else ""
  }

  /** LogFile.Reading: with a file name, the CSV row is built from the
      builder's pending text (which is cleared unless the reading is an
      error) and, if there is one, appended as a line. */
  function LogStep(log: LogFile, unwritable: set<string>, reading: HeartRateReading, now: Instant, e: Effects): Dispatched {
    match log.writer.filename
    case None => Dispatched(Pass, e)
    case Some(path) =>
      var csv := CsvResult(e.text, log.settings, reading, now);
      var cleared := e.(text := if reading.IsError then e.text else "");
      if csv.None? then Dispatched(Pass, cleared)
      else if path in unwritable then Dispatched(Fail(IOException), cleared)
      else Dispatched(Pass, cleared.(files := e.files[path := FileContent(e.files, path) + (csv.value + "\r\n")]))
  }

  /** IBIFile.Reading: with a file name and intervals, one line per
      interval is appended. */
  function IbiStep(ibi: IBIFile, unwritable: set<string>, reading: HeartRateReading, e: Effects): Dispatched {
    if ibi.writer.filename.None? || IbiIntervals(reading).None? then Dispatched(Pass, e)
    else
      var path := ibi.writer.filename.value;
      if path in unwritable then Dispatched(Fail(IOException), e)
      else Dispatched(Pass, e.(files := e.files[path := FileContent(e.files, path) + Lines(AsMS(IbiIntervals(reading).value))]))
  }

  /** UdpWriter.Reading: with a client, the CSV row plus a line feed is
      sent, unless it is too long or the client is disposed. */
  function UdpStep(udp: UdpWriter, disposed: bool, reading: HeartRateReading, now: Instant, e: Effects): Dispatched {
    if udp.client == null then Dispatched(Pass, e)
    else
      var csv := CsvResult(e.text, udp.settings, reading, now);
      var cleared := e.(text := if reading.IsError then e.text else "");
      if csv.None? then Dispatched(Pass, cleared)
      else if Utf8Count(csv.value + "\n") > BufferSize then Dispatched(Fail(ArgumentException), cleared)
      else if disposed then Dispatched(Fail(ObjectDisposedException), cleared)
      else Dispatched(Pass, cleared.(sent := e.sent + [csv.value + "\n"]))
  }

  /** HeartRateFile.Reading: with a file name, the file becomes the BPM,
      unless the reading is an error. */
  function HeartRateFileStep(hrfile: HeartRateFile, unwritable: set<string>, reading: HeartRateReading, e: Effects): Dispatched {
    if hrfile.writer.filename.None? || reading.IsError then Dispatched(Pass, e)
    else
      var path := hrfile.writer.filename.value;
      if path in unwritable then Dispatched(Fail(IOException), e)
      else Dispatched(Pass, e.(files := e.files[path := IntToString(reading.BeatsPerMinute)]))
  }

  /** The two reads of DateTime.Now in a dispatch: GetCsv reads the clock
      once for the log sink and once more for the UDP sink, so their rows
      can carry different dates. */
  datatype Clocks = Clocks(log: Instant, udp: Instant)

  /** One `sink?.Reading(reading)` statement: nothing once an earlier sink
      has thrown or when the sink is absent, else that sink's Reading. */
  function Next(sinks: SinkSet, sink: Sink, reading: HeartRateReading, now: Clocks, disposed: bool, d: Dispatched): Dispatched {
    if d.outcome.Fail? then d
    else
      match sink
      case Log => if sinks.log == null then d else LogStep(sinks.log, sinks.fs.unwritable, reading, now.log, d.effects)
      case Ibi => if sinks.ibi == null then d else IbiStep(sinks.ibi, sinks.fs.unwritable, reading, d.effects)
      case Udp => if sinks.udp == null then d else UdpStep(sinks.udp, disposed, reading, now.udp, d.effects)
      case HrFile => if sinks.hrfile == null then d else HeartRateFileStep(sinks.hrfile, sinks.fs.unwritable, reading, d.effects)
  }

  /** The dispatch order. */
  const Order: seq<Sink> := [Log, Ibi, Udp, HrFile]

  /** The dispatch after its first k statements. */
  function Stage(sinks: SinkSet, reading: HeartRateReading, now: Clocks, disposed: bool, e: Effects, k: nat): Dispatched
    requires k <= |Order|
  {
    if k == 0 then Dispatched(Pass, e)
    else Next(sinks, Order[k - 1], reading, now, disposed, Stage(sinks, reading, now, disposed, e, k - 1))
  }

  /** The four statements of the dispatch, from state e. */
  function DispatchResult(sinks: SinkSet, reading: HeartRateReading, now: Clocks, disposed: bool, e: Effects): Dispatched {
    Stage(sinks, reading, now, disposed, e, |Order|)
  }

  /** Once a statement throws, the later ones change nothing: the dispatch
      ends with that exception and the state it left. */
  lemma {:induction false} FailureSkipsLater(sinks: SinkSet, reading: HeartRateReading, now: Clocks, disposed: bool, e: Effects, i: nat, j: nat)
    requires i <= j <= |Order|
    requires Stage(sinks, reading, now, disposed, e, i).outcome.Fail?
    ensures Stage(sinks, reading, now, disposed, e, j) == Stage(sinks, reading, now, disposed, e, i)
    decreases j
  {
    if j > i {
      FailureSkipsLater(sinks, reading, now, disposed, e, i, j - 1);
    }
  }

  /** A dispatch that returns had every statement return; one that throws
      ends with the state and exception of the first statement that threw,
      all statements before it having returned. */
  lemma {:induction false} FirstFailure(sinks: SinkSet, reading: HeartRateReading, now: Clocks, disposed: bool, e: Effects, k: nat)
    requires k <= |Order|
    ensures Stage(sinks, reading, now, disposed, e, k).outcome.Pass? ==>
      forall i :: 0 <= i <= k ==> Stage(sinks, reading, now, disposed, e, i).outcome.Pass?
    ensures Stage(sinks, reading, now, disposed, e, k).outcome.Fail? ==>
      exists i :: 0 < i <= k && Stage(sinks, reading, now, disposed, e, i - 1).outcome.Pass?
                  && Stage(sinks, reading, now, disposed, e, i) == Stage(sinks, reading, now, disposed, e, k)
  {
    if k > 0 {
      FirstFailure(sinks, reading, now, disposed, e, k - 1);
      var before := Stage(sinks, reading, now, disposed, e, k - 1);
      if before.outcome.Fail? {
        assert Stage(sinks, reading, now, disposed, e, k) == before;
      } else if Stage(sinks, reading, now, disposed, e, k).outcome.Fail? {
        assert Stage(sinks, reading, now, disposed, e, k - 1).outcome.Pass?;
      }
    }
  }

  /** After a dispatch that returned, the heart-rate file holds just the
      BPM of a reading that is not an error, even when another sink writes
      to the same path: it is written last. */
  lemma HeartRateFileHoldsBpm(sinks: SinkSet, reading: HeartRateReading, now: Clocks, disposed: bool, e: Effects)
    requires sinks.hrfile != null && sinks.hrfile.writer.filename.Some? && !reading.IsError
    requires DispatchResult(sinks, reading, now, disposed, e).outcome.Pass?
    ensures FileContent(DispatchResult(sinks, reading, now, disposed, e).effects.files, sinks.hrfile.writer.filename.value)
      == IntToString(reading.BeatsPerMinute)
  {
    FirstFailure(sinks, reading, now, disposed, e, 4);
    Stages(sinks, reading, now, disposed, e);
    assert Stage(sinks, reading, now, disposed, e, 3).outcome.Pass?;
  }

  /** With every sink absent or disabled (no file name, no UDP client), as
      when all the settings are blank and UDP is not valid, the dispatch
      returns and changes nothing. */
  lemma {:induction false} NoSinksNoEffect(sinks: SinkSet, reading: HeartRateReading, now: Clocks, disposed: bool, e: Effects, k: nat)
    requires k <= |Order|
    requires sinks.log == null || sinks.log.writer.filename.None?
    requires sinks.ibi == null || sinks.ibi.writer.filename.None?
    requires sinks.udp == null || sinks.udp.client == null
    requires sinks.hrfile == null || sinks.hrfile.writer.filename.None?
    ensures Stage(sinks, reading, now, disposed, e, k) == Dispatched(Pass, e)
  {
    if k > 0 {
      NoSinksNoEffect(sinks, reading, now, disposed, e, k - 1);
    }
  }

  /** The file names the sinks present write to. */
  function SinkPaths(sinks: SinkSet): set<string> {
    (if sinks.log != null && sinks.log.writer.filename.Some? then {sinks.log.writer.filename.value} else {})
    + (if sinks.ibi != null && sinks.ibi.writer.filename.Some? then {sinks.ibi.writer.filename.value} else {})
    + (if sinks.hrfile != null && sinks.hrfile.writer.filename.Some? then {sinks.hrfile.writer.filename.value} else {})
  }

  /** The stages of the dispatch, one statement at a time. */
  lemma Stages(sinks: SinkSet, reading: HeartRateReading, now: Clocks, disposed: bool, e: Effects)
    ensures Stage(sinks, reading, now, disposed, e, 0) == Dispatched(Pass, e)
    ensures Stage(sinks, reading, now, disposed, e, 1) == Next(sinks, Log, reading, now, disposed, Stage(sinks, reading, now, disposed, e, 0))
    ensures Stage(sinks, reading, now, disposed, e, 2) == Next(sinks, Ibi, reading, now, disposed, Stage(sinks, reading, now, disposed, e, 1))
    ensures Stage(sinks, reading, now, disposed, e, 3) == Next(sinks, Udp, reading, now, disposed, Stage(sinks, reading, now, disposed, e, 2))
    ensures Stage(sinks, reading, now, disposed, e, 4) == Next(sinks, HrFile, reading, now, disposed, Stage(sinks, reading, now, disposed, e, 3))
  {
  }

  /** One statement sends a datagram only if it is the UDP one, and writes
      no file but the sinks' own. */
  lemma NextFrame(sinks: SinkSet, sink: Sink, reading: HeartRateReading, now: Clocks, disposed: bool, d: Dispatched)
    ensures var r := Next(sinks, sink, reading, now, disposed, d).effects;
      && (r.sent == d.effects.sent || (sink == Udp && |r.sent| == |d.effects.sent| + 1 && r.sent[..|d.effects.sent|] == d.effects.sent))
      && r.files.Keys <= d.effects.files.Keys + SinkPaths(sinks)
      && forall p :: p !in SinkPaths(sinks) ==> FileContent(r.files, p) == FileContent(d.effects.files, p)
  {
    var r := Next(sinks, sink, reading, now, disposed, d).effects;
    if d.outcome.Pass? && sink == Udp && sinks.udp != null && r.sent != d.effects.sent {
      assert r.sent[..|d.effects.sent|] == d.effects.sent;
    }
  }

  /** A dispatch sends at most one datagram, after those already sent, and
      writes no file but the sinks' own. */
  lemma {:induction false} DispatchFrame(sinks: SinkSet, reading: HeartRateReading, now: Clocks, disposed: bool, e: Effects, k: nat)
    requires k <= |Order|
    ensures var r := Stage(sinks, reading, now, disposed, e, k).effects;
      && (r.sent == e.sent || (|r.sent| == |e.sent| + 1 && r.sent[..|e.sent|] == e.sent))
      && r.files.Keys <= e.files.Keys + SinkPaths(sinks)
      && forall p :: p !in SinkPaths(sinks) ==> FileContent(r.files, p) == FileContent(e.files, p)
  {
    if k > 0 {
      DispatchFrame(sinks, reading, now, disposed, e, k - 1);
      var before := Stage(sinks, reading, now, disposed, e, k - 1);
      NextFrame(sinks, Order[k - 1], reading, now, disposed, before);
      if k == 3 {
        SentOnlyByUdp(sinks, reading, now, disposed, e, 2);
      } else {
        assert Order[k - 1] != Udp;
      }
    }
  }

  /** Before the UDP statement nothing has been sent. */
  lemma {:induction false} SentOnlyByUdp(sinks: SinkSet, reading: HeartRateReading, now: Clocks, disposed: bool, e: Effects, k: nat)
    requires k <= 2
    ensures Stage(sinks, reading, now, disposed, e, k).effects.sent == e.sent
  {
    if k > 0 {
      SentOnlyByUdp(sinks, reading, now, disposed, e, k - 1);
      NextFrame(sinks, Order[k - 1], reading, now, disposed, Stage(sinks, reading, now, disposed, e, k - 1));
    }
  }

  /** One `sink?.Reading(reading)` statement of the dispatch, run after
      statements that ended with `earlier`: nothing once one of them has
      thrown or when the sink is absent, else the sink's Reading call. */
  method Deliver(sinks: SinkSet, sink: Sink, reading: HeartRateReading, now: Clocks,
                 earlier: Outcome<Exception>, ghost disposed: bool)
    returns (o: Outcome<Exception>)
    requires sinks.Valid() && disposed == sinks.Disposed()
    modifies sinks.Footprint()
    ensures disposed == sinks.Disposed()
    ensures Dispatched(o, sinks.Snapshot()) == Next(sinks, sink, reading, now, disposed, Dispatched(earlier, old(sinks.Snapshot())))
  {
    o := earlier;
    if earlier.Fail? {
      return;
    }
    match sink {
      case Log => if sinks.log != null { o := sinks.log.Reading(sinks.sb, reading, now.log); }
      case Ibi => if sinks.ibi != null { o := sinks.ibi.Reading(reading); }
      case Udp => if sinks.udp != null { o := sinks.udp.Reading(sinks.sb, reading, now.udp); }
      case HrFile => if sinks.hrfile != null { o := sinks.hrfile.Reading(reading); }
    }
  }

  class HeartRateForm {
    var settings: HeartRateSettings
    const startedAt: Instant
    const invalidFileNameChars: set<char>
    const fs: FileSystem
    const sb: CsvBuilder
    var log: LogFile?
    var ibi: IBIFile?
    var udp: UdpWriter?
    var hrfile: HeartRateFile?
    var caught: seq<Exception>
    var display: Display
    var lastFonts: seq<Resource>
    ghost var createdFonts: seq<Resource>

    /** Every file sink writes to the form's file system, and the font queue
        holds the ten fonts created last. */
    ghost predicate Valid()
      reads this
    {
      && (log != null ==> log.writer.fs == fs)
      && (ibi != null ==> ibi.writer.fs == fs)
      && (hrfile != null ==> hrfile.writer.fs == fs)
      && lastFonts == LastN(createdFonts, 10)
    }

    /** The four sinks with the file system and builder they share. */
    function Outputs(): SinkSet
      reads this
    {
      SinkSet(log, ibi, udp, hrfile, fs, sb)
    }

    /** The objects a reading may change besides the form. */
    function Footprint(): set<object>
      reads this
    {
      {fs, sb} + (if udp != null && udp.client != null then {udp.client} else {})
    }

    /** FormatFilename: a null or blank setting disables the sink; anything
        else has its date tokens replaced, sanitised for a path. */
    function FormatFilename(input: Option<string>): (r: Option<string>)
      ensures r.None? <==> IsNullOrWhiteSpace(input)
    {
      if IsNullOrWhiteSpace(input) then None
      else Some(DateTimeFormatter.FormatStringTokens(
        input.value, startedAt, Some(DateTimeFormatter.DefaultFilename), true, invalidFileNameChars))
    }

    /** A name without date tokens is used as it is, path separators and all. */
    lemma FormatFilenamePlain(name: string)
      requires !IsNullOrWhiteSpace(Some(name)) && '%' !in name
      ensures FormatFilename(Some(name)) == Some(name)
    {
      DateTimeFormatter.LiteralPrefix(name, "", startedAt, Some(DateTimeFormatter.DefaultFilename), true, invalidFileNameChars);
      assert name + "" == name;
    }

    /** The constructor's share of the core: the fields start out empty,
        then LoadSettingsLocked builds the four sinks from the settings. */
    constructor (settings: HeartRateSettings, startedAt: Instant, invalid: set<char>, fs: FileSystem, sb: CsvBuilder,
                 handle: Resource)
      ensures Valid()
      ensures this.settings == settings && this.startedAt == startedAt && this.invalidFileNameChars == invalid
      ensures this.fs == fs && this.sb == sb
      ensures log != null && fresh(log) && log.settings == settings && log.writer.filename == FormatFilename(settings.LogFile)
      ensures ibi != null && fresh(ibi) && ibi.writer.filename == FormatFilename(settings.IBIFile)
      ensures udp != null && fresh(udp) && udp.settings == settings && (udp.client != null) == settings.UdpIsValid
      ensures udp.client != null ==> udp.client.sent == [] && udp.client.handle == handle
      ensures hrfile != null && fresh(hrfile) && hrfile.writer.filename == FormatFilename(settings.HeartRateFile)
      ensures caught == [] && lastFonts == []
    {
      this.settings := settings;
      this.startedAt := startedAt;
      this.invalidFileNameChars := invalid;
      this.fs := fs;
      this.sb := sb;
      log := null;
      ibi := null;
      udp := null;
      hrfile := null;
      caught := [];
      display := Display(None, None, false, false);
      lastFonts := [];
      createdFonts := [];
      new;
      LoadSettingsFilesLocked(handle);
    }

    /** LoadSettingsFilesLocked: dispose the old UDP writer, then replace all
        four sinks with ones built from the current settings. */
    method LoadSettingsFilesLocked(handle: Resource)
      requires Valid()
      modifies this, if udp != null && udp.client != null then {udp.client.handle} else {}
      ensures Valid()
      ensures old(udp) != null && old(udp).client != null ==>
        old(udp).client.handle.disposeCalls == old(udp.client.handle.disposeCalls) + 1
      ensures log != null && fresh(log) && log.settings == settings && log.writer.filename == FormatFilename(settings.LogFile)
      ensures ibi != null && fresh(ibi) && ibi.writer.filename == FormatFilename(settings.IBIFile)
      ensures udp != null && fresh(udp) && udp.settings == settings && (udp.client != null) == settings.UdpIsValid
      ensures udp.client != null ==> udp.client.sent == [] && udp.client.handle == handle
      ensures hrfile != null && fresh(hrfile) && hrfile.writer.filename == FormatFilename(settings.HeartRateFile)
      ensures settings == old(settings) && caught == old(caught)
      ensures display == old(display) && lastFonts == old(lastFonts) && createdFonts == old(createdFonts)
    {
      var logName := FormatFilename(settings.LogFile);
      var ibiName := FormatFilename(settings.IBIFile);
      var hrName := FormatFilename(settings.HeartRateFile);
      if udp != null {
        udp.Dispose();
      }
      var made := NewSinks(settings, logName, ibiName, hrName, handle, fs, sb);
      log, ibi, udp, hrfile := made.log, made.ibi, made.udp, made.hrfile;
    }

    /** The first four statements of Service_HeartRateUpdatedCore: the
        reading goes to the log, IBI, UDP and heart-rate-file sinks that are
        present, in that order, and an exception from one skips the rest.
        The outcome and the files, builder and datagrams it leaves are those
        of DispatchResult. */
    method Dispatch(reading: HeartRateReading, now: Clocks) returns (o: Outcome<Exception>)
      requires Valid()
      modifies Footprint()
      ensures Dispatched(o, old(Outputs()).Snapshot()) ==
        DispatchResult(old(Outputs()), reading, now, old(Outputs().Disposed()), old(Outputs().Snapshot()))
    {
      var sinks := Outputs();
      ghost var start, disposed := sinks.Snapshot(), sinks.Disposed();
      Stages(sinks, reading, now, disposed, start);
      o := Deliver(sinks, Log, reading, now, Pass, disposed);
      assert Dispatched(o, sinks.Snapshot()) == Stage(sinks, reading, now, disposed, start, 1);
      o := Deliver(sinks, Ibi, reading, now, o, disposed);
      assert Dispatched(o, sinks.Snapshot()) == Stage(sinks, reading, now, disposed, start, 2);
      o := Deliver(sinks, Udp, reading, now, o, disposed);
      assert Dispatched(o, sinks.Snapshot()) == Stage(sinks, reading, now, disposed, start, 3);
      o := Deliver(sinks, HrFile, reading, now, o, disposed);
    }

    /** Service_HeartRateUpdatedCore up to the display update: the dispatch,
        and the display only when no sink threw. */
    method HeartRateUpdatedCore(reading: HeartRateReading, now: Clocks, disconnectedTimedOut: bool)
      returns (o: Outcome<Exception>)
      requires Valid()
      modifies this, Footprint()
      ensures Dispatched(o, old(Outputs()).Snapshot()) ==
        DispatchResult(old(Outputs()), reading, now, old(Outputs().Disposed()), old(Outputs().Snapshot()))
      ensures display == if o.Pass? then DisplayFor(settings, reading, disconnectedTimedOut) else old(display)
      ensures log == old(log) && ibi == old(ibi) && udp == old(udp) && hrfile == old(hrfile)
      ensures settings == old(settings) && caught == old(caught)
      ensures lastFonts == old(lastFonts) && createdFonts == old(createdFonts)
    {
      o := Dispatch(reading, now);
      if o.Pass? {
        display := DisplayFor(settings, reading, disconnectedTimedOut);
      }
    }

    /** Service_HeartRateUpdated: the core, with whatever it throws caught
        and logged. */
    method HeartRateUpdated(reading: HeartRateReading, now: Clocks, disconnectedTimedOut: bool)
      requires Valid()
      modifies this, Footprint()
      ensures Valid()
      ensures var r := DispatchResult(old(Outputs()), reading, now, old(Outputs().Disposed()), old(Outputs().Snapshot()));
        && old(Outputs()).Snapshot() == r.effects
        && caught == old(caught) + (if r.outcome.Fail? then [r.outcome.error] else [])
        && display == if r.outcome.Pass? then DisplayFor(settings, reading, disconnectedTimedOut) else old(display)
      ensures log == old(log) && ibi == old(ibi) && udp == old(udp) && hrfile == old(hrfile)
      ensures settings == old(settings)
      ensures lastFonts == old(lastFonts) && createdFonts == old(createdFonts)
    {
      var o := HeartRateUpdatedCore(reading, now, disconnectedTimedOut);
      if o.Fail? {
        caught := caught + [o.error];
      }
    }

    /** UpdateLabelFontLocked's queue: enqueue the new font and, past ten,
        dequeue the oldest and dispose it. */
    method UpdateLabelFontLocked(newFont: Resource)
      requires Valid()
      modifies this, if |lastFonts| >= 10 then {lastFonts[0]} else {}
      ensures Valid()
      ensures createdFonts == old(createdFonts) + [newFont]
      ensures |lastFonts| <= 10 && lastFonts[|lastFonts| - 1] == newFont
      ensures |old(lastFonts)| >= 10 ==>
        lastFonts == old(lastFonts)[1..] + [newFont]
        && old(lastFonts)[0].disposeCalls == old(lastFonts[0].disposeCalls) + 1
      ensures |old(lastFonts)| < 10 ==> lastFonts == old(lastFonts) + [newFont]
      ensures settings == old(settings) && log == old(log) && ibi == old(ibi) && udp == old(udp) && hrfile == old(hrfile)
      ensures caught == old(caught) && display == old(display)
    {
      LastNSnoc(createdFonts, newFont);
      createdFonts := createdFonts + [newFont];
      lastFonts := lastFonts + [newFont];
      if |lastFonts| > 10 {
        var oldest := lastFonts[0];
        lastFonts := lastFonts[1..];
        var _ := TryDispose(oldest);
      }
    }
  }
}
