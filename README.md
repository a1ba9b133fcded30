# HeartRate, modelled in Dafny

A model of the logic of HeartRate, a Windows tray application that reads a
Bluetooth heart-rate strap and shows the BPM. It also records readings to a
CSV log, an inter-beat-interval (IBI) file, a heart-rate file and a UDP
socket. The repository holds two generations of the application:

- the older `HeartRate/` tree;
- the newer `src/HeartRate/` tree.

Where both have a component, each is modelled in its own module and their
behaviours are not merged.

| module | file | models |
|---|---|---|
| `Wrappers`, `Exceptions`, `Text` | `common.dfy` | null as `Option`, a thrown exception as `Outcome.Fail`, the .NET exceptions involved, `Int32.ToString`, `String.Join`, `Char.IsWhiteSpace`, UTF-8 byte counts |
| `HeartRateData` | `heart_rate_data.dfy` | `ContactSensorStatus`, `HeartRateReading`, the settings fields read by the core, a `DateTime` as its three renderings |
| `Extensions` | `extensions.dfy` | `Truncate`, `ReadUInt16` over a byte stream, `TryDispose` |
| `Platform` | `platform.dfy` | files as a map from path to text, a UDP client recording its datagrams, `Math.Round`'s half-to-even rule on exact rationals |
| `DateTimeFormatter` | `date_time_formatter.dfy` | the `%date%` / `%date:<fmt>%` token replacement, path sanitising, format selection |
| `HeartRateService` | `heart_rate_service.dfy` | decoding of the Heart Rate Measurement characteristic (0x2A37), and the dispose state of the service |
| `WatchdogModel`, `Watchdog`, `LegacyWatchdog` | `watchdog_model.dfy`, `watchdog.dfy`, `legacy_watchdog.dfy` | the reconnect watchdog of each generation, as a state machine over an abstract millisecond clock |
| `FileWriters` | `file_writers.dfy` | the newer sinks: the CSV row and its quoting, the IBI file in milliseconds, the heart-rate file, the UDP writer |
| `LegacyFileWriters` | `legacy_file_writers.dfy` | the older sinks: the IBI file in whole seconds, the unquoted CSV row |
| `HeartRateForm` | `heart_rate_form.dfy` | the newer form's sink rebuild, the fixed-order dispatch, the display classification, the queue of the last ten fonts |
| `DebugLog` | `debug_log.dfy` | the named logger and its self-truncating log file |
| `TestService`, `LennoxTestService` | `test_services.dfy` | the two timer-driven test services that emit canned readings |

Stateful objects are classes whose methods change their fields:

- a file-system object whose `files` map the writers update;
- the shared `StringBuilder` of the CSV code;
- the UDP client's list of sent datagrams;
- the form's four sink fields and its font queue;
- the debug log's stream;
- the test services' counters.

Each such method's postcondition gives the new state as a function of the
old one. Lemmas about those functions state what the code promises.

Things the program gets from outside are parameters of the model:

- the current time and the date renderings (`DateTime.ToString()`,
  `ToString(format)`, `ToOADate()`);
- the platform's invalid file-name characters;
- whether a file can be opened;
- whether `UDP.IsValid` holds;
- the outcome of every Bluetooth call.

The 16-bit BPM field is little-endian, as section 3.1 of the Bluetooth
Heart Rate Service specification prescribes, and `Extensions.ReadUInt16`
reads its two bytes that way too. The older decoder reads it through a WinRT
`DataReader` whose byte order it never sets; that reader's default is
big-endian. The decoder is modelled in both byte orders (`DecodeIn`). The
little-endian one (`Decode`) is used throughout, and the difference is
listed under "## Findings".

The two generations convert an IBI interval, counted in 1/1024 s, in
different ways. For the interval 4·1024+516:

- the newer code, `Math.Round(t / 1024d * 1000d)`, gives 4504 ms
  (`FileWriters.AsMillisExamples`);
- the older code, `Math.Round(t / 1024d)`, gives 5, in seconds
  (`LegacyFileWriters.AsMillisecondsTestVector`). This is what the
  repository's own test expects of it.

## Model

| member | source | states |
|---|---|---|
| Text.IntToString | src/HeartRate/FileWriters.cs:168 | `Int32.ToString` produces at least one character, and only digits and '-' |
| Text.NatToString | src/HeartRate/FileWriters.cs:168 | a non-negative number renders as at least one decimal digit, only digits, and no leading zero unless the number is 0 |
| Text.ParseNatToString | src/HeartRate/FileWriters.cs:168 | the decimal rendering of a non-negative number reads back as that number |
| Text.IntToStringPlain | src/HeartRate/FileWriters.cs:121 | a rendered number holds no ',', '\n' or '"', so a CSV field holding one is never quoted |
| Text.IntStrings | src/HeartRate/FileWriters.cs:110 | each element rendered, in order, with the length kept |
| Text.JoinCrlfIsLines | src/HeartRate/FileWriters.cs:67 | joining lines with CRLF and appending AppendLine's CRLF is one CRLF-terminated line per element |
| Text.JoinIntsCommas | HeartRate/FileWriters.cs:53-55 | `String.Join(",", rr)` over n >= 1 numbers holds exactly n - 1 commas |
| Text.JoinIntsChars | src/HeartRate/FileWriters.cs:108-110 | a joined RR list holds only digits, '-' and ',', so it never needs escaping |
| Text.CountConcat | HeartRate/FileWriters.cs:65 | the comma count of a concatenation is the sum of the parts' counts |
| Text.Utf8CountConcat | HeartRate/DebugLog.cs:40-47 | the UTF-8 byte count of a concatenation is the sum of the parts' counts |
| Text.Utf8CountBounds | src/HeartRate/FileWriters.cs:200 | a string needs between one and four UTF-8 bytes per character |
| Text.Utf8Count | src/HeartRate/FileWriters.cs:200 | the byte count of `Encoding.UTF8.GetBytes`: one to four bytes per character by its code point, summed over the string |
| HeartRateData.StatusFromOrdinal | HeartRate/HeartRateService.cs:15-21 | the cast of a two-bit value to `ContactSensorStatus` has that ordinal |
| HeartRateData.StatusName | src/HeartRate/FileWriters.cs:122 | an enum name never holds ',', '\n' or '"' |
| Extensions.Truncate | HeartRate/Extensions.cs:52-57 | null gives null; for length >= 0 the result is the prefix of length min(\|s\|, length); a negative length on a non-null string throws ArgumentOutOfRangeException |
| Extensions.TruncateIdempotent | HeartRate/Extensions.cs:52-57 | truncating a truncated string with the same length changes nothing |
| Extensions.WordValue | HeartRate/Extensions.cs:33 | `b0 \| (b1 << 8)` cut to 16 bits is b0 + 256·b1; it is 0xFF00 + b0 with one byte left and 0xFFFF at end of stream |
| Extensions.UInt16Of | HeartRate/Extensions.cs:33 | the ushort lies in 0..65535, the first byte is the low one, and ReadByte's -1 at end of stream gives 0xFF00 \| b0 or 0xFFFF |
| Extensions.ByteStream.ReadByte | HeartRate/Extensions.cs:33 | the next byte, or -1 without moving at end of stream |
| Extensions.ReadUInt16 | HeartRate/Extensions.cs:31-34 | two reads in order give `UInt16Of` of the bytes at the position, and the position advances past the bytes that were there |
| Extensions.Resource.Dispose | HeartRate/Extensions.cs:43 | a disposable counts its Dispose calls and throws or returns according to its nature |
| Extensions.TryDispose | HeartRate/Extensions.cs:36-50 | true for null without a call; otherwise exactly one Dispose call, true when it returns and false when it throws, and the exception never escapes |
| Platform.FileSystem.Append | src/HeartRate/FileWriters.cs:28-36 | opening for append fails with IOException on an unwritable path and changes nothing; otherwise only that file changes, to its old content followed by the text |
| Platform.FileSystem.Create | src/HeartRate/FileWriters.cs:38-46 | opening with FileMode.Create fails with IOException on an unwritable path; otherwise only that file changes, to exactly the text |
| Platform.UdpClient.Send | src/HeartRate/FileWriters.cs:201 | sending through a disposed client throws ObjectDisposedException; otherwise the datagram is added to those sent |
| Platform.RoundHalfEven | src/HeartRate/FileWriters.cs:75 | `Math.Round` of n/d is at most half a step from n/d, and even when exactly half a step away |
| Platform.RoundHalfEvenUnique | src/HeartRate/FileWriters.cs:75 | those two conditions determine the rounded value, so it is the nearest integer with ties to even |
| DateTimeFormatter.ToUpperInvariant | HeartRate/DateTimeFormatter.cs:54 | upper-casing keeps the length and maps character by character |
| DateTimeFormatter.UpperIsOA | HeartRate/DateTimeFormatter.cs:54-55 | a string upper-cases to "OA" iff it is "OA" in any letter case |
| DateTimeFormatter.FormatRule | HeartRate/DateTimeFormatter.cs:45-59 | a non-blank "OA" in any case selects the OA date; any other non-blank formatter is used as a custom format; a null or blank one falls back to the default format, and with no default or an empty one to `ToString()` |
| DateTimeFormatter.Format | HeartRate/DateTimeFormatter.cs:45-59 | a blank formatter falls back to the default; "OA" in any case selects the OA date, an empty one the general rendering, anything else the custom format |
| DateTimeFormatter.SanatizePath | HeartRate/DateTimeFormatter.cs:38-43 | the length is kept, each invalid character becomes '-' and every other character stays |
| DateTimeFormatter.SanatizePathClean | HeartRate/DateTimeFormatter.cs:38-43 | with '-' a valid character, no invalid character is left, and sanitising again changes nothing |
| DateTimeFormatter.FirstPercent | HeartRate/DateTimeFormatter.cs:15 | the position of the first '%' at or after k, or none when there is no '%' |
| DateTimeFormatter.FirstPercentAt | HeartRate/DateTimeFormatter.cs:15 | a '%' with none before it from k on is the one FirstPercent finds |
| DateTimeFormatter.TokenAt | HeartRate/DateTimeFormatter.cs:14-16 | a token match is at least the six characters of `%date%` long and lies within the text |
| DateTimeFormatter.ReplaceTokens | HeartRate/DateTimeFormatter.cs:27-35 | `Regex.Replace`: left to right, each token match is replaced by its rendering (sanitised for a path) and the scan resumes after it; other characters are copied |
| DateTimeFormatter.FormatStringTokens | HeartRate/DateTimeFormatter.cs:21-36 | the input with every `%date%` / `%date:<fmt>%` token replaced |
| DateTimeFormatter.NoTokenUnchanged | HeartRate/DateTimeFormatter.cs:21-36 | text where no token starts anywhere comes back unchanged |
| DateTimeFormatter.LiteralPrefix | HeartRate/DateTimeFormatter.cs:27-35 | text without '%' in front of the rest is copied verbatim, invalid file-name characters included: only substituted text is sanitised |
| DateTimeFormatter.FormattedToken | HeartRate/DateTimeFormatter.cs:14-16 | `%date:<fmt>%` in any letter case, with fmt non-empty and free of '%', is replaced by fmt's rendering, and replacement resumes after its closing '%' |
| DateTimeFormatter.BareToken | HeartRate/DateTimeFormatter.cs:29-33 | a bare `%date%` in any letter case is replaced by the rendering of the empty group, which is the default format's rendering |
| DateTimeFormatter.EmptyFormatIsLiteral | HeartRate/DateTimeFormatter.cs:15 | `%date:%` is not a token |
| DateTimeFormatter.LoneTokenUsesDefault | HeartRate/DateTimeFormatter.cs:27-35 | "%date%" alone renders as the default format when that is a custom format |
| DateTimeFormatter.DefaultFilenameFormat | HeartRate/DateTimeFormatter.cs:11 | "%date%" with the file-name default renders with "yyyy-MM-dd hh-mm tt" |
| HeartRateService.FlagBits | HeartRate/HeartRateService.cs:102-103 | bit 0 of the flags selects the 16-bit BPM; bits 1-2 are the contact status's ordinal |
| HeartRateService.DecodeIn | HeartRate/HeartRateService.cs:87-123 | in either byte order: no event for an empty buffer or one shorter than its width's minimum; otherwise the status from bits 1-2 and the BPM from byte 1, or from bytes 1-2 with the first byte low (little-endian) or high (big-endian) |
| HeartRateService.BigEndianMisreads | HeartRate/HeartRateService.cs:98-116 | read big-endian, a 16-bit 60 BPM comes out as 15360 and the test buffer [1, 1, 2] as 0x0102, while the little-endian decode gives 60 |
| HeartRateService.ByteOrdersAgree | HeartRate/HeartRateService.cs:114-116 | the two byte orders read the same 16-bit BPM iff its two bytes are equal |
| HeartRateService.Decode | HeartRate/HeartRateService.cs:87-123 | no event for an empty buffer or one shorter than 3 (16-bit) or 2 (8-bit) bytes; otherwise one event with the status from bits 1-2 and the BPM from byte 1 or bytes 1-2, low byte first, never the -1 sentinel |
| HeartRateService.EncodeFlagsBits | HeartRate/HeartRateService.cs:102-103 | a flags byte built from a status and a width decodes to them |
| HeartRateService.Encode | HeartRate/HeartRateService.cs:104 | a notification built from a status and a 16-bit BPM is exactly the minimum length for its width |
| HeartRateService.DecodeEncode | HeartRate/HeartRateService.cs:98-121 | decoding a notification built from any status and any 16-bit BPM (8-bit when narrow), low byte first, gives them back, whatever fields follow |
| HeartRateService.TrailingIgnored | HeartRate/HeartRateService.cs:112-121 | bytes after the BPM field never change the event |
| HeartRateService.TestVectors | Lennox.HeartRate.Tests/HeartRateServiceTests.cs:18-34 | the decoder cases of the repository's tests: three buffers too short for an event, then 0x0201 and 0x12 |
| HeartRateService.HeartRateService.constructor | HeartRate/HeartRateService.cs:23-32 | a new service is undisposed, holds no GATT service and has raised nothing |
| HeartRateService.HeartRateService.ValueChanged | HeartRate/HeartRateService.cs:87-123 | exactly one HeartRateUpdated event per decodable buffer, none otherwise; nothing else changes |
| HeartRateService.HeartRateService.Cleanup | HeartRate/HeartRateService.cs:125-139 | the service field is taken out and the old service, if any, is disposed once; the disposed services stay distinct |
| HeartRateService.HeartRateService.Dispose | HeartRate/HeartRateService.cs:160-167 | sets the disposed flag and cleans up the current service |
| HeartRateService.HeartRateService.InitiateDefault | HeartRate/HeartRateService.cs:35-85 | no device throws ArgumentOutOfRangeException; after Dispose it throws ObjectDisposedException and touches nothing; otherwise the old service is disposed, a newly opened one is stored, and a missing characteristic throws ArgumentOutOfRangeException |
| WatchdogModel.CheckTime | src/HeartRate/HeartRateServiceWatchdog.cs:42-72 | an iteration runs no earlier than the end of the previous iteration's sleep |
| WatchdogModel.SpacedSnoc | src/HeartRate/HeartRateServiceWatchdog.cs:58-72 | a call far enough after the last keeps the calls spaced |
| Watchdog.CheckDecides | src/HeartRate/HeartRateServiceWatchdog.cs:32-72 | an iteration reconnects iff the time since the stopwatch's restart strictly exceeds the timeout, and the thread keeps running whatever InitiateDefault does; a reading restarts the stopwatch |
| Watchdog.Step | src/HeartRate/HeartRateServiceWatchdog.cs:32-84 | a reading restarts the stopwatch; Dispose sets the flag; an iteration exits when disposed, else reconnects past the timeout, restarting the stopwatch only when InitiateDefault returns, and sleeps 10 s |
| Watchdog.RetryAfterFailure | src/HeartRate/HeartRateServiceWatchdog.cs:58-69 | a failed reconnect leaves the stopwatch alone, so the next iteration reconnects again |
| Watchdog.SuccessRestarts | src/HeartRate/HeartRateServiceWatchdog.cs:61-64 | a successful reconnect restarts the stopwatch when InitiateDefault returns |
| Watchdog.DisposedStays | src/HeartRate/HeartRateServiceWatchdog.cs:13 | the disposed flag is never cleared, and an exited thread makes no further call |
| Watchdog.NoCallsAfterDispose | src/HeartRate/HeartRateServiceWatchdog.cs:42-50 | after Dispose, InitiateDefault is never called again |
| Watchdog.StepInv | src/HeartRate/HeartRateServiceWatchdog.cs:42-72 | every event keeps the calls spaced by the 10 s sleep, with the thread's wake-up time after the last one |
| Watchdog.CallsPaced | src/HeartRate/HeartRateServiceWatchdog.cs:42-72 | over any run of events, reconnects are at least 10 000 ms apart, whatever the timeout and however often InitiateDefault fails |
| Watchdog.HeartRateServiceWatchdog.constructor | src/HeartRate/HeartRateServiceWatchdog.cs:15-30 | a new watchdog keeps its timeout, starts its stopwatch at 0 and runs its thread |
| Watchdog.HeartRateServiceWatchdog.ServiceHeartRateUpdated | src/HeartRate/HeartRateServiceWatchdog.cs:32-38 | the step of a reading: the stopwatch restarts now |
| Watchdog.HeartRateServiceWatchdog.Iteration | src/HeartRate/HeartRateServiceWatchdog.cs:42-72 | the step of one loop iteration, and it reports an exit iff the thread stopped |
| Watchdog.HeartRateServiceWatchdog.Dispose | src/HeartRate/HeartRateServiceWatchdog.cs:78-84 | the step of Dispose: the flag is set |
| Watchdog.Create | src/HeartRate/HeartRateServiceWatchdog.cs:20 | a null service throws ArgumentNullException; otherwise a fresh watchdog in its initial state |
| LegacyWatchdog.CheckDecides | HeartRate/HeartRateServiceWatchdog.cs:32-66 | an iteration reconnects iff the elapsed time strictly exceeds the timeout; it then restarts the stopwatch at the check whatever the outcome, and a throwing InitiateDefault ends the thread |
| LegacyWatchdog.Step | HeartRate/HeartRateServiceWatchdog.cs:32-77 | a reading restarts the stopwatch; Dispose sets the flag; an iteration exits when disposed, else past the timeout restarts the stopwatch before InitiateDefault, whose exception ends the loop, and sleeps 10 s |
| LegacyWatchdog.DisposedStays | HeartRate/HeartRateServiceWatchdog.cs:13 | the disposed flag is never cleared, and an exited thread, whether disposed or ended by an exception, makes no further call |
| LegacyWatchdog.NoCallsAfterDispose | HeartRate/HeartRateServiceWatchdog.cs:42-50 | after Dispose, InitiateDefault is never called again |
| LegacyWatchdog.StepInv | HeartRate/HeartRateServiceWatchdog.cs:42-66 | every event keeps the calls more than a timeout and at least one sleep apart |
| LegacyWatchdog.AtMostOnePerTimeout | HeartRate/HeartRateServiceWatchdog.cs:52-62 | over any run of events, consecutive reconnects are at least max(10 000, timeout + 1) ms apart |
| LegacyWatchdog.HeartRateServiceWatchdog.constructor | HeartRate/HeartRateServiceWatchdog.cs:15-30 | a new watchdog keeps its timeout, starts its stopwatch at 0 and runs its thread |
| LegacyWatchdog.HeartRateServiceWatchdog.ServiceHeartRateUpdated | HeartRate/HeartRateServiceWatchdog.cs:32-38 | the step of a reading: the stopwatch restarts now |
| LegacyWatchdog.HeartRateServiceWatchdog.Iteration | HeartRate/HeartRateServiceWatchdog.cs:42-66 | the step of one loop iteration, and it reports an exit iff the thread stopped |
| LegacyWatchdog.HeartRateServiceWatchdog.Dispose | HeartRate/HeartRateServiceWatchdog.cs:71-77 | the step of Dispose: the flag is set |
| LegacyWatchdog.Create | HeartRate/HeartRateServiceWatchdog.cs:20 | a null service throws ArgumentNullException; otherwise a fresh watchdog in its initial state |
| FileWriters.FileWriter.constructor | src/HeartRate/FileWriters.cs:23-26 | the writer keeps its file name, null meaning disabled |
| FileWriters.FileWriter.AppendLine | src/HeartRate/FileWriters.cs:28-36 | nothing without a file name; otherwise s and CRLF appended to the file, or IOException with nothing changed |
| FileWriters.FileWriter.Write | src/HeartRate/FileWriters.cs:38-46 | nothing without a file name; otherwise the file becomes exactly s, or IOException with nothing changed |
| FileWriters.AsMillis | src/HeartRate/FileWriters.cs:75 | an interval of t/1024 s is the nearest whole millisecond to t·1000/1024, ties to even |
| FileWriters.AsMS | src/HeartRate/FileWriters.cs:72-77 | every interval converted and rendered, in input order |
| FileWriters.AsMillisExamples | src/HeartRate/FileWriters.cs:72-77 | 4096 gives 4000, 64 gives 62 (62.5 to even), and 4·1024+516 gives 4504 |
| FileWriters.IBIFile.Reading | src/HeartRate/FileWriters.cs:60-68 | nothing without a file name, with null or empty intervals, or for an error reading; otherwise one CRLF-terminated line per interval in milliseconds, appended in order |
| FileWriters.Escape | src/HeartRate/FileWriters.cs:149-155 | a quoted body is longer than the value by its number of '"' |
| FileWriters.EscapeConcat | src/HeartRate/FileWriters.cs:150-154 | escaping works character by character |
| FileWriters.UnescapeEscape | src/HeartRate/FileWriters.cs:150-154 | escaping loses nothing: the body reads back as the value |
| FileWriters.CsvValueShape | src/HeartRate/FileWriters.cs:138-157 | a field is quoted iff asked or it holds ',' or '\n'; a quoted field is '"', a body that unescapes to the value and is longer by its '"' count, then '"'; an unquoted field is the value verbatim, '"' included; the comma follows iff asked |
| FileWriters.CsvValue | src/HeartRate/FileWriters.cs:138-157 | the text AppendCsvValue appends: the value quoted, with a backslash before each '"', when asked or when it holds ',' or '\n', else the value itself, then the comma if asked |
| FileWriters.EscapeSnoc | src/HeartRate/FileWriters.cs:150-154 | one loop step appends the escaped form of one more character |
| FileWriters.AppendCsvValue | src/HeartRate/FileWriters.cs:138-157 | the builder ends with the value's field appended, with only the builder changed |
| FileWriters.CsvFieldsIsRow | src/HeartRate/FileWriters.cs:120-124 | the five fields are the date (quoted only if it holds ',' or '\n'), BPM, status name and energy verbatim, each with a comma, then the RR list, always quoted and never escaped |
| FileWriters.GetCsvCases | src/HeartRate/FileWriters.cs:100-136 | from an empty builder: null for an error reading, null for a format other than "csv" in any letter case, otherwise the row |
| FileWriters.IsCsv | src/HeartRate/FileWriters.cs:117-119 | `(LogFormat ?? "").ToLower() == "csv"`: the format is "csv" in any letter case, null never |
| FileWriters.CsvRowEnd | src/HeartRate/FileWriters.cs:124 | a row ends with the RR field's closing quote and no comma |
| FileWriters.AppendRow | src/HeartRate/FileWriters.cs:119-125 | the five AppendCsvValue calls append the five fields in order |
| FileWriters.GetCsv | src/HeartRate/FileWriters.cs:100-136 | returns what the builder holds after the row, if that is non-empty; the builder is empty on return except for an error reading, which leaves it untouched |
| FileWriters.LogFile.Reading | src/HeartRate/FileWriters.cs:91-98 | without a file name nothing changes, builder included; otherwise the CSV row, if any, is appended as one line |
| FileWriters.HeartRateFile.Reading | src/HeartRate/FileWriters.cs:164-169 | an error reading or a missing file name changes nothing; otherwise the whole file is replaced by the decimal BPM |
| FileWriters.HeartRateFileReadsBack | src/HeartRate/FileWriters.cs:168 | the heart-rate file of a non-negative BPM holds only digits and reads back as that BPM |
| FileWriters.UdpWriter.constructor | src/HeartRate/FileWriters.cs:178-186 | a client exists iff the UDP settings are valid |
| FileWriters.UdpWriter.Reading | src/HeartRate/FileWriters.cs:188-202 | with a client and a row, exactly one datagram, the row plus "\n", is sent; a datagram over 10 KiB throws ArgumentException and Send on a disposed client throws ObjectDisposedException, sending nothing |
| FileWriters.UdpWriter.Dispose | src/HeartRate/FileWriters.cs:204-207 | the client, if any, is disposed once, and the exception is swallowed |
| FileWriters.DatagramFits | src/HeartRate/FileWriters.cs:195-200 | a datagram ends in "\n", and a row of at most 2559 characters always fits the buffer |
| LegacyFileWriters.AsSeconds | HeartRate/FileWriters.cs:29 | an interval becomes the nearest whole number of seconds, ties to even, despite the method's name |
| LegacyFileWriters.AsMilliseconds | HeartRate/FileWriters.cs:26-31 | every interval converted and rendered, in input order |
| LegacyFileWriters.AsMillisecondsTestVector | Lennox.HeartRate.Tests/FileWriterTests.cs:17-38 | the test's six intervals come out as 4, 5, 6, 7, 8, 9 |
| LegacyFileWriters.IBIFile.Reading | HeartRate/FileWriters.cs:17-24 | nothing without a file name or with null or empty intervals, with no error-reading check; otherwise one CRLF-terminated line per interval, appended in order |
| LegacyFileWriters.LogRowCommas | HeartRate/FileWriters.cs:51-65 | nothing is quoted: the row holds the date's commas, four separators and n - 1 more for n >= 1 intervals |
| LegacyFileWriters.LogRow | HeartRate/FileWriters.cs:51-65 | the row `{date},{bpm},{status},{energy},{rr}` with CRLF, where the status column repeats the BPM |
| LegacyFileWriters.LogFile.Reading | HeartRate/FileWriters.cs:45-73 | nothing without a file name or for a format other than "csv"; otherwise the row, with BPM as its third column too, is appended, error readings included |
| HeartRateForm.LogStep | src/HeartRate/FileWriters.cs:91-98 | the log sink's effect: without a file name nothing; otherwise the builder's pending text is cleared unless the reading is an error, and the CSV row, if any, is appended with CRLF, or IOException on an unwritable path |
| HeartRateForm.IbiStep | src/HeartRate/FileWriters.cs:60-68 | the IBI sink's effect: with a file name and intervals, one line per interval in milliseconds is appended, or IOException on an unwritable path |
| HeartRateForm.UdpStep | src/HeartRate/FileWriters.cs:188-202 | the UDP sink's effect: with a client and a row, the row plus "\n" is sent; ArgumentException when it overflows the buffer, ObjectDisposedException on a disposed client |
| HeartRateForm.HeartRateFileStep | src/HeartRate/FileWriters.cs:164-169 | the heart-rate file's effect: unless the reading is an error or there is no file name, the file becomes the BPM, or IOException on an unwritable path |
| HeartRateForm.Next | src/HeartRate/HeartRateForm.cs:151-154 | one `sink?.Reading(reading)` statement: nothing after an exception or for an absent sink, else that sink's effect |
| HeartRateForm.DispatchResult | src/HeartRate/HeartRateForm.cs:151-154 | the four statements in the order log, IBI, UDP, heart-rate file, the log and UDP rows each dated by their own read of the clock |
| HeartRateForm.FailureSkipsLater | src/HeartRate/HeartRateForm.cs:151-154 | once a statement throws, the later ones change nothing and the exception is the dispatch's |
| HeartRateForm.FirstFailure | src/HeartRate/HeartRateForm.cs:151-154 | a dispatch that returns had every statement return; one that throws ends with the state and exception of the first statement that threw, all before it having returned |
| HeartRateForm.HeartRateFileHoldsBpm | src/HeartRate/HeartRateForm.cs:151-154 | after a dispatch that returned, the heart-rate file holds exactly the BPM of a non-error reading, since its sink is called last |
| HeartRateForm.NoSinksNoEffect | src/HeartRate/HeartRateForm.cs:151-154 | with every sink absent or disabled (no file name, no UDP client), the dispatch returns and changes no file, builder or datagram |
| HeartRateForm.Stages | src/HeartRate/HeartRateForm.cs:151-154 | the dispatch is the four statements applied one after another |
| HeartRateForm.NextFrame | src/HeartRate/HeartRateForm.cs:151-154 | one statement sends a datagram only if it is the UDP one, and writes no file but the sinks' own |
| HeartRateForm.SentOnlyByUdp | src/HeartRate/HeartRateForm.cs:151-152 | the log and IBI statements send nothing |
| HeartRateForm.DispatchFrame | src/HeartRate/HeartRateForm.cs:151-154 | a dispatch sends at most one datagram, after those already sent, and writes no file but the sinks' own |
| HeartRateForm.Deliver | src/HeartRate/HeartRateForm.cs:151-154 | one `sink?.Reading` statement: its outcome and the files, builder and datagrams it leaves are those `Next` gives from the state before it |
| HeartRateForm.NewSinks | src/HeartRate/HeartRateForm.cs:406-410 | four fresh sinks: log, IBI and heart-rate-file writers over the given names and the shared file system, and a UDP writer whose client exists exactly when the settings' UDP target is valid |
| HeartRateForm.LevelFacts | src/HeartRate/HeartRateForm.cs:164-168 | a level of 0 or less never fires; an enabled level fires from the level up; an alert at or above the warn level implies the warning |
| HeartRateForm.DisconnectedDiffers | src/HeartRate/HeartRateForm.cs:159-160 | the newer test (bpm 0 or NoContact) and the older one (bpm 0 or not Contact) differ exactly on a non-zero BPM with a NotSupported status |
| HeartRateForm.IsDisconnected | src/HeartRate/HeartRateForm.cs:159-160 | the newer test: a BPM of 0 or the NoContact status |
| HeartRateForm.LegacyIsDisconnected | HeartRate/HeartRateForm.cs:87-88 | the older test: a BPM of 0 or any status but Contact |
| HeartRateForm.AtLevel | src/HeartRate/HeartRateForm.cs:164-168 | isWarn / isAlert: the level is positive and the BPM at or above it |
| HeartRateForm.DisplayFor | src/HeartRate/HeartRateForm.cs:156-190 | for an error reading, the icon text is the error and the tooltip its first min(length, 60) characters; when disconnected, the tooltip is "Disconnected {status} ({bpm})" and the icon text that description once the disconnect has timed out, else the BPM; otherwise the BPM, with warn and alert per the levels |
| HeartRateForm.LastN | src/HeartRate/HeartRateForm.cs:385-393 | the most recent min(\|s\|, n) entries |
| HeartRateForm.LastNSnoc | src/HeartRate/HeartRateForm.cs:385-393 | the last ten after an enqueue are the last ten before it plus the new one, the oldest dropped when there were already ten |
| HeartRateForm.HeartRateForm.FormatFilename | src/HeartRate/HeartRateForm.cs:413-419 | the sink is disabled exactly when the setting is null or blank |
| HeartRateForm.HeartRateForm.FormatFilenamePlain | src/HeartRate/HeartRateForm.cs:413-419 | a non-blank name without tokens is used as it is |
| HeartRateForm.HeartRateForm.constructor | src/HeartRate/HeartRateForm.cs:67-70 | a new form keeps its settings and start time and, as LoadSettingsLocked does, holds four fresh sinks built from the settings' file names, a UDP client iff UDP is valid; its font queue is empty |
| HeartRateForm.HeartRateForm.LoadSettingsFilesLocked | src/HeartRate/HeartRateForm.cs:403-411 | the old UDP writer's client is disposed once, then all four sinks are replaced by fresh ones built from the settings and FormatFilename's names |
| HeartRateForm.HeartRateForm.Dispatch | src/HeartRate/HeartRateForm.cs:151-154 | the outcome and the files, builder text and sent datagrams afterwards are those of `DispatchResult` from the state before |
| HeartRateForm.HeartRateForm.HeartRateUpdatedCore | src/HeartRate/HeartRateForm.cs:149-190 | the dispatch's outcome and effects are those of `DispatchResult`; the display is updated only if no sink threw; sinks, settings and fonts are unchanged |
| HeartRateForm.HeartRateForm.HeartRateUpdated | src/HeartRate/HeartRateForm.cs:122-147 | the files, builder and datagrams end as `DispatchResult` leaves them; an exception from a sink is caught and recorded, once, and leaves the display as it was; the sinks, settings and font queue are unchanged |
| HeartRateForm.HeartRateForm.UpdateLabelFontLocked | src/HeartRate/HeartRateForm.cs:385-393 | the queue holds the ten most recent fonts at most, the new one last; an eleventh dequeues the oldest and disposes it once |
| DebugLog.FormatLine | HeartRate/DebugLog.cs:29-32 | the line is the time, ": ", the text, then a line feed |
| DebugLog.Appended | HeartRate/DebugLog.cs:40-48 | one write: the file is emptied first when longer than 1 MiB, then the line is appended |
| DebugLog.AppendedKeepsOrDrops | HeartRate/DebugLog.cs:42-48 | a write keeps the old content when it is at most 1 MiB and drops it when longer; the file always ends with the new line |
| DebugLog.AppendedBounded | HeartRate/DebugLog.cs:42-48 | a file within 1 MiB plus the longest line stays within that after one more write |
| DebugLog.WritesStayBounded | Lennox.HeartRate.Tests/DebugLogTests.cs:15-20 | however many writes of a line, a file that starts within bounds stays within 1 MiB plus the line |
| DebugLog.LogState.constructor | HeartRate/DebugLog.cs:22 | before Initialize there is no log file |
| DebugLog.LogState.Initialize | HeartRate/DebugLog.cs:24-27 | the file is created empty and held; an unopenable path throws IOException and keeps the old stream |
| DebugLog.LogState.WriteLog | HeartRate/DebugLog.cs:34-50 | the text always goes to the debugger; without a file nothing is written; otherwise the formatted line goes to the file, emptied first when over 1 MiB |
| DebugLog.DebugLog.constructor | HeartRate/DebugLog.cs:12-15 | the logger keeps its name |
| DebugLog.DebugLog.Write | HeartRate/DebugLog.cs:17-20 | logs "{name}: {s}" |
| TestService.Wrap32 | HeartRate/TestHeartRateService.cs:42 | an unchecked Int32 result: in range, congruent modulo 2^32, and unchanged when there is no overflow |
| TestService.HeartRates | HeartRate/TestHeartRateService.cs:13-16 | ten readings with BPM 10, 20, ..., 90, 99 and the other fields at their defaults |
| TestService.TestHeartRateService.constructor | HeartRate/TestHeartRateService.cs:22-29 | a new service is undisposed, with its counter at 0 and no timer |
| TestService.TestHeartRateService.InitiateDefault | HeartRate/TestHeartRateService.cs:31-34 | a running timer is started |
| TestService.TestHeartRateService.TimerTick | HeartRate/TestHeartRateService.cs:36-53 | the counter goes up by one, wrapping as an Int32; at 10 or more nothing is emitted; with a subscriber the reading at the counter is emitted with Contact, and a negative counter throws IndexOutOfRangeException |
| TestService.TestHeartRateService.Dispose | HeartRate/TestHeartRateService.cs:60-64 | sets IsDisposed and disposes the timer if one was started |
| TestService.TestHeartRateService.Cleanup | HeartRate/TestHeartRateService.cs:55-58 | the same as Dispose |
| TestService.CountAfter | HeartRate/TestHeartRateService.cs:42 | the counter is always an Int32 |
| TestService.CountsTicks | HeartRate/TestHeartRateService.cs:40-43 | until it could wrap, the counter equals the number of ticks |
| TestService.EmitsNineAtMost | HeartRate/TestHeartRateService.cs:13-16 | the first tick already uses index 1: a subscriber gets min(n, 9) readings, 20, 30, ..., 90, 99 in order, all with Contact, and never the BPM-10 reading |
| TestService.CounterWraps | HeartRate/TestHeartRateService.cs:42-52 | tick 2^31 wraps the counter to Int32.MinValue, a negative index |
| TestService.SaturatingStaysInRange | HeartRate/TestHeartRateService.cs:44-47 | a counter that stops at 10 never leaves 0..10, and agrees with the Int32 counter on every tick that emits |
| LennoxTestService.CsRem | Lennox.HeartRate.Tests/TestHeartRateService.cs:39 | C#'s `% HeartRates.Length` takes the dividend's sign, is smaller than 10 in size, differs from the dividend by a multiple of 10, and leaves a dividend in -9..9 unchanged |
| LennoxTestService.TestHeartRateService.constructor | Lennox.HeartRate.Tests/TestHeartRateService.cs:19-26 | the counter starts at 0 with no timer |
| LennoxTestService.TestHeartRateService.InitiateDefault | Lennox.HeartRate.Tests/TestHeartRateService.cs:28-31 | a running timer is started |
| LennoxTestService.TestHeartRateService.TimerTick | Lennox.HeartRate.Tests/TestHeartRateService.cs:33-45 | the new counter is the old counter mod 10, which is the old counter: the increment is overwritten; with a subscriber the rate at the counter is emitted with Contact |
| LennoxTestService.TestHeartRateService.Dispose | Lennox.HeartRate.Tests/TestHeartRateService.cs:52-55 | disposes the timer if one was started |
| LennoxTestService.TestHeartRateService.Cleanup | Lennox.HeartRate.Tests/TestHeartRateService.cs:47-50 | the same as Dispose |
| LennoxTestService.IndexAt | Lennox.HeartRate.Tests/TestHeartRateService.cs:39 | every emitted index lies in 0..9 |
| LennoxTestService.AlwaysTen | Lennox.HeartRate.Tests/TestHeartRateService.cs:12-13 | as written, every tick emits index 0, the rate 10 |
| LennoxTestService.IntendedIndexAt | Lennox.HeartRate.Tests/TestHeartRateService.cs:39 | the intended index lies in 0..9 |
| LennoxTestService.IntendedCycles | Lennox.HeartRate.Tests/TestHeartRateService.cs:39-44 | with the increment kept, tick k emits rate k mod 10, cycling through all ten in order and starting at 10 as the written counter does |

## Left out

- The UI is not modelled: icon and label drawing, font measurement, balloon tips, menus and dialogs, `Invoke`, and the Win32 declarations. The form's display update is modelled as the values it computes (`HeartRateForm.Display`).
- The older form is not modelled apart from its disconnected test (`HeartRateForm.LegacyIsDisconnected`), because the rest of it is UI.
- `HeartRateService.InitiateDefault`'s WinRT calls are left out; the model takes each call's outcome as a parameter. These calls are device discovery, opening the GATT service, looking up the characteristic and enabling notifications.
- `AsyncResult` is left out in both files: it is a polling loop over foreign asynchronous operations.
- The `ReadBuffer` decoder used by the repository's tests is not part of this model. The energy-expended and RR fields it reads are therefore not decoded.
- The WinRT `DataReader` itself is not modelled; its byte order is the `ByteOrder` argument of `HeartRateService.DecodeIn`.
- Threads, locks, `Thread.Sleep`, timers and `[ThreadStatic]` are left out. Each timer callback or watchdog iteration is one sequential step over an abstract clock. The builder is one object shared by all callers, as on one thread.
- The unlocked stopwatch restart in the newer watchdog is not modelled, and interleavings are not modelled either.
- `DebugLog.WriteLog` messages written by the watchdogs and by the form's outer handler are left out. The form records the caught exception instead.
- `Debugger.Break` in the form's outer handler is left out.
- An exception escaping a timer callback, which in .NET also ends the process, is modelled only as the callback's `Fail` outcome.
- LegacyWatchdog.HeartRateServiceWatchdog.Iteration: the older watchdog calls InitiateDefault on its own background thread with no catch, so in .NET an exception from it ends the whole process; the model only stops the watchdog's loop (`running := false`, `exited` true), and nothing else in the model stops.
- Real file, stream and socket I/O is not modelled: files are text in a map, and a datagram is its text.
- The UTF-8 encoder is modelled only as a byte count. UTF-16 surrogate pairs are not modelled: a character is a Unicode scalar value.
- `File.Open` failures are one `IOException` per unwritable path; no other I/O errors are modelled.
- For the UDP writer, host name resolution and socket errors other than a disposed client are not modelled.
- HeartRateForm.HeartRateForm.constructor: the settings are a parameter, so `HeartRateSettings.CreateDefault`, `Load` and `Save` are not modelled. The debug-log set-up, the crash handler, the watchdog, the fonts and the UI built by the constructor are left out too.
- `DateTime.Now`, `DateTime.ToString`, `ToString(format)` and `ToOADate` are not modelled; they are opaque strings supplied by the caller. Floating point is replaced by exact rational rounding.
- `Path.GetInvalidFileNameChars` is a parameter.
- A date format string that itself makes `DateTime.ToString` throw is not modelled.
- `HeartRateSettings`' loading, XML serialisation and brushes are not modelled. `UDP.IsValid` is a boolean setting.
- The newer generation's DateTimeFormatter.cs and HeartRateService.cs are not part of this model. The older DateTimeFormatter is used by both generations' sinks, and the older service's decoder is the one modelled.
- LennoxTestService.IntendedIndexAt: the corrected counter is an unbounded tick count, so the result holds for the first 2^31 ticks only; after that the Int32 field `_count` of the corrected line wraps too, and C#'s `%` of the negative value gives a negative index.
- HeartRateForm.HeartRateForm.HeartRateUpdatedCore: models only the dispatch and the display values. The stopwatches, the alert sound and the icon update that follow are not modelled.

## Findings

| source | as written | input that shows it | evidently intended | confidence | as-written member | corrected member |
|---|---|---|---|---|---|---|
| HeartRate/TestHeartRateService.cs:42-52 | `count = _count = ++_count` increments an unchecked Int32 on every tick forever, and the index check only guards the upper bound | tick 2^31 wraps the counter to -2^31, and with a subscriber `HeartRates[count]` throws IndexOutOfRangeException | the counter stops once it reaches the end of the readings | low, since it needs 2^31 ticks of a test service; not executed | TestService.CounterWraps | TestService.SaturatingStaysInRange |
| Lennox.HeartRate.Tests/TestHeartRateService.cs:39 | `_count = _count++ % HeartRates.Length` assigns the remainder of the value before the increment, overwriting it | every tick of a new service, from the first on, emits 10 | `count = _count++ % HeartRates.Length`, which cycles 10, 20, ..., 99 for the first 2^31 ticks | high; not executed | LennoxTestService.AlwaysTen | LennoxTestService.IntendedCycles |
| HeartRate/HeartRateService.cs:98-116 | `DataReader.FromBuffer(value)` is used without setting `ByteOrder`, and `ReadUInt16` then reads the 16-bit BPM in the reader's default order, big-endian | the 16-bit notification [0x01, 0x3C, 0x00], 60 BPM, gives 15360 | the little-endian field of section 3.1 of the Heart Rate Service specification, as the repository's test of the `ReadBuffer` decoder expects 0x0201 from [1, 1, 2] | low, since it rests on the documented default of `DataReader.ByteOrder` and most straps send the 8-bit form; not executed | HeartRateService.BigEndianMisreads | HeartRateService.DecodeEncode |
