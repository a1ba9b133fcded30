/** The values that flow through the core: the contact status and the decoded
    reading, the settings the sinks are built from, and an instant in time as
    the .NET date renderings the code asks of it. */
module HeartRateData {
  import opened Wrappers
  import opened Text

  /** ContactSensorStatus; the ordinals 0..3 are the two flag bits of the
      Heart Rate Measurement characteristic. */
  datatype ContactSensorStatus = NotSupported | NotSupported2 | NoContact | Contact

  function StatusOrdinal(s: ContactSensorStatus): (n: nat)
    ensures n < 4
  {
    match s
    case NotSupported => 0
    case NotSupported2 => 1
    case NoContact => 2
    case Contact => 3
  }

  /** The cast `(ContactSensorStatus)n` for a two-bit n. */
  function StatusFromOrdinal(n: nat): (s: ContactSensorStatus)
    requires n < 4
    ensures StatusOrdinal(s) == n
  {
    if n == 0 then NotSupported
    else if n == 1 then NotSupported2
    else if n == 2 then NoContact
    else Contact
  }

  /** Enum.ToString(): the member's name. */
  function StatusName(s: ContactSensorStatus): (r: string)
    ensures ',' !in r && '\n' !in r && '"' !in r
  {
    match s
    case NotSupported => "NotSupported"
    case NotSupported2 => "NotSupported2"
    case NoContact => "NoContact"
    case Contact => "Contact"
  }

  /** HeartRateReading: a decoded notification, or an error surfaced for
      display. Null arrays and nullable integers are Options. */
  datatype HeartRateReading = HeartRateReading(
    Status: ContactSensorStatus,
    BeatsPerMinute: int,
    EnergyExpended: Option<int>,
    RRIntervals: Option<seq<int>>,
    IsError: bool,
    Error: Option<string>)

  /** The fields of HeartRateSettings the core reads. UDP.IsValid is taken as
      given; the endpoint it validates is not part of this model. */
  datatype HeartRateSettings = HeartRateSettings(
    LogFormat: Option<string>,
    LogDateFormat: Option<string>,
    LogFile: Option<string>,
    IBIFile: Option<string>,
    HeartRateFile: Option<string>,
    UdpIsValid: bool,
    WarnLevel: int,
    AlertLevel: int)

  /** A DateTime, known by the three renderings the code asks of it:
      ToString(), ToOADate().ToString() and ToString(format). */
  datatype Instant = Instant(
    general: string,
    oaDate: string,
    custom: string -> string)
}
