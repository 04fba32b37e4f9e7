/**
  The structured logger of internal/logger: its levels, their names, and the
  decisions `log` makes before writing: whether the message passes the
  logger's minimum level, what entry it builds, and whether that entry
  carries a stack trace.

  The JSON encoding, the stack trace's contents, the mutex and the write to
  the `io.Writer` are not modelled; a written entry records whether it
  carries a trace, and its time is passed in.
 */
module Logger {
  import opened Wrappers

  /** `LogLevel`, a Go `int`. */
  type LogLevel = int

  const LevelDebug: LogLevel := 0
  const LevelInfo: LogLevel := 1
  const LevelWarn: LogLevel := 2
  const LevelError: LogLevel := 3
  const LevelFatal: LogLevel := 4
  const LevelOff: LogLevel := 5

  /** `LogLevel.String`: the name of a level, "" for any other value. */
  function LevelString(l: LogLevel): (s: string)
    ensures s != "" <==> LevelDebug <= l <= LevelFatal
  {
    if l == LevelInfo then "INFO"
    else if l == LevelWarn then "WARN"
    else if l == LevelDebug then "DEBUG"
    else if l == LevelError then "ERROR"
    else if l == LevelFatal then "FATAL"
    else ""
  }

  /** The level a name stands for, the inverse of `LevelString`. */
  function ParseLevel(s: string): (r: Option<LogLevel>)
    ensures r.Some? ==> LevelDebug <= r.value <= LevelFatal
  {
    match s
    case "DEBUG" => Some(LevelDebug)
    case "INFO" => Some(LevelInfo)
    case "WARN" => Some(LevelWarn)
    case "ERROR" => Some(LevelError)
    case "FATAL" => Some(LevelFatal)
    case _ => None
  }

  /** Every named level's name reads back as that level, and only names do. */
  lemma LevelStringRoundTrip(l: LogLevel, s: string)
    ensures LevelDebug <= l <= LevelFatal ==> ParseLevel(LevelString(l)) == Some(l)
    ensures ParseLevel(s).Some? ==> LevelString(ParseLevel(s).value) == s
  {
  }

  /** The values the level constants take. */
  lemma LevelOrder()
    ensures LevelDebug < LevelInfo < LevelWarn < LevelError < LevelFatal < LevelOff
    ensures LevelOff - LevelDebug == 5
    ensures LevelString(LevelOff) == ""
  {
  }

  /** `LogEntry`. */
  datatype LogEntry = LogEntry(
    level: string,
    time: string,
    message: string,
    properties: map<string, string>,
    hasTrace: bool)

  /** What `log` does: nothing (it returns `0, nil`), or writes one entry. */
  datatype LogWrite = Skipped | Written(entry: LogEntry)

  /** `Logger`: only its minimum level takes part in the decisions. */
  datatype Logger = Logger(minLevel: LogLevel)

  /** `log`'s filter and entry: `now` stands for the formatted `time.Now()`. */
  function Log(logger: Logger, level: LogLevel, message: string, props: map<string, string>, now: string): (w: LogWrite)
    ensures w.Skipped? <==> level < logger.minLevel
    ensures w.Written? ==>
      && w.entry.level == LevelString(level)
      && w.entry.message == message && w.entry.properties == props && w.entry.time == now
      && (w.entry.hasTrace <==> level >= LevelFatal)
  {
    if level < logger.minLevel then Skipped
    else Written(LogEntry(LevelString(level), now, message, props, level >= LevelFatal))
  }

  function Info(logger: Logger, message: string, props: map<string, string>, now: string): LogWrite
  {
    Log(logger, LevelInfo, message, props, now)
  }

  function Warn(logger: Logger, message: string, props: map<string, string>, now: string): LogWrite
  {
    Log(logger, LevelWarn, message, props, now)
  }

  function Debug(logger: Logger, message: string, props: map<string, string>, now: string): LogWrite
  {
    Log(logger, LevelDebug, message, props, now)
  }

  /** `Error(err, props)`: `errText` is `err.Error()`. */
  function Error(logger: Logger, errText: string, props: map<string, string>, now: string): LogWrite
  {
    Log(logger, LevelError, errText, props, now)
  }

  /** `Fatal(err, props)`: `errText` is `err.Error()`. */
  function Fatal(logger: Logger, errText: string, props: map<string, string>, now: string): LogWrite
  {
    Log(logger, LevelFatal, errText, props, now)
  }

  /** A logger at `LevelOff` writes nothing through any of its five entry points. */
  lemma LevelOffSilences(message: string, props: map<string, string>, now: string)
    ensures Info(Logger(LevelOff), message, props, now) == Skipped
    ensures Warn(Logger(LevelOff), message, props, now) == Skipped
    ensures Debug(Logger(LevelOff), message, props, now) == Skipped
    ensures Error(Logger(LevelOff), message, props, now) == Skipped
    ensures Fatal(Logger(LevelOff), message, props, now) == Skipped
  {
  }

  /** Raising the minimum level never lets through a message that was skipped. */
  lemma LogFilterMonotone(lower: LogLevel, higher: LogLevel, level: LogLevel, message: string, props: map<string, string>, now: string)
    requires lower <= higher
    ensures Log(Logger(lower), level, message, props, now).Skipped? ==> Log(Logger(higher), level, message, props, now).Skipped?
  {
  }

  /** `Error` and `Fatal` log the error text under "ERROR" and "FATAL"; only the fatal entry carries a trace, and it is never filtered below `LevelOff`. */
  lemma ErrorEntries(logger: Logger, errText: string, props: map<string, string>, now: string)
    ensures Error(logger, errText, props, now).Written? ==>
      Error(logger, errText, props, now).entry == LogEntry("ERROR", now, errText, props, false)
    ensures Fatal(logger, errText, props, now).Written? ==>
      Fatal(logger, errText, props, now).entry == LogEntry("FATAL", now, errText, props, true)
    ensures logger.minLevel <= LevelFatal ==> Fatal(logger, errText, props, now).Written?
  {
  }
}
