/**
 * The GORM logger adapter: which of the application's log sinks a GORM
 * message or a traced SQL statement goes to, decided by the adapter's
 * level, its slow-query threshold and its record-not-found policy.
 */
module GormLog {
  import opened Wrappers

  /**
   * GORM's log levels are integers; the named ones are ordered
   * Silent < Error < Warn < Info, and LogMode accepts any integer.
   */
  const Silent := 1
  const Error := 2
  const Warn := 3
  const Info := 4

  /** time.Duration counts nanoseconds. */
  const Millisecond := 1_000_000

  /** The adapter's configuration, copied by value by LogMode. */
  datatype GormZapLogger = GormZapLogger(
    logLevel: int,
    slowThreshold: int,
    ignoreRecordNotFoundError: bool)

  /** The error GORM hands to Trace; RecordNotFound is whatever `errors.Is` matches to gorm.ErrRecordNotFound. */
  datatype DbError = RecordNotFound | OtherError(message: string)

  datatype Sink = InfoSink | WarnSink | ErrorSink

  /** One call into the application's logger. */
  datatype Entry =
    | Message(sink: Sink, msg: string)
      /** The `[GORM] <elapsed> | <rows> rows | <sql>` line, prefixed with the threshold on the slow path. */
    | SqlLine(sink: Sink, elapsed: int, rows: int, sql: string, slowPrefix: Option<int>)
      /** The error itself, logged on its own after the SQL line. */
    | ErrorDetail(err: DbError)

  /** NewGormZapLogger: everything is logged, queries over one second are slow, missing records are not errors. */
  function NewGormZapLogger(): (l: GormZapLogger)
    ensures l.logLevel == Info && l.slowThreshold == 1000 * Millisecond && l.ignoreRecordNotFoundError
  {
    GormZapLogger(Info, 1000 * Millisecond, true)
  }

  /** LogMode: a copy with the new level; the receiver itself is a value and stays as it was. */
  function LogMode(l: GormZapLogger, level: int): (r: GormZapLogger)
    ensures r.logLevel == level
    ensures r.slowThreshold == l.slowThreshold && r.ignoreRecordNotFoundError == l.ignoreRecordNotFoundError
  {
    l.(logLevel := level)
  }

  /** Info, Warn and Error forward the message when the level is at least their own. */
  function LogAt(l: GormZapLogger, gate: int, sink: Sink, msg: string): (r: seq<Entry>)
    ensures r == [] || r == [Message(sink, msg)]
    ensures r != [] <==> l.logLevel >= gate
  {
    if l.logLevel >= gate then [Message(sink, msg)] else []
  }

  function InfoLog(l: GormZapLogger, msg: string): (r: seq<Entry>)
    ensures r != [] <==> l.logLevel >= Info
    ensures r != [] ==> r == [Message(InfoSink, msg)]
  {
    LogAt(l, Info, InfoSink, msg)
  }

  function WarnLog(l: GormZapLogger, msg: string): (r: seq<Entry>)
    ensures r != [] <==> l.logLevel >= Warn
    ensures r != [] ==> r == [Message(WarnSink, msg)]
  {
    LogAt(l, Warn, WarnSink, msg)
  }

  function ErrorLog(l: GormZapLogger, msg: string): (r: seq<Entry>)
    ensures r != [] <==> l.logLevel >= Error
    ensures r != [] ==> r == [Message(ErrorSink, msg)]
  {
    LogAt(l, Error, ErrorSink, msg)
  }

  /** The error is reported: it is not a missing record that the adapter is told to ignore. */
  predicate Reported(l: GormZapLogger, err: Option<DbError>) {
    err.Some? && (err.value != RecordNotFound || !l.ignoreRecordNotFoundError)
  }

  /**
   * Trace, with the elapsed time (nanoseconds) and what the statement
   * callback returns taken as inputs. A silent adapter logs nothing; a
   * reported error wins over a slow query, and a slow query over the plain
   * info line, which alone depends on the level.
   */
  function Trace(l: GormZapLogger, elapsed: int, sql: string, rows: int, err: Option<DbError>): (r: seq<Entry>)
    ensures l.logLevel <= Silent ==> r == []
    ensures l.logLevel > Silent && Reported(l, err)
            ==> r == [SqlLine(ErrorSink, elapsed, rows, sql, None), ErrorDetail(err.value)]
    ensures l.logLevel > Silent && !Reported(l, err) && l.slowThreshold > 0 && elapsed > l.slowThreshold
            ==> r == [SqlLine(WarnSink, elapsed, rows, sql, Some(l.slowThreshold))]
    ensures l.logLevel > Silent && !Reported(l, err) && !(l.slowThreshold > 0 && elapsed > l.slowThreshold)
            ==> (r == [] <==> l.logLevel < Info)
    ensures r != [] && r[0].SqlLine? && r[0].sink == InfoSink ==> r == [SqlLine(InfoSink, elapsed, rows, sql, None)]
  {
    if l.logLevel <= Silent then []
    else if Reported(l, err) then [SqlLine(ErrorSink, elapsed, rows, sql, None), ErrorDetail(err.value)]
    else if l.slowThreshold > 0 && elapsed > l.slowThreshold then [SqlLine(WarnSink, elapsed, rows, sql, Some(l.slowThreshold))]
    else if l.logLevel >= Info then [SqlLine(InfoSink, elapsed, rows, sql, None)]
    else []
  }

  // ---------------------------------------------------------------------
  // Properties
  // ---------------------------------------------------------------------

  /** The gates nest: whatever passes Info passes Warn, and whatever passes Warn passes Error. */
  lemma GatesNest(l: GormZapLogger, a: string, b: string)
    ensures InfoLog(l, a) != [] ==> WarnLog(l, b) != []
    ensures WarnLog(l, b) != [] ==> ErrorLog(l, a) != []
  {
  }

  /** Setting the level twice is setting it to the second value; the other settings survive any number of LogMode calls. */
  lemma LogModeLastWins(l: GormZapLogger, a: int, b: int)
    ensures LogMode(LogMode(l, a), b) == LogMode(l, b)
    ensures LogMode(l, l.logLevel) == l
  {
  }

  /** Silent mode mutes every entry point of the adapter. */
  lemma SilentMutes(l: GormZapLogger, msg: string, elapsed: int, sql: string, rows: int, err: Option<DbError>)
    ensures var s := LogMode(l, Silent);
            InfoLog(s, msg) == [] && WarnLog(s, msg) == [] && ErrorLog(s, msg) == []
            && Trace(s, elapsed, sql, rows, err) == []
  {
  }

  /** A reported error is logged at every non-silent level, however short the query. */
  lemma ErrorsIgnoreLevel(l: GormZapLogger, lo: int, hi: int, elapsed: int, sql: string, rows: int, err: Option<DbError>)
    requires Silent < lo && Silent < hi
    requires Reported(l, err)
    ensures Trace(LogMode(l, lo), elapsed, sql, rows, err) == Trace(LogMode(l, hi), elapsed, sql, rows, err)
    ensures |Trace(LogMode(l, lo), elapsed, sql, rows, err)| == 2
  {
  }

  /** With the defaults, a missing record is treated like success: a slow lookup warns, a fast one is an info line. */
  lemma DefaultIgnoresNotFound(elapsed: int, sql: string, rows: int)
    ensures var l := NewGormZapLogger();
            Trace(l, elapsed, sql, rows, Some(RecordNotFound)) == Trace(l, elapsed, sql, rows, None)
    ensures var l := NewGormZapLogger();
            elapsed > 1000 * Millisecond
            ==> Trace(l, elapsed, sql, rows, None) == [SqlLine(WarnSink, elapsed, rows, sql, Some(1000 * Millisecond))]
    ensures var l := NewGormZapLogger();
            elapsed <= 1000 * Millisecond
            ==> Trace(l, elapsed, sql, rows, None) == [SqlLine(InfoSink, elapsed, rows, sql, None)]
  {
  }

  /** A query of exactly the threshold is not slow: the comparison is strict. */
  lemma ThresholdIsStrict(l: GormZapLogger, sql: string, rows: int)
    requires l.logLevel >= Info && l.slowThreshold > 0
    ensures Trace(l, l.slowThreshold, sql, rows, None) == [SqlLine(InfoSink, l.slowThreshold, rows, sql, None)]
    ensures Trace(l, l.slowThreshold + 1, sql, rows, None)[0].sink == WarnSink
  {
  }

  /** A zero threshold switches slow-query warnings off. */
  lemma ZeroThresholdNeverSlow(l: GormZapLogger, elapsed: int, sql: string, rows: int, err: Option<DbError>)
    requires l.slowThreshold <= 0
    ensures forall e :: e in Trace(l, elapsed, sql, rows, err) ==> e.SqlLine? ==> e.sink != WarnSink
  {
  }
}
