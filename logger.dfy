/**
 * The logger's level filter (`Logger.h`): six ordered levels, one global
 * threshold (initially `INFO`), and the test every logging macro makes
 * before it prints.  The printing itself is left out.
 */
module Logger {
  datatype LogLevel = Trace | Debug | Info | Warn | Error | NoLog

  /** The enumerator's value, 0 for `TRACE` up to 5 for `NONE`. */
  function Rank(l: LogLevel): nat {
    match l
    case Trace => 0
    case Debug => 1
    case Info => 2
    case Warn => 3
    case Error => 4
    case NoLog => 5
  }

  /** `levelToString(level)`. */
  function LevelName(l: LogLevel): string {
    match l
    case Trace => "TRACE"
    case Debug => "DEBUG"
    case Info => "INFO"
    case Warn => "WARN"
    case Error => "ERROR"
    case NoLog => "NONE"
  }

  /** The `LOG_LEVEL` default. */
  const DefaultLevel: LogLevel := Info

  /** The global level behind `levelRef()`. */
  class Logger {
    var level: LogLevel

    constructor ()
      ensures level == DefaultLevel
    {
      level := DefaultLevel;
    }

    method SetLevel(l: LogLevel)
      modifies this
      ensures level == l
    {
      level := l;
    }

    method GetLevel() returns (l: LogLevel)
      ensures l == level
    {
      l := level;
    }

    /** `shouldLog(level)`: a message passes when its level is at least the threshold. */
    predicate ShouldLog(l: LogLevel)
      reads this
    {
      Rank(l) >= Rank(level)
    }
  }

  /**
   * The filter is monotone: what passes at one level passes at every more
   * severe one; `TRACE` lets everything through and `NONE` stops every
   * macro, whose levels run from `TRACE` to `ERROR`.
   */
  lemma FilterOrdered(threshold: LogLevel, a: LogLevel, b: LogLevel)
    ensures Rank(a) >= Rank(threshold) && Rank(b) >= Rank(a) ==> Rank(b) >= Rank(threshold)
    ensures threshold == Trace ==> Rank(a) >= Rank(threshold)
    ensures threshold == NoLog && a != NoLog ==> Rank(a) < Rank(threshold)
  {
  }
}
