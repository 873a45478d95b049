/**
 * `log_printer`: level-gated logging. A message passes when its level is at least the
 * printer's current level; what passes is appended to `sink`, which stands for the back
 * end's output.
 */
module LogPrinters {

  /** `log_level`, without its `max` end marker. */
  datatype LogLevel = Trace | Debug | Info | Warn | Error | Critical | Off

  /** The level's underlying value: trace = 0 up to off = 6. */
  function Rank(l: LogLevel): (r: nat)
    ensures r <= 6
  {
    match l
    case Trace => 0
    case Debug => 1
    case Info => 2
    case Warn => 3
    case Error => 4
    case Critical => 5
    case Off => 6
  }

  /** `static_cast<log_level>(r)` for the values below `max`. */
  function FromRank(r: nat): (l: LogLevel)
    requires r <= 6
    ensures Rank(l) == r
  {
    if r == 0 then Trace
    else if r == 1 then Debug
    else if r == 2 then Info
    else if r == 3 then Warn
    else if r == 4 then Error
    else if r == 5 then Critical
    else Off
  }

  /** Distinct levels have distinct values, so the order on levels is total and strict. */
  lemma RankInjective(a: LogLevel, b: LogLevel)
    requires Rank(a) == Rank(b)
    ensures a == b
  {
  }

  /** `should_log`: a message of level `message` passes a printer at level `current`. */
  predicate ShouldLog(current: LogLevel, message: LogLevel)
  {
    Rank(message) >= Rank(current)
  }

  /** A printer set to a level lets that level through. */
  lemma LevelLogsItself(l: LogLevel)
    ensures ShouldLog(l, l)
  {
  }

  /** A printer set one level above `l` suppresses `l`. */
  lemma NextLevelSuppresses(l: LogLevel)
    requires l != Off
    ensures !ShouldLog(FromRank(Rank(l) + 1), l)
  {
  }

  /** A printer set to `off` lets no message level below `off` through. */
  lemma OffSuppressesAll(l: LogLevel)
    ensures ShouldLog(Off, l) <==> l == Off
  {
  }

  /** Raising the current level never lets more messages through. */
  lemma RaisingLevelSuppressesMore(low: LogLevel, high: LogLevel, message: LogLevel)
    requires Rank(low) <= Rank(high)
    ensures ShouldLog(high, message) ==> ShouldLog(low, message)
  {
  }

  /** One line handed to the back end. */
  datatype Record = Record(level: LogLevel, message: string)

  /**
   * The records `log` appends: none when the level check is compiled in and fails, or when
   * output is compiled out; otherwise the one message.
   */
  function Emitted(current: LogLevel, level: LogLevel, message: string, checkLogLevel: bool, enabled: bool): (r: seq<Record>)
    ensures r == [] || r == [Record(level, message)]
    ensures r != [] <==> enabled && (!checkLogLevel || ShouldLog(current, level))
  {
    if checkLogLevel && !ShouldLog(current, level) then []
    else if enabled then [Record(level, message)]
    else []
  }

  class LogPrinter {
    var currentLevel: LogLevel
    var sink: seq<Record>

    /** A printer at the default level, `info`, that has printed nothing. */
    constructor()
      ensures currentLevel == Info && sink == []
    {
      currentLevel := Info;
      sink := [];
    }

    /** `set_log_level`: the back end keeps the level it is given, and the printer reads it back. */
    method SetLogLevel(level: LogLevel)
      modifies this
      ensures currentLevel == level && sink == old(sink)
    {
      currentLevel := level;
    }

    /** `get_log_level`. */
    function GetLogLevel(): LogLevel
      reads this
    {
      currentLevel
    }

    /**
     * `log<Sloc, CheckLogLevel, Enabled>`: with the check compiled in, returns at once when the
     * level does not pass; with output compiled in, hands the message to the back end.
     */
    method Log(level: LogLevel, message: string, checkLogLevel: bool, enabled: bool)
      modifies this
      ensures sink == old(sink) + Emitted(currentLevel, level, message, checkLogLevel, enabled)
      ensures currentLevel == old(currentLevel)
    {
      if checkLogLevel && !ShouldLog(currentLevel, level) {
        return;
      }
      if enabled {
        sink := sink + [Record(level, message)];
      }
    }

    /** `log_trace`: `log` at `trace`, when trace output is compiled in. */
    method LogTrace(message: string, checkLogLevel: bool, enabled: bool)
      modifies this
      ensures sink == old(sink) + Emitted(currentLevel, Trace, message, checkLogLevel, enabled)
      ensures currentLevel == old(currentLevel)
    {
      if enabled {
        Log(Trace, message, checkLogLevel, true);
      }
    }

    /** `log_debug`: `log` at `debug`, when debug output is compiled in. */
    method LogDebug(message: string, checkLogLevel: bool, enabled: bool)
      modifies this
      ensures sink == old(sink) + Emitted(currentLevel, Debug, message, checkLogLevel, enabled)
      ensures currentLevel == old(currentLevel)
    {
      if enabled {
        Log(Debug, message, checkLogLevel, true);
      }
    }

    /** `log_info`: `log` at `info`, when info output is compiled in. */
    method LogInfo(message: string, checkLogLevel: bool, enabled: bool)
      modifies this
      ensures sink == old(sink) + Emitted(currentLevel, Info, message, checkLogLevel, enabled)
      ensures currentLevel == old(currentLevel)
    {
      if enabled {
        Log(Info, message, checkLogLevel, true);
      }
    }

    /** `log_warn`: `log` at `warn`, when warning output is compiled in. */
    method LogWarn(message: string, checkLogLevel: bool, enabled: bool)
      modifies this
      ensures sink == old(sink) + Emitted(currentLevel, Warn, message, checkLogLevel, enabled)
      ensures currentLevel == old(currentLevel)
    {
      if enabled {
        Log(Warn, message, checkLogLevel, true);
      }
    }

    /** `log_err`: `log` at `error`, when error output is compiled in. */
    method LogErr(message: string, checkLogLevel: bool, enabled: bool)
      modifies this
      ensures sink == old(sink) + Emitted(currentLevel, Error, message, checkLogLevel, enabled)
      ensures currentLevel == old(currentLevel)
    {
      if enabled {
        Log(Error, message, checkLogLevel, true);
      }
    }

    /** `log_critical`: `log` at `critical`, when critical output is compiled in. */
    method LogCritical(message: string, checkLogLevel: bool, enabled: bool)
      modifies this
      ensures sink == old(sink) + Emitted(currentLevel, Critical, message, checkLogLevel, enabled)
      ensures currentLevel == old(currentLevel)
    {
      if enabled {
        Log(Critical, message, checkLogLevel, true);
      }
    }

    /**
     * `MAD_LOG_I` and the per-level `MAD_LOG_*_I` macros: the level check happens before the
     * message arguments are evaluated, and `log` is then called without a second check.
     * `evaluated` says whether the arguments were evaluated.
     */
    method LogMacro(level: LogLevel, message: string) returns (evaluated: bool)
      modifies this
      ensures evaluated <==> ShouldLog(currentLevel, level)
      ensures sink == old(sink) + (if evaluated then [Record(level, message)] else [])
      ensures currentLevel == old(currentLevel)
    {
      evaluated := ShouldLog(currentLevel, level);
      if evaluated {
        Log(level, message, false, true);
      }
    }
  }

  /**
   * The sweep of the "should log" tests: for every level from `level` down to `trace`, set
   * the printer to it and log at `level`. The arguments are evaluated once per step.
   */
  method ShouldLogSweep(level: LogLevel, message: string) returns (evaluations: nat)
    ensures evaluations == Rank(level) + 1
  {
    var printer := new LogPrinter();
    printer.SetLogLevel(Off);
    evaluations := 0;
    var rem: int := Rank(level);
    while rem >= 0
      invariant -1 <= rem <= Rank(level)
      invariant evaluations == Rank(level) - rem
      decreases rem
    {
      printer.SetLogLevel(FromRank(rem));
      var evaluated := printer.LogMacro(level, message);
      if evaluated {
        evaluations := evaluations + 1;
      }
      rem := rem - 1;
    }
  }

  /**
   * The sweep of the "should not log" tests: for every level above `level` up to `off`, set
   * the printer to it and log at `level`. The arguments are never evaluated.
   */
  method ShouldNotLogSweep(level: LogLevel, message: string) returns (evaluations: nat)
    ensures evaluations == 0
  {
    var printer := new LogPrinter();
    printer.SetLogLevel(Off);
    var count: int := 0;
    var i := Rank(level) + 1;
    while i <= Rank(Off)
      invariant count == 0
      decreases Rank(Off) + 1 - i
    {
      printer.SetLogLevel(FromRank(i));
      var evaluated := printer.LogMacro(level, message);
      if evaluated {
        count := count + 1;
      }
      i := i + 1;
    }
    evaluations := count;
  }

  /**
   * The two level-check tests: a printer set to `l` reads `l` back and evaluates a message
   * at `l`; set one level higher, it does not evaluate it.
   */
  method LevelCheckPaths(l: LogLevel, message: string) returns (readBack: LogLevel, happy: bool, falsePath: bool)
    requires l != Off
    ensures readBack == l && happy && !falsePath
  {
    var printer := new LogPrinter();
    printer.SetLogLevel(Off);
    printer.SetLogLevel(l);
    readBack := printer.GetLogLevel();
    happy := printer.LogMacro(l, message);
    printer.SetLogLevel(FromRank(Rank(l) + 1));
    falsePath := printer.LogMacro(l, message);
  }
}
