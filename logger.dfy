/**
 * The application log (logicflow-lowcode/src/utils/logger.ts): a buffer of at
 * most 1000 entries that drops its oldest entry on overflow, reached through
 * one shared instance.
 */
module Logging {

  datatype LogLevel = Info | Warn | Error

  /** The optional `data` argument: absent, or an object of named string fields. */
  datatype LogData = NoData | Fields(fields: map<string, string>)

  datatype LogEntry = LogEntry(timestamp: string, level: LogLevel, message: string, data: LogData)

  /** The last `n` elements of `s` (all of `s` when it is shorter). */
  function LastN<T>(s: seq<T>, n: nat): seq<T>
  {
    if |s| <= n then s else s[|s| - n..]
  }

  /** Keeping the last `n` after each append equals keeping the last `n` of the whole history. */
  lemma LastNAppend<T>(s: seq<T>, e: T, n: nat)
    requires n >= 1
    ensures LastN(LastN(s, n) + [e], n) == LastN(s + [e], n)
  {
    if |s| > n {
      var w := s[|s| - n..];
      assert LastN(w + [e], n) == (w + [e])[1..];
      assert (w + [e])[1..] == s[|s| - n + 1..] + [e];
      assert (s + [e])[|s| + 1 - n..] == s[|s| - n + 1..] + [e];
    }
  }

  /** A window `LastN(h, n)` holds at most `n` entries and ends with the newest one. */
  lemma LastNBounds<T>(h: seq<T>, n: nat)
    ensures |LastN(h, n)| <= n && |LastN(h, n)| <= |h|
    ensures 0 < n && h != [] ==> LastN(h, n)[|LastN(h, n)| - 1] == h[|h| - 1]
  {
  }

  class Logger {
    var logs: seq<LogEntry>
    const maxLogs: nat
    /** Every entry added since the buffer was created or last cleared. */
    ghost var history: seq<LogEntry>

    /** The buffer is exactly the most recent `maxLogs` entries of the history, in order. */
    ghost predicate Valid()
      reads this
    {
      maxLogs == 1000 && logs == LastN(history, maxLogs)
    }

    constructor ()
      ensures Valid() && logs == [] && history == []
    {
      logs := [];
      maxLogs := 1000;
      history := [];
    }

    /** `push`, then `shift` when the buffer has grown past `maxLogs`. */
    method AddLog(entry: LogEntry)
      requires Valid()
      modifies this
      ensures Valid() && history == old(history) + [entry]
      ensures logs == if |old(logs)| < maxLogs then old(logs) + [entry] else old(logs)[1..] + [entry]
      ensures |logs| <= maxLogs && logs[|logs| - 1] == entry
    {
      logs := logs + [entry];
      if |logs| > maxLogs {
        logs := logs[1..];
      }
      history := history + [entry];
      LastNAppend(old(history), entry, maxLogs);
      LastNBounds(history, maxLogs);
    }

    method Info(message: string, data: LogData, now: string)
      requires Valid()
      modifies this
      ensures Valid() && history == old(history) + [LogEntry(now, LogLevel.Info, message, data)]
      ensures |logs| <= maxLogs && logs[|logs| - 1] == LogEntry(now, LogLevel.Info, message, data)
    {
      AddLog(LogEntry(now, LogLevel.Info, message, data));
    }

    method Warn(message: string, data: LogData, now: string)
      requires Valid()
      modifies this
      ensures Valid() && history == old(history) + [LogEntry(now, LogLevel.Warn, message, data)]
      ensures |logs| <= maxLogs && logs[|logs| - 1] == LogEntry(now, LogLevel.Warn, message, data)
    {
      AddLog(LogEntry(now, LogLevel.Warn, message, data));
    }

    method Error(message: string, data: LogData, now: string)
      requires Valid()
      modifies this
      ensures Valid() && history == old(history) + [LogEntry(now, LogLevel.Error, message, data)]
      ensures |logs| <= maxLogs && logs[|logs| - 1] == LogEntry(now, LogLevel.Error, message, data)
    {
      AddLog(LogEntry(now, LogLevel.Error, message, data));
    }

    /** A copy of the buffer; the buffer itself is left as it is. */
    method GetLogs() returns (copy: seq<LogEntry>)
      ensures copy == logs
    {
      copy := logs;
    }

    method ClearLogs()
      requires Valid()
      modifies this
      ensures Valid() && logs == [] && history == []
    {
      logs := [];
      history := [];
    }
  }

  /** The static slot that holds the shared logger. */
  class LoggerRegistry {
    var instance: Logger?

    constructor ()
      ensures instance == null
    {
      instance := null;
    }

    /** Creates the logger on the first call and hands back that same object ever after. */
    method GetInstance() returns (l: Logger)
      requires instance != null ==> instance.Valid()
      modifies this
      ensures instance == l && l.Valid()
      ensures old(instance) != null ==> l == old(instance)
      ensures old(instance) == null ==> fresh(l) && l.logs == []
    {
      if instance == null {
        instance := new Logger();
      }
      l := instance;
    }
  }

  /** Two successive lookups yield one and the same logger. */
  method GetInstanceTwice(registry: LoggerRegistry) returns (first: Logger, second: Logger)
    requires registry.instance != null ==> registry.instance.Valid()
    modifies registry
    ensures first == second && first.Valid()
  {
    first := registry.GetInstance();
    second := registry.GetInstance();
  }
}
