/** lib/logger.ts: the logger's table of running performance metrics, the per-type thresholds
    that decide whether a finished metric is logged as slow, the two measuring helpers and the
    timer. `Date.now()` is a parameter (`now`, `startTime`, `endTime`); what the logger prints
    is kept as a sequence of entries of a level and a message. */
module Logging {
  import opened Wrappers
  import opened Text

  datatype LogLevel = Debug | Info | Warn | Error

  datatype MetricType = ModelCall | Render | Screenshot | GenerationTotal | Validation

  /** One printed line: its level and its message (the timestamp, the context object and the
      development/production formatting are not modelled). */
  datatype Entry = Entry(level: LogLevel, message: string)

  /** A running metric: its type and when it started. */
  datatype Metric = Metric(kind: MetricType, startTime: int)

  /** The enum's string values. */
  function TypeName(t: MetricType): string {
    match t
    case ModelCall => "model_call"
    case Render => "render"
    case Screenshot => "screenshot"
    case GenerationTotal => "generation_total"
    case Validation => "validation"
  }

  /** The slow threshold of each type, in milliseconds. */
  function Threshold(t: MetricType): (ms: nat)
    ensures 1000 <= ms <= 60000
    ensures t == GenerationTotal <==> ms == 60000
    ensures t == Validation <==> ms == 1000
  {
    match t
    case ModelCall => 30000
    case Render => 5000
    case Screenshot => 20000
    case GenerationTotal => 60000
    case Validation => 1000
  }

  const SlowPrefix: string := "⏱️ Slow metric: "
  const CompletedPrefix: string := "✅ Metric completed: "

  /** The entry a finished metric is logged with: a warning naming the threshold exactly when
      the duration exceeds the type's threshold, an info line otherwise. */
  function Completion(kind: MetricType, duration: int): (e: Entry)
    ensures e.level == Warn <==> duration > Threshold(kind)
    ensures e.level == Info <==> duration <= Threshold(kind)
    ensures e.level == Warn ==>
      StartsAt(e.message, 0, SlowPrefix + TypeName(kind) + " took " + Decimal(duration) + "ms")
      && EndsWith(e.message, "(threshold: " + Decimal(Threshold(kind)) + "ms)")
    ensures e.level == Info ==>
      e.message == CompletedPrefix + TypeName(kind) + " in " + Decimal(duration) + "ms"
  {
    var head := SlowPrefix + TypeName(kind) + " took " + Decimal(duration) + "ms";
    var tail := "(threshold: " + Decimal(Threshold(kind)) + "ms)";
    if duration > Threshold(kind) then
      Entry(Warn, Enclose(head, " ", tail))
    else
      Entry(Info, CompletedPrefix + TypeName(kind) + " in " + Decimal(duration) + "ms")
  }

  /** A duration slower than every threshold is logged as slow whatever the type; one within
      the smallest threshold is never logged as slow. */
  lemma ThresholdBounds(kind: MetricType, duration: int)
    ensures duration > 60000 ==> Completion(kind, duration).level == Warn
    ensures duration <= 1000 ==> Completion(kind, duration).level == Info
  {
    match kind
    case ModelCall =>
    case Render =>
    case Screenshot =>
    case GenerationTotal =>
    case Validation =>
  }

  class Logger {
    /** The running metrics by id. */
    var metrics: map<string, Metric>
    /** Everything logged so far, oldest first. */
    var entries: seq<Entry>

    constructor()
      ensures metrics == map[] && entries == []
    {
      metrics := map[];
      entries := [];
    }

    /** startMetric: the id now names a metric of the type, started now, whatever it named
        before. */
    method StartMetric(id: string, kind: MetricType, now: int)
      modifies this
      ensures metrics == old(metrics)[id := Metric(kind, now)]
      ensures entries == old(entries) + [Entry(Debug, "Metric started: " + TypeName(kind))]
    {
      metrics := metrics[id := Metric(kind, now)];
      entries := entries + [Entry(Debug, "Metric started: " + TypeName(kind))];
    }

    /** endMetric: an unknown id gives no duration, a warning, and leaves the table as it is;
        a known id gives the time since its start, is logged against its type's threshold and
        leaves the table. (`success` only goes into the log's context object.) */
    method EndMetric(id: string, success: bool, now: int) returns (duration: Option<int>)
      modifies this
      ensures id !in old(metrics) ==>
        duration == None && metrics == old(metrics)
        && entries == old(entries) + [Entry(Warn, "Metric not found: " + id)]
      ensures id in old(metrics) ==>
        duration == Some(now - old(metrics)[id].startTime)
        && metrics == old(metrics) - {id}
        && entries == old(entries) + [Completion(old(metrics)[id].kind, duration.value)]
    {
      if id !in metrics {
        entries := entries + [Entry(Warn, "Metric not found: " + id)];
        return None;
      }
      var metric := metrics[id];
      var d := now - metric.startTime;
      entries := entries + [Completion(metric.kind, d)];
      metrics := metrics - {id};
      return Some(d);
    }

    /** getMetricStats: a copy of the table; a map value shares nothing with the field. */
    method GetMetricStats() returns (stats: map<string, Metric>)
      ensures stats == metrics
    {
      stats := metrics;
    }

    /** clearMetrics. */
    method ClearMetrics()
      modifies this
      ensures metrics == map[] && entries == old(entries)
    {
      metrics := map[];
    }
  }

  /** measureSync / measureAsync: start the metric at startTime, run the measured function
      (its outcome is given: a value or the value it throws), end the metric at endTime with
      the success flag, log the failure, and hand back the value or rethrow. Whatever the
      outcome, the id is gone from the table and no other id changed. */
  method Measure<T, E>(logger: Logger, id: string, kind: MetricType, outcome: Result<T, E>,
                       describe: E -> string, startTime: int, endTime: int)
    returns (r: Result<T, E>)
    modifies logger
    ensures r == outcome
    ensures logger.metrics == old(logger.metrics) - {id}
    ensures |logger.entries| == |old(logger.entries)| + (if outcome.Ok? then 2 else 3)
    ensures logger.entries[|old(logger.entries)| + 1] == Completion(kind, endTime - startTime)
    ensures outcome.Err? ==>
      logger.entries[|logger.entries| - 1] == Entry(Error, "Metric failed: " + TypeName(kind))
  {
    logger.StartMetric(id, kind, startTime);
    var _ := logger.EndMetric(id, outcome.Ok?, endTime);
    if outcome.Err? {
      logger.entries := logger.entries + [Entry(Error, "Metric failed: " + TypeName(kind))];
    }
    assert logger.metrics == old(logger.metrics) - {id};
    return outcome;
  }

  /** A timer started at a clock reading. */
  class Timer {
    var startTime: int

    constructor(now: int)
      ensures startTime == now
    {
      startTime := now;
    }

    /** elapsed: the milliseconds since the start, so the start plus the elapsed time is now. */
    function Elapsed(now: int): (ms: int)
      reads this
      ensures startTime + ms == now
      ensures ms >= 0 <==> now >= startTime
    {
      now - startTime
    }

    /** elapsedString: `<ms>ms` under a second. The seconds form, `(ms / 1000).toFixed(2)`,
        is floating-point formatting and is not modelled (None). */
    function ElapsedString(now: int): (r: Option<string>)
      reads this
      ensures r.Some? <==> Elapsed(now) < 1000
      ensures r.Some? ==> EndsWith(r.value, "ms") && r.value[..|r.value| - 2] == Decimal(Elapsed(now))
    {
      var ms := Elapsed(now);
      if ms < 1000 then
        var t := Decimal(ms) + "ms";
        assert t[..|t| - 2] == Decimal(ms);
        Some(t)
      else None
    }

    /** reset: the timer counts from now. */
    method Reset(now: int)
      modifies this
      ensures startTime == now && Elapsed(now) == 0
    {
      startTime := now;
    }
  }
}
