/**
 * The garbage-collection accumulator of GcMemoryMetrics.java: for every
 * decoded GC event it marks a meter, records a timer sample, keeps a running
 * total of GC time per collector, sets a percent-time-in-GC gauge and sets
 * `max`/`used`/`free` gauges per memory pool and in total, before and after
 * the collection.
 *
 * The pure parts (name building, normalisation, `free`, `sum`) are functions.
 * The writes one event performs are listed, in the order the source performs
 * them, by `EventWrites`; `Run` is their effect on the registry. The class
 * `GcMemoryMetrics` performs them step by step and is proved to end in the
 * state `Run` describes.
 */
module GcMemory {
  import opened Registry

  // ---------------------------------------------------------------------
  // Java `long` arithmetic
  // ---------------------------------------------------------------------

  /** A Java `long`. */
  type Long = x: int | -0x8000_0000_0000_0000 <= x < 0x8000_0000_0000_0000

  const Modulus: int := 0x1_0000_0000_0000_0000

  /** The `long` that two's-complement arithmetic yields for the exact result x. */
  function Wrap(x: int): (r: Long)
    ensures (r - x) % Modulus == 0
    ensures -0x8000_0000_0000_0000 <= x < 0x8000_0000_0000_0000 ==> r == x
  {
    (x + 0x8000_0000_0000_0000) % Modulus - 0x8000_0000_0000_0000
  }

  // ---------------------------------------------------------------------
  // The decoded event
  // ---------------------------------------------------------------------

  /**
   * The two figures of a pool's `MemoryUsage` that the gauges report, in
   * bytes; `max` is -1 when the pool has no defined maximum.
   */
  datatype MemoryUsage = MemoryUsage(max: Long, used: Long)
  {
    /** What the `MemoryUsage` constructor guarantees of the two figures. */
    predicate Valid() {
      used >= 0 && max >= -1 && (max >= 0 ==> used <= max)
    }
  }

  /** One entry of a pool-name -> usage map. */
  datatype Pool = Pool(name: string, usage: MemoryUsage)

  /**
   * A decoded GC notification: the collector's name, the collection's
   * duration and its end time (milliseconds since the runtime started), and
   * the usage of every pool before and after the collection, each map given
   * as its entries in iteration order.
   */
  datatype Event = Event(gcName: string, durationMs: Long, endTimeMs: Long, before: seq<Pool>, after: seq<Pool>)

  /** The three figures reported per pool and in total, with the name segment of each. */
  datatype Field = MaxField | UsedField | FreeField
  {
    function Label(): string {
      match this
      case MaxField => "max"
      case UsedField => "used"
      case FreeField => "free"
    }

    function Of(u: MemoryUsage): Long {
      match this
      case MaxField => u.max
      case UsedField => u.used
      case FreeField => Free(u)
    }
  }

  /**
   * `free(usage)`: max minus used in `long` arithmetic. There is no special
   * case for an unbounded pool, whose free space comes out as -1 - used.
   */
  function Free(u: MemoryUsage): (r: Long)
    ensures (r - (u.max - u.used)) % Modulus == 0
    ensures u.Valid() ==> r == u.max - u.used
    ensures u.Valid() && u.max >= 0 ==> r >= 0
  {
    Wrap(u.max - u.used)
  }

  /** The exact sum of a figure over the pools. */
  ghost function ExactSum(pools: seq<Pool>, f: Field): int
  {
    if pools == [] then 0 else ExactSum(pools[..|pools| - 1], f) + f.Of(pools[|pools| - 1].usage)
  }

  /**
   * `sum(usages, f)`: the figure summed over the pools by a `long` stream,
   * each addition wrapping around; the result is the exact sum modulo 2^64.
   */
  function Sum(pools: seq<Pool>, f: Field): (r: Long)
    ensures (r - ExactSum(pools, f)) % Modulus == 0
  {
    if pools == [] then 0
    else Wrap(Sum(pools[..|pools| - 1], f) + f.Of(pools[|pools| - 1].usage))
  }

  // ---------------------------------------------------------------------
  // Metric names
  // ---------------------------------------------------------------------

  predicate IsUpper(c: char) {
    'A' <= c <= 'Z'
  }

  /** No ASCII upper-case letter and no space. */
  predicate Clean(s: string) {
    forall i :: 0 <= i < |s| ==> !IsUpper(s[i]) && s[i] != ' '
  }

  /** Lower-casing, restricted to ASCII letters. */
  function ToLower(s: string): string
  {
    seq(|s|, i requires 0 <= i < |s| => if IsUpper(s[i]) then (s[i] as int + 32) as char else s[i])
  }

  /** `replace(' ', '-')`. */
  function ReplaceSpaces(s: string): string
  {
    seq(|s|, i requires 0 <= i < |s| => if s[i] == ' ' then '-' else s[i])
  }

  /**
   * `normalize(s)`: lower-case, then spaces replaced by '-'. Nothing else
   * changes.
   */
  function Normalize(s: string): string
  {
    ReplaceSpaces(ToLower(s))
  }

  /** `Collectors.joining(".")`: the segments with a '.' between consecutive ones. */
  function Join(segments: seq<string>): string
  {
    if |segments| == 0 then ""
    else if |segments| == 1 then segments[0]
    else segments[0] + "." + Join(segments[1..])
  }

  /**
   * `name(parts...)`: the prefix followed by the parts, each normalised, all
   * joined by '.'. The prefix is kept as it is; everything after it is
   * normalised.
   */
  function Name(prefix: string, parts: seq<string>): string
  {
    var normalized := seq(|parts|, i requires 0 <= i < |parts| => Normalize(parts[i]));
    var segments := [prefix] + normalized;
    assert segments[1..] == normalized;
    Join(segments)
  }

  /**
   * A normalised string has the length of the original, no upper-case
   * letter and no space, and keeps every other character where it was.
   */
  lemma NormalizeClean(s: string)
    ensures |Normalize(s)| == |s| && Clean(Normalize(s))
    ensures forall i :: 0 <= i < |s| && !IsUpper(s[i]) && s[i] != ' ' ==> Normalize(s)[i] == s[i]
  {
  }

  lemma CleanJoined(a: string, b: string)
    requires Clean(a) && Clean(b)
    ensures Clean(a + "." + b)
  {
  }

  /** Segments without upper-case letters and spaces join into such a string. */
  lemma {:induction false} JoinClean(segments: seq<string>)
    requires forall k :: 0 <= k < |segments| ==> Clean(segments[k])
    ensures Clean(Join(segments))
    decreases |segments|
  {
    if |segments| > 1 {
      JoinClean(segments[1..]);
      CleanJoined(segments[0], Join(segments[1..]));
    }
  }

  /** A name starts with the prefix, kept as it is; everything after it is normalised. */
  lemma NameClean(prefix: string, parts: seq<string>)
    ensures prefix <= Name(prefix, parts)
    ensures Clean(Name(prefix, parts)[|prefix|..])
  {
    var normalized := seq(|parts|, i requires 0 <= i < |parts| => Normalize(parts[i]));
    var segments := [prefix] + normalized;
    assert segments[1..] == normalized;
    if |parts| > 0 {
      forall k | 0 <= k < |normalized|
        ensures Clean(normalized[k])
      {
        NormalizeClean(parts[k]);
      }
      JoinClean(normalized);
      assert Name(prefix, parts) == prefix + ("." + Join(normalized));
      assert Name(prefix, parts)[|prefix|..] == "." + Join(normalized);
    }
  }

  // ---------------------------------------------------------------------
  // Writes into the registry
  // ---------------------------------------------------------------------

  /** One write: look `name` up, register a new metric on first use, and apply `op` to it. */
  datatype Write = Write(name: string, op: Op)

  /** The registry after one or more writes, and whether they all went through. */
  datatype Outcome = Outcome(metrics: map<string, Metric>, ok: bool)

  /** The metric a write of kind k finds under `name`: the bound one, or a new one. */
  function Current(metrics: map<string, Metric>, name: string, k: Kind): Metric
  {
    if name in metrics then metrics[name] else Fresh(k)
  }

  /**
   * Get-or-register followed by the update: an unbound name gets a new
   * metric of the write's kind, a name bound to that kind has its metric
   * updated, and a name bound to another kind fails the cast, leaving the
   * registry as it was.
   */
  function Step(metrics: map<string, Metric>, w: Write): (r: Outcome)
    ensures r.ok <==> (w.name in metrics ==> metrics[w.name].Kind() == w.op.Kind())
    ensures r.ok ==> w.name in r.metrics && r.metrics[w.name].Kind() == w.op.Kind()
    ensures r.ok ==> r.metrics == metrics[w.name := r.metrics[w.name]]
    ensures !r.ok ==> r.metrics == metrics
  {
    if w.name in metrics && metrics[w.name].Kind() != w.op.Kind() then Outcome(metrics, false)
    else Outcome(metrics[w.name := Apply(Current(metrics, w.name, w.op.Kind()), w.op)], true)
  }

  /**
   * The writes performed in order. A failed cast throws, so the first failing
   * write ends the sequence and the writes before it stay in place.
   */
  function Run(metrics: map<string, Metric>, ws: seq<Write>): (r: Outcome)
    decreases |ws|
  {
    if ws == [] then Outcome(metrics, true)
    else
      var s := Step(metrics, ws[0]);
      if s.ok then Run(s.metrics, ws[1..]) else s
  }

  lemma RunCons(metrics: map<string, Metric>, w: Write, ws: seq<Write>)
    ensures Run(metrics, [w] + ws) ==
            if Step(metrics, w).ok then Run(Step(metrics, w).metrics, ws) else Step(metrics, w)
  {
    assert ([w] + ws)[0] == w;
    assert ([w] + ws)[1..] == ws;
  }

  /** Running a + b is running a and then, if a went through, b. */
  lemma {:induction false} RunAppend(metrics: map<string, Metric>, a: seq<Write>, b: seq<Write>)
    ensures Run(metrics, a + b) ==
            if Run(metrics, a).ok then Run(Run(metrics, a).metrics, b) else Run(metrics, a)
    decreases |a|
  {
    if a == [] {
      assert a + b == b;
    } else {
      assert a + b == [a[0]] + (a[1..] + b);
      assert a == [a[0]] + a[1..];
      RunCons(metrics, a[0], a[1..] + b);
      RunCons(metrics, a[0], a[1..]);
      if Step(metrics, a[0]).ok {
        RunAppend(Step(metrics, a[0]).metrics, a[1..], b);
      }
    }
  }

  // ---------------------------------------------------------------------
  // The schema of one event
  // ---------------------------------------------------------------------

  /** `<prefix>.<C>.rate`: one mark per event. */
  function RateWrite(prefix: string, gcName: string): Write {
    Write(Name(prefix, [gcName, "rate"]), Mark)
  }

  /** `<prefix>.<C>.timer`: one sample per event, the duration in nanoseconds. */
  function TimerWrite(prefix: string, gcName: string, durationMs: Long): Write {
    Write(Name(prefix, [gcName, "timer"]), Record(durationMs * 1_000_000))
  }

  /** `<prefix>.<C>.pct-time-in-gc`: 100 * total GC time / end time. */
  function PercentWrite(prefix: string, gcName: string, newTotalMs: int, endTimeMs: Long): Write {
    Write(Name(prefix, [gcName, "pct-time-in-gc"]), SetDouble(100 * newTotalMs, endTimeMs))
  }

  /** `<prefix>.<C>.<timePart>.pools.<pool>.<field>`: the pool's figure. */
  function PoolWrite(prefix: string, gcName: string, timePart: string, pool: Pool, f: Field): Write {
    Write(Name(prefix, [gcName, timePart, "pools", pool.name, f.Label()]), SetLong(f.Of(pool.usage)))
  }

  /** The three gauges of one pool, in the order the source sets them. */
  function EntryWrites(prefix: string, gcName: string, timePart: string, pool: Pool): seq<Write> {
    [PoolWrite(prefix, gcName, timePart, pool, MaxField),
     PoolWrite(prefix, gcName, timePart, pool, UsedField),
     PoolWrite(prefix, gcName, timePart, pool, FreeField)]
  }

  /** The gauges of every pool, pool by pool in iteration order. */
  function PoolWrites(prefix: string, gcName: string, timePart: string, pools: seq<Pool>): seq<Write>
    decreases |pools|
  {
    if pools == [] then []
    else PoolWrites(prefix, gcName, timePart, pools[..|pools| - 1])
         + EntryWrites(prefix, gcName, timePart, pools[|pools| - 1])
  }

  /** `<prefix>.<C>.<timePart>.total.<field>`: the figure summed over the pools. */
  function TotalWrite(prefix: string, gcName: string, timePart: string, pools: seq<Pool>, f: Field): Write {
    Write(Name(prefix, [gcName, timePart, "total", f.Label()]), SetLong(Sum(pools, f)))
  }

  function TotalWrites(prefix: string, gcName: string, timePart: string, pools: seq<Pool>): seq<Write> {
    [TotalWrite(prefix, gcName, timePart, pools, MaxField),
     TotalWrite(prefix, gcName, timePart, pools, UsedField),
     TotalWrite(prefix, gcName, timePart, pools, FreeField)]
  }

  /** What `putGauges` writes for one usage map. */
  function GaugeWrites(prefix: string, gcName: string, timePart: string, pools: seq<Pool>): seq<Write> {
    PoolWrites(prefix, gcName, timePart, pools) + TotalWrites(prefix, gcName, timePart, pools)
  }

  /** The meter and timer writes, which come before the running total is updated. */
  function LeadWrites(prefix: string, e: Event): seq<Write> {
    [RateWrite(prefix, e.gcName), TimerWrite(prefix, e.gcName, e.durationMs)]
  }

  /** Every write of one event, in order, given the collector's total before the event. */
  function EventWrites(prefix: string, e: Event, oldTotalMs: int): seq<Write> {
    LeadWrites(prefix, e)
    + [PercentWrite(prefix, e.gcName, oldTotalMs + e.durationMs, e.endTimeMs)]
    + GaugeWrites(prefix, e.gcName, "before", e.before)
    + GaugeWrites(prefix, e.gcName, "after", e.after)
  }

  /** `totalGcTime.getOrDefault(gcName, Duration.ZERO)`, in milliseconds. */
  function TotalOf(totals: map<string, int>, gcName: string): int {
    if gcName in totals then totals[gcName] else 0
  }

  /** The phases of one event: the meter, the timer with the percent gauge, the gauges before, the gauges after. */
  lemma RunPhases(metrics: map<string, Metric>, rate: Write, timer: Write, percent: Write, before: seq<Write>, after: seq<Write>)
    ensures Run(metrics, [rate, timer]).ok ==
            (Step(metrics, rate).ok && Step(Step(metrics, rate).metrics, timer).ok)
    ensures Run(metrics, [rate] + [timer, percent] + before + after) ==
            var s := Step(metrics, rate);
            if !s.ok then s
            else
              var t := Run(s.metrics, [timer, percent]);
              if !t.ok then t
              else
                var b := Run(t.metrics, before);
                if !b.ok then b else Run(b.metrics, after)
  {
    RunAppend(metrics, [rate] + [timer, percent] + before, after);
    RunAppend(metrics, [rate] + [timer, percent], before);
    RunCons(metrics, rate, [timer, percent]);
    RunCons(metrics, rate, [timer]);
    assert [rate, timer] == [rate] + [timer];
    RunCons(Step(metrics, rate).metrics, timer, []);
  }

  lemma RunTriple(metrics: map<string, Metric>, a: Write, b: Write, c: Write)
    ensures Run(metrics, [a, b, c]) ==
            var s := Step(metrics, a);
            if !s.ok then s
            else
              var t := Step(s.metrics, b);
              if !t.ok then t else Step(t.metrics, c)
  {
    assert [a, b, c] == [a] + [b, c];
    RunCons(metrics, a, [b, c]);
    assert [b, c] == [b] + [c];
    RunCons(Step(metrics, a).metrics, b, [c]);
    RunCons(Step(Step(metrics, a).metrics, b).metrics, c, []);
  }

  /**
   * One pass of the loop in `putGauges`: after the writes of pools[..i], the
   * writes of pools[i] either complete pools[..i + 1] or end the whole run.
   */
  lemma PoolWritesStep(metrics: map<string, Metric>, prefix: string, gcName: string, timePart: string, pools: seq<Pool>, i: nat)
    requires i < |pools|
    ensures var done := Run(metrics, PoolWrites(prefix, gcName, timePart, pools[..i]));
            var next := Run(metrics, PoolWrites(prefix, gcName, timePart, pools[..i + 1]));
            done.ok ==>
              && next == Run(done.metrics, EntryWrites(prefix, gcName, timePart, pools[i]))
              && (!next.ok ==> Run(metrics, GaugeWrites(prefix, gcName, timePart, pools)) == next)
  {
    var done := PoolWrites(prefix, gcName, timePart, pools[..i]);
    var entry := EntryWrites(prefix, gcName, timePart, pools[i]);
    assert pools[..i + 1][..i] == pools[..i];
    assert PoolWrites(prefix, gcName, timePart, pools[..i + 1]) == done + entry;
    RunAppend(metrics, done, entry);
    assert pools == pools[..i + 1] + pools[i + 1..];
    PoolWritesAppend(prefix, gcName, timePart, pools[..i + 1], pools[i + 1..]);
    var rest := PoolWrites(prefix, gcName, timePart, pools[i + 1..]) + TotalWrites(prefix, gcName, timePart, pools);
    assert GaugeWrites(prefix, gcName, timePart, pools) == (done + entry) + rest;
    RunAppend(metrics, done + entry, rest);
  }

  lemma {:induction false} PoolWritesAppend(prefix: string, gcName: string, timePart: string, a: seq<Pool>, b: seq<Pool>)
    ensures PoolWrites(prefix, gcName, timePart, a + b)
         == PoolWrites(prefix, gcName, timePart, a) + PoolWrites(prefix, gcName, timePart, b)
    decreases |b|
  {
    if b == [] {
      assert a + b == a;
    } else {
      var b' := b[..|b| - 1];
      assert (a + b)[..|a + b| - 1] == a + b';
      assert (a + b)[|a + b| - 1] == b[|b| - 1];
      PoolWritesAppend(prefix, gcName, timePart, a, b');
    }
  }

  // ---------------------------------------------------------------------
  // The accumulator
  // ---------------------------------------------------------------------

  class GcMemoryMetrics {
    const prefix: string
    const registry: MetricRegistry
    /** Collector name -> summed GC duration in milliseconds. */
    var totalGcTime: map<string, int>

    constructor (prefix: string, registry: MetricRegistry)
      ensures this.prefix == prefix && this.registry == registry
      ensures totalGcTime == map[]
    {
      this.prefix := prefix;
      this.registry := registry;
      totalGcTime := map[];
    }

    /**
     * One event: the meter, the timer and the running total, the percent
     * gauge, then the gauges before and after the collection. A failed cast
     * ends the event; the registry then holds the writes made before it.
     */
    method Handle(e: Event) returns (ok: bool)
      modifies this, registry
      ensures Outcome(registry.metrics, ok) == Run(old(registry.metrics), EventWrites(prefix, e, TotalOf(old(totalGcTime), e.gcName)))
      ensures totalGcTime ==
              if Run(old(registry.metrics), LeadWrites(prefix, e)).ok
              then old(totalGcTime)[e.gcName := TotalOf(old(totalGcTime), e.gcName) + e.durationMs]
              else old(totalGcTime)
    {
      ghost var m0 := registry.metrics;
      ghost var rate := RateWrite(prefix, e.gcName);
      ghost var timer := TimerWrite(prefix, e.gcName, e.durationMs);
      ghost var percent := PercentWrite(prefix, e.gcName, TotalOf(totalGcTime, e.gcName) + e.durationMs, e.endTimeMs);
      ghost var before := GaugeWrites(prefix, e.gcName, "before", e.before);
      ghost var after := GaugeWrites(prefix, e.gcName, "after", e.after);
      assert EventWrites(prefix, e, TotalOf(totalGcTime, e.gcName)) == [rate] + [timer, percent] + before + after;
      assert LeadWrites(prefix, e) == [rate, timer];
      RunPhases(m0, rate, timer, percent, before, after);

      ok := MarkMeter(e.gcName);
      if !ok {
        return;
      }
      ghost var m1 := registry.metrics;
      ok := UpdateTime(e.gcName, e.durationMs, e.endTimeMs);
      if !ok {
        return;
      }
      RunCons(m1, timer, [percent]);
      ok := PutGauges(e.gcName, "before", e.before);
      if !ok {
        return;
      }
      ok := PutGauges(e.gcName, "after", e.after);
    }

    /** The get-or-register, cast and update shared by every metric the accumulator writes. */
    method WriteMetric(name: string, op: Op) returns (ok: bool)
      modifies registry
      ensures Outcome(registry.metrics, ok) == Step(old(registry.metrics), Write(name, op))
    {
      var found := name in registry.metrics;
      var metric: Metric;
      if !found {
        metric := Fresh(op.Kind());
        registry.metrics := registry.metrics[name := metric];
      } else {
        metric := registry.metrics[name];
        if metric.Kind() != op.Kind() {
          return false;
        }
      }
      registry.metrics := registry.metrics[name := Apply(metric, op)];
      ok := true;
    }

    /** `markMeter`: one mark on `<prefix>.<C>.rate`. */
    method MarkMeter(gcName: string) returns (ok: bool)
      modifies registry
      ensures Outcome(registry.metrics, ok) == Step(old(registry.metrics), RateWrite(prefix, gcName))
    {
      ok := WriteMetric(Name(prefix, [gcName, "rate"]), Mark);
    }

    /**
     * `updateTime`: a timer sample, then the running total, then the percent
     * gauge computed from the updated total. The total is updated exactly
     * when the timer write went through.
     */
    method UpdateTime(gcName: string, durationMs: Long, endTimeMs: Long) returns (ok: bool)
      modifies this, registry
      ensures Outcome(registry.metrics, ok) ==
              Run(old(registry.metrics),
                  [TimerWrite(prefix, gcName, durationMs),
                   PercentWrite(prefix, gcName, TotalOf(old(totalGcTime), gcName) + durationMs, endTimeMs)])
      ensures totalGcTime ==
              if Step(old(registry.metrics), TimerWrite(prefix, gcName, durationMs)).ok
              then old(totalGcTime)[gcName := TotalOf(old(totalGcTime), gcName) + durationMs]
              else old(totalGcTime)
    {
      ghost var m0 := registry.metrics;
      ghost var timer := TimerWrite(prefix, gcName, durationMs);
      ghost var percent := PercentWrite(prefix, gcName, TotalOf(totalGcTime, gcName) + durationMs, endTimeMs);
      RunCons(m0, timer, [percent]);

      ok := WriteMetric(Name(prefix, [gcName, "timer"]), Record(durationMs * 1_000_000));
      if !ok {
        return;
      }
      ghost var m1 := registry.metrics;
      RunCons(m1, percent, []);

      var oldTotal := if gcName in totalGcTime then totalGcTime[gcName] else 0;
      var newTotal := oldTotal + durationMs;
      totalGcTime := totalGcTime[gcName := newTotal];

      ok := WriteMetric(Name(prefix, [gcName, "pct-time-in-gc"]), SetDouble(100 * newTotal, endTimeMs));
    }

    /** `putPoolGauge`: `<prefix>.<C>.<timePart>.pools.<pool>.<name>` set to `value`. */
    method PutPoolGauge(gcName: string, timePart: string, poolName: string, name: string, value: Long) returns (ok: bool)
      modifies registry
      ensures Outcome(registry.metrics, ok) ==
              Step(old(registry.metrics), Write(Name(prefix, [gcName, timePart, "pools", poolName, name]), SetLong(value)))
    {
      ok := PutGauge(value, [gcName, timePart, "pools", poolName, name]);
    }

    /** `putTotalGauge`: `<prefix>.<C>.<timePart>.total.<name>` set to `value`. */
    method PutTotalGauge(gcName: string, timePart: string, name: string, value: Long) returns (ok: bool)
      modifies registry
      ensures Outcome(registry.metrics, ok) ==
              Step(old(registry.metrics), Write(Name(prefix, [gcName, timePart, "total", name]), SetLong(value)))
    {
      ok := PutGauge(value, [gcName, timePart, "total", name]);
    }

    /** `putGauge`: the long gauge named by the parts set to `value`. */
    method PutGauge(value: Long, nameParts: seq<string>) returns (ok: bool)
      modifies registry
      ensures Outcome(registry.metrics, ok) == Step(old(registry.metrics), Write(Name(prefix, nameParts), SetLong(value)))
    {
      ok := WriteMetric(Name(prefix, nameParts), SetLong(value));
    }

    /**
     * `putGauges`: max, used and free for every pool in iteration order, then
     * the three totals.
     */
    method PutGauges(gcName: string, timePart: string, usages: seq<Pool>) returns (ok: bool)
      modifies registry
      ensures Outcome(registry.metrics, ok) == Run(old(registry.metrics), GaugeWrites(prefix, gcName, timePart, usages))
    {
      ghost var m0 := registry.metrics;
      var i := 0;
      while i < |usages|
        invariant 0 <= i <= |usages|
        invariant Run(m0, PoolWrites(prefix, gcName, timePart, usages[..i])) == Outcome(registry.metrics, true)
      {
        ghost var mi := registry.metrics;
        ok := PutPoolGauges(gcName, timePart, usages[i]);
        PoolWritesStep(m0, prefix, gcName, timePart, usages, i);
        if !ok {
          return;
        }
        i := i + 1;
      }
      assert usages[..i] == usages;
      ghost var mp := registry.metrics;
      RunAppend(m0, PoolWrites(prefix, gcName, timePart, usages), TotalWrites(prefix, gcName, timePart, usages));
      RunTriple(mp, TotalWrite(prefix, gcName, timePart, usages, MaxField),
                TotalWrite(prefix, gcName, timePart, usages, UsedField),
                TotalWrite(prefix, gcName, timePart, usages, FreeField));
      ok := PutTotalGauge(gcName, timePart, "max", Sum(usages, MaxField));
      if !ok {
        return;
      }
      ok := PutTotalGauge(gcName, timePart, "used", Sum(usages, UsedField));
      if !ok {
        return;
      }
      ok := PutTotalGauge(gcName, timePart, "free", Sum(usages, FreeField));
    }

    /** The body of the loop in `putGauges`: max, used and free of one pool. */
    method PutPoolGauges(gcName: string, timePart: string, pool: Pool) returns (ok: bool)
      modifies registry
      ensures Outcome(registry.metrics, ok) == Run(old(registry.metrics), EntryWrites(prefix, gcName, timePart, pool))
    {
      RunTriple(registry.metrics, PoolWrite(prefix, gcName, timePart, pool, MaxField),
                PoolWrite(prefix, gcName, timePart, pool, UsedField),
                PoolWrite(prefix, gcName, timePart, pool, FreeField));
      ok := PutPoolGauge(gcName, timePart, pool.name, "max", pool.usage.max);
      if !ok {
        return;
      }
      ok := PutPoolGauge(gcName, timePart, pool.name, "used", pool.usage.used);
      if !ok {
        return;
      }
      ok := PutPoolGauge(gcName, timePart, pool.name, "free", Free(pool.usage));
    }
  }
}
