/**
 * The shared metric registry that the GC accumulator writes into and that
 * MetricSets.RemoveAll removes from: a store of `name -> metric`.
 *
 * The metric objects of the library (meters, timers, atomic gauges) are
 * mutable objects that the registry hands out by reference; here a metric is
 * a value, and updating a registered metric rebinds its name to the updated
 * value.
 */
module Registry {

  /** The kinds of metric a registry can hold; a lookup is cast to one of them. */
  datatype Kind = MeterKind | TimerKind | LongGaugeKind | DoubleGaugeKind | CounterKind

  /**
   * A registered metric, reduced to the state this model observes: a meter
   * counts its marks, a timer keeps its samples in nanoseconds, a long gauge
   * holds its last value, a double gauge holds its last value as the fraction
   * num / den, and a counter (registered by other writers only) its count.
   */
  datatype Metric =
    | Meter(marks: nat)
    | Timer(samplesNs: seq<int>)
    | LongGauge(value: int)
    | DoubleGauge(num: int, den: int)
    | Counter(count: int)
  {
    function Kind(): Kind {
      match this
      case Meter(_) => MeterKind
      case Timer(_) => TimerKind
      case LongGauge(_) => LongGaugeKind
      case DoubleGauge(_, _) => DoubleGaugeKind
      case Counter(_) => CounterKind
    }
  }

  /**
   * An update performed on a metric: `Meter.mark()`, `Timer.update(ns)`,
   * `AtomicLongGauge.set(v)` and `AtomicDoubleGauge.set(num / den)`.
   */
  datatype Op =
    | Mark
    | Record(ns: int)
    | SetLong(value: int)
    | SetDouble(num: int, den: int)
  {
    /** The kind of metric the update applies to. */
    function Kind(): Kind {
      match this
      case Mark => MeterKind
      case Record(_) => TimerKind
      case SetLong(_) => LongGaugeKind
      case SetDouble(_, _) => DoubleGaugeKind
    }
  }

  /** A newly constructed metric of the given kind. */
  function Fresh(k: Kind): (m: Metric)
    ensures m.Kind() == k
  {
    match k
    case MeterKind => Meter(0)
    case TimerKind => Timer([])
    case LongGaugeKind => LongGauge(0)
    case DoubleGaugeKind => DoubleGauge(0, 1)
    case CounterKind => Counter(0)
  }

  /** The metric after the update; an update never changes a metric's kind. */
  function Apply(m: Metric, op: Op): (r: Metric)
    requires m.Kind() == op.Kind()
    ensures r.Kind() == m.Kind()
  {
    match op
    case Mark => Meter(m.marks + 1)
    case Record(ns) => Timer(m.samplesNs + [ns])
    case SetLong(v) => LongGauge(v)
    case SetDouble(num, den) => DoubleGauge(num, den)
  }

  /** The process-wide registry, shared by every component that registers metrics. */
  class MetricRegistry {
    var metrics: map<string, Metric>

    constructor ()
      ensures metrics == map[]
    {
      metrics := map[];
    }

    /** Unbinds `name`; says whether it was bound. */
    method Remove(name: string) returns (removed: bool)
      modifies this
      ensures removed == (name in old(metrics))
      ensures metrics == old(metrics) - {name}
    {
      removed := name in metrics;
      metrics := metrics - {name};
    }
  }
}
