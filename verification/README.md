# GC memory metrics and metric-set helpers, in Dafny

This project models two parts of a metrics library for the JVM.

**The garbage-collection accumulator (`GcMemoryMetrics`).** For every GC notification it does the following:
- marks the meter `<prefix>.<C>.rate`, where `<C>` is the normalised collector name;
- records the duration, in nanoseconds, on the timer `<prefix>.<C>.timer`;
- adds the duration to a running total per collector;
- sets the gauge `<prefix>.<C>.pct-time-in-gc` to 100 · total / end time;
- for the pool usage before and after the collection, sets `max`, `used` and `free` long gauges for every pool (`<prefix>.<C>.<before|after>.pools.<pool>.<field>`) and for the sum over all pools (`<prefix>.<C>.<before|after>.total.<field>`).

Every metric is looked up by name in a shared registry. If the name is unbound, a new metric is registered. If the name is bound, the metric found is cast to the expected kind. A failed cast throws, and that ends the event.

**The `MetricSets` helpers.** These operate on metric sets:
- renaming the keys (`transformNames`);
- union (`combine`);
- prefixing (`prefix`, `combineAndPrefix`);
- removing a set's names from a registry (`removeAll`).

Files:

- `registry.dfy` (module `Registry`) defines the shared registry, the metric kinds, and the updates the accumulator applies.
- `gc_memory_metrics.dfy` (module `GcMemory`) holds:
  - the pure parts: `long` arithmetic, `free`, `sum`, `normalize`, `name`;
  - the list of writes one event performs, in the source's order (`EventWrites`), and their effect on the registry (`Run`);
  - the class `GcMemoryMetrics`. Its methods perform the writes one at a time and are proved to end in the state `Run` describes.
- `gc_memory_properties.dfy` (module `GcMemoryProperties`) proves what one event does to the registry:
  - the meter gains one mark;
  - the timer gains one sample;
  - each gauge ends up with the event's figures;
  - an event fails exactly when a target name is bound to another kind;
  - names outside `<prefix>.<C>.` are untouched;
  - the `free` total is the `max` total minus the `used` total.
- `metric_sets.dfy` (module `MetricSets`) contains the metric-set helpers and their properties.

Model of the event:

- A registered metric is a value:
  - `Meter(marks)`, `Timer(samplesNs)`, `LongGauge(value)`, `DoubleGauge(num, den)`;
  - `Counter`, which only other writers register.
- A metric update rebinds its name to the updated value.
- A usage map is the sequence of its entries in iteration order.
- A Java `long` is the subset type `Long`. `long` overflow is modelled by `Wrap` (two's complement), for `free` and for the stream sum.
- The percent value is kept as the fraction `100 · newTotal / endTime`, with numerator and denominator stored as integers.
- The source has no guard for an end time of 0, so neither does the model: the gauge then holds the fraction with denominator 0.

## Model

Source paths are relative to the repository root.

| member | source | states |
|---|---|---|
| Registry.Fresh | src/main/java/com/opentable/metrics/jvm/GcMemoryMetrics.java:104-106 | a metric registered on first use has the kind the lookup asked for |
| Registry.Apply | src/main/java/com/opentable/metrics/jvm/GcMemoryMetrics.java:109 | `meter.mark()` (line 109), `timer.update` (line 130), the percent gauge's `set` (line 147) and the long gauge's `set` (line 172) never change the kind of the metric they update |
| Registry.MetricRegistry.Remove | src/main/java/com/opentable/metrics/graphite/MetricSets.java:84 | `remove(name)` unbinds exactly that name, reports whether it was bound, and leaves every other binding unchanged |
| GcMemory.Wrap | src/main/java/com/opentable/metrics/jvm/GcMemoryMetrics.java:193 | the `long` result is congruent to the exact result modulo 2^64, and equals it when the exact result fits in a `long` |
| GcMemory.Free | src/main/java/com/opentable/metrics/jvm/GcMemoryMetrics.java:192-194 | `free` is max − used modulo 2^64, with no case for max = −1. For a valid usage it is exactly max − used, and for a bounded pool it is never negative |
| GcMemory.Sum | src/main/java/com/opentable/metrics/jvm/GcMemoryMetrics.java:175-177 | the stream sum of `long`s is the exact sum of the figure over all pools, modulo 2^64 |
| GcMemory.NormalizeClean | src/main/java/com/opentable/metrics/jvm/GcMemoryMetrics.java:188-190 | `normalize` keeps the length, leaves no ASCII upper-case letter and no space, and keeps every other character in place |
| GcMemory.Normalize | src/main/java/com/opentable/metrics/jvm/GcMemoryMetrics.java:188-190 | lower-cases ASCII letters, then maps ' ' to '-'; every other character stays. Its properties are NormalizeClean, NormalizeFixed and NormalizeIdempotent |
| GcMemory.Join | src/main/java/com/opentable/metrics/jvm/GcMemoryMetrics.java:185 | the segments with one '.' between consecutive ones. Its property is JoinClean |
| GcMemory.Name | src/main/java/com/opentable/metrics/jvm/GcMemoryMetrics.java:179-186 | the prefix, then each part normalised, joined by '.'. Its properties are NameClean and NameCons |
| GcMemory.JoinClean | src/main/java/com/opentable/metrics/jvm/GcMemoryMetrics.java:185 | joining segments that have no upper-case letter and no space with '.' gives such a string |
| GcMemory.NameClean | src/main/java/com/opentable/metrics/jvm/GcMemoryMetrics.java:179-186 | a name starts with the prefix, which is kept unnormalised; everything after the prefix is normalised |
| GcMemory.Step | src/main/java/com/opentable/metrics/jvm/GcMemoryMetrics.java:163-172 | get-or-register and cast. The cast fails exactly when the name is bound to another kind, and the registry is then unchanged. Otherwise the name ends up bound to a metric of the requested kind, and no other binding changes |
| GcMemory.EventWrites | src/main/java/com/opentable/metrics/jvm/GcMemoryMetrics.java:79-84 | the writes of one event in the order `handle` makes them: the rate meter, the timer, the percent gauge, the gauges before, the gauges after. `Handle` is proved to run exactly these |
| GcMemory.RunAppend | src/main/java/com/opentable/metrics/jvm/GcMemoryMetrics.java:76-85 | running a + b is running a and then, if a completed, running b. A failed cast ends the event with the earlier writes kept |
| GcMemory.RunPhases | src/main/java/com/opentable/metrics/jvm/GcMemoryMetrics.java:79-84 | an event is the meter, then the timer with the percent gauge, then the gauges before, then the gauges after, each phase only if the previous one completed |
| GcMemory.PoolWritesStep | src/main/java/com/opentable/metrics/jvm/GcMemoryMetrics.java:88-92 | one pass of the `forEach`: a failure inside one pool's three gauges ends the whole `putGauges` |
| GcMemory.PoolWritesAppend | src/main/java/com/opentable/metrics/jvm/GcMemoryMetrics.java:88-92 | the pool gauges of two runs of entries are the gauges of the first followed by those of the second |
| GcMemory.GcMemoryMetrics.constructor | src/main/java/com/opentable/metrics/jvm/GcMemoryMetrics.java:58-60 | keeps the prefix and the registry, and starts with no running totals |
| GcMemory.GcMemoryMetrics.Handle | src/main/java/com/opentable/metrics/jvm/GcMemoryMetrics.java:76-85 | the registry ends as `Run` of the event's writes says, and the result reports whether every cast succeeded. The collector's total becomes old total (0 if absent) + duration exactly when the meter and timer casts succeeded; every other collector's total is unchanged |
| GcMemory.GcMemoryMetrics.WriteMetric | src/main/java/com/opentable/metrics/jvm/GcMemoryMetrics.java:164-172 | get-or-register, cast and update, as `Step` describes |
| GcMemory.GcMemoryMetrics.MarkMeter | src/main/java/com/opentable/metrics/jvm/GcMemoryMetrics.java:100-110 | one mark written to `<prefix>.<C>.rate` |
| GcMemory.GcMemoryMetrics.UpdateTime | src/main/java/com/opentable/metrics/jvm/GcMemoryMetrics.java:118-148 | the timer sample, then the percent gauge computed from the updated total (old + d, not old). The total is updated exactly when the timer cast succeeded |
| GcMemory.GcMemoryMetrics.PutPoolGauge | src/main/java/com/opentable/metrics/jvm/GcMemoryMetrics.java:150-157 | one long gauge under `<prefix>.<C>.<t>.pools.<pool>.<name>` |
| GcMemory.GcMemoryMetrics.PutTotalGauge | src/main/java/com/opentable/metrics/jvm/GcMemoryMetrics.java:159-161 | one long gauge under `<prefix>.<C>.<t>.total.<name>` |
| GcMemory.GcMemoryMetrics.PutGauge | src/main/java/com/opentable/metrics/jvm/GcMemoryMetrics.java:163-173 | the long gauge named by the parts is set to the value, after get-or-register and cast |
| GcMemory.GcMemoryMetrics.PutGauges | src/main/java/com/opentable/metrics/jvm/GcMemoryMetrics.java:87-96 | every pool's max, used and free in iteration order, then the three totals, stopping at the first failed cast |
| GcMemory.GcMemoryMetrics.PutPoolGauges | src/main/java/com/opentable/metrics/jvm/GcMemoryMetrics.java:88-92 | the body of the `forEach`: max, used and free of one pool |
| GcMemoryProperties.RunFrame | src/main/java/com/opentable/metrics/jvm/GcMemoryMetrics.java:163-172 | a name that no write targets keeps its binding, whether the run fails or not |
| GcMemoryProperties.RunKeepsKinds | src/main/java/com/opentable/metrics/jvm/GcMemoryMetrics.java:102-108 | no name is ever unbound, and a bound name never changes kind: a failed cast never re-registers over the existing entry |
| GcMemoryProperties.RunBindsAll | src/main/java/com/opentable/metrics/jvm/GcMemoryMetrics.java:163-172 | after a complete run, every target name is bound to a metric of its write's kind |
| GcMemoryProperties.RunOkIff | src/main/java/com/opentable/metrics/jvm/GcMemoryMetrics.java:102-108 | when writes to one name agree on the kind, a run completes exactly when every cast succeeds against the initial registry (both directions) |
| GcMemoryProperties.RunLastSet | src/main/java/com/opentable/metrics/jvm/GcMemoryMetrics.java:172 | a gauge holds the value of the last write that set it |
| GcMemoryProperties.RunFirstWrite | src/main/java/com/opentable/metrics/jvm/GcMemoryMetrics.java:102-109 | the first write to a name that no later write targets leaves its update applied to the metric it found, or to a new one |
| GcMemoryProperties.RunThrough | src/main/java/com/opentable/metrics/jvm/GcMemoryMetrics.java:83-84 | after a complete run of x + g + y, a name that y does not target is as g left it |
| GcMemoryProperties.NormalizeFixed | src/main/java/com/opentable/metrics/jvm/GcMemoryMetrics.java:188-190 | a string with no upper-case letter and no space is unchanged by `normalize` |
| GcMemoryProperties.NormalizeIdempotent | src/main/java/com/opentable/metrics/jvm/GcMemoryMetrics.java:188-190 | normalising twice is the same as normalising once |
| GcMemoryProperties.NameCons | src/main/java/com/opentable/metrics/jvm/GcMemoryMetrics.java:179-186 | a name with one more part is the name whose prefix is extended by '.' and that part, normalised |
| GcMemoryProperties.LeadNames | src/main/java/com/opentable/metrics/jvm/GcMemoryMetrics.java:101 | the meter, timer and percent names are `<prefix>.<C>.rate`, `.timer` and `.pct-time-in-gc` |
| GcMemoryProperties.PoolName | src/main/java/com/opentable/metrics/jvm/GcMemoryMetrics.java:156 | a pool gauge is named `<prefix>.<C>.<t>.pools.<normalised pool>.<field>` |
| GcMemoryProperties.TotalName | src/main/java/com/opentable/metrics/jvm/GcMemoryMetrics.java:160 | a total gauge is named `<prefix>.<C>.<t>.total.<field>` |
| GcMemoryProperties.PoolNamesDiffer | src/main/java/com/opentable/metrics/jvm/GcMemoryMetrics.java:156 | pool gauges of pools with different normalised names, or of different fields, have different names |
| GcMemoryProperties.TotalNamesDiffer | src/main/java/com/opentable/metrics/jvm/GcMemoryMetrics.java:160 | the three total gauges have three different names |
| GcMemoryProperties.PoolsAreNotTotals | src/main/java/com/opentable/metrics/jvm/GcMemoryMetrics.java:156-160 | no pool gauge shares its name with a total gauge |
| GcMemoryProperties.PoolWritesUnder | src/main/java/com/opentable/metrics/jvm/GcMemoryMetrics.java:88-92 | every pool gauge of a time part sets a long and is named under `<prefix>.<C>.<t>.` |
| GcMemoryProperties.PoolWritesAvoid | src/main/java/com/opentable/metrics/jvm/GcMemoryMetrics.java:88-92 | the gauges of pools with other normalised names never target a given pool's gauge |
| GcMemoryProperties.GaugeTags | src/main/java/com/opentable/metrics/jvm/GcMemoryMetrics.java:87-96 | every gauge of a time part sets a long, is named under `<prefix>.<C>.`, and carries the time part's first letter right after that, so before and after gauges never share a name |
| GcMemoryProperties.EntrySetsField | src/main/java/com/opentable/metrics/jvm/GcMemoryMetrics.java:89-91 | after a pool's three writes, the gauge of each field holds that field's figure |
| GcMemoryProperties.GaugesSetPool | src/main/java/com/opentable/metrics/jvm/GcMemoryMetrics.java:88-92 | after a complete `putGauges` with distinct normalised pool names, each pool gauge holds `max`, `used` or max − used of that pool |
| GcMemoryProperties.GaugesSetTotal | src/main/java/com/opentable/metrics/jvm/GcMemoryMetrics.java:93-95 | after a complete `putGauges`, each total gauge holds the stream sum of that field over all pools |
| GcMemoryProperties.EventKindConsistent | src/main/java/com/opentable/metrics/jvm/GcMemoryMetrics.java:76-85 | within one event, no name is written with two different kinds |
| GcMemoryProperties.HandleOkIff | src/main/java/com/opentable/metrics/jvm/GcMemoryMetrics.java:102-108 | an event completes exactly when every name it writes is unbound or bound to the kind it writes; otherwise a cast fails |
| GcMemoryProperties.HandleFrame | src/main/java/com/opentable/metrics/jvm/GcMemoryMetrics.java:76-85 | an event leaves every registry entry outside `<prefix>.<C>.` unchanged |
| GcMemoryProperties.HandleMarksMeter | src/main/java/com/opentable/metrics/jvm/GcMemoryMetrics.java:100-110 | once the meter cast succeeds, whatever happens later in the event, the rate meter has exactly one more mark (a new meter has one) |
| GcMemoryProperties.HandleRecordsDuration | src/main/java/com/opentable/metrics/jvm/GcMemoryMetrics.java:122-130 | once the meter and timer casts succeed, the timer gains exactly one sample, equal to duration × 1 000 000 ns |
| GcMemoryProperties.HandleSetsPercent | src/main/java/com/opentable/metrics/jvm/GcMemoryMetrics.java:134-147 | once the first three casts succeed, the percent gauge holds 100 · (old total + duration) / end time |
| GcMemoryProperties.PercentInRange | src/main/java/com/opentable/metrics/jvm/GcMemoryMetrics.java:146-147 | the percent lies in [0, 100], as the comment at line 113 says, when the end time is positive and the accumulated time, this event included, lies between 0 and the end time |
| GcMemoryProperties.TotalWithinEnd | src/main/java/com/opentable/metrics/jvm/GcMemoryMetrics.java:134-136 | for one collector whose events do not overlap, the summed durations lie between 0 and the last end time |
| GcMemoryProperties.HandlePercentStep | src/main/java/com/opentable/metrics/jvm/GcMemoryMetrics.java:134-147 | one `Handle` call on the next event of a collector whose events do not overlap: if the collector's total in `totalGcTime` lies between 0 and the summed durations of its earlier events, the percent it writes lies in [0, 100] whenever the end time is positive, and the total it leaves, updated or not, lies between 0 and the summed durations including this event |
| GcMemoryProperties.PercentCanFall | src/main/java/com/opentable/metrics/jvm/GcMemoryMetrics.java:134-147 | the percent is not monotone: non-overlapping events can report 1 % and then 0.5 % |
| GcMemoryProperties.HandleSetsPoolGauge | src/main/java/com/opentable/metrics/jvm/GcMemoryMetrics.java:83-92 | after a complete event, each before/after pool gauge holds that pool's max, used or max − used |
| GcMemoryProperties.HandleSetsTotal | src/main/java/com/opentable/metrics/jvm/GcMemoryMetrics.java:83-95 | after a complete event, each before/after total gauge holds the sum of that field over the time part's pools |
| GcMemoryProperties.ExactFreeIsDifference | src/main/java/com/opentable/metrics/jvm/GcMemoryMetrics.java:93-95 | the exact sum of `free` over the pools equals the exact sum of `max` minus the exact sum of `used`, modulo 2^64 |
| GcMemoryProperties.ExactFreeOfValid | src/main/java/com/opentable/metrics/jvm/GcMemoryMetrics.java:192-194 | for valid usages, the exact sum of `free` is exactly Σmax − Σused |
| GcMemoryProperties.TotalFreeIsDifference | src/main/java/com/opentable/metrics/jvm/GcMemoryMetrics.java:93-95 | the `free` total equals the `max` total minus the `used` total in `long` arithmetic |
| GcMemoryProperties.SumExact | src/main/java/com/opentable/metrics/jvm/GcMemoryMetrics.java:175-177 | when the exact sum fits in a `long`, the stream sum equals it |
| MetricSets.InjectiveImageSize | src/main/java/com/opentable/metrics/graphite/MetricSets.java:40-41 | an injective transformer gives as many names as there are keys |
| MetricSets.CoversStep | src/main/java/com/opentable/metrics/graphite/MetricSets.java:41 | one more `put` of an entry under its transformed name keeps the map made of the entries seen so far |
| MetricSets.TransformNames | src/main/java/com/opentable/metrics/graphite/MetricSets.java:37-44 | the keys are exactly the images f(k) of the keys k, and every value under j is the value of some k with f(k) = j, so nothing is invented. For an injective f, result[f(k)] = set[k] and the size is preserved |
| MetricSets.UnionKeys | src/main/java/com/opentable/metrics/graphite/MetricSets.java:50-56 | a name is in the union exactly when some set has it, so the union of no sets is empty |
| MetricSets.UnionLastWins | src/main/java/com/opentable/metrics/graphite/MetricSets.java:53 | a name keeps the value from the last set that has it; a name only one set has keeps that set's value |
| MetricSets.Combine | src/main/java/com/opentable/metrics/graphite/MetricSets.java:50-56 | the `putAll` loop computes the union of the sets in order |
| MetricSets.CombineAll | src/main/java/com/opentable/metrics/graphite/MetricSets.java:62-64 | the varargs overload computes the same union over its arguments |
| MetricSets.IsPrefixedUnique | src/main/java/com/opentable/metrics/graphite/MetricSets.java:69-71 | the prefixed map is determined by the prefix and the original map |
| MetricSets.PrefixInjective | src/main/java/com/opentable/metrics/graphite/MetricSets.java:70 | prepending a prefix never maps two names to one |
| MetricSets.Prefix | src/main/java/com/opentable/metrics/graphite/MetricSets.java:69-71 | p + k holds what k held, every key starts with p and comes from a key of the set, and the size is preserved |
| MetricSets.CombineAndPrefix | src/main/java/com/opentable/metrics/graphite/MetricSets.java:76-78 | the result is the union of the sets, prefixed; by IsPrefixedUnique that is exactly `prefix(p, combine(sets))` |
| MetricSets.RemoveAll | src/main/java/com/opentable/metrics/graphite/MetricSets.java:83-85 | the registry loses exactly the set's names. None of them stays bound, and every other entry keeps its binding and its metric |

## Left out

- The JMX subscription in the constructor and the `listener` callback (GcMemoryMetrics.java:61-74) are host management plumbing and `CompositeData` decoding. `Handle` takes an already decoded `Event`.
- `synchronized` and `@GuardedBy` are concurrency. `Handle` is a sequential method.
- Floating point: the percent gauge holds the fraction num/den as two integers. An end time of 0 is not special-cased, because the source does not special-case it (Java gives Infinity or NaN there).
- The percent range [0, 100] promised by the comment at GcMemoryMetrics.java:113 is not enforced by the code. An end time of 0 gives Infinity or NaN. An end time earlier than the accumulated GC time gives more than 100. The model states the range only under the conditions that make it hold (PercentInRange, HandlePercentStep).
- The percent is not monotone across events, since a collector's time in GC can grow more slowly than the clock; PercentCanFall gives an instance.
- Dropwizard internals: a meter is reduced to its mark count, and a timer to its list of samples, with no rates, histograms or clock.
- `Timer.update` ignores negative durations; the model appends every sample. GC durations are never negative.
- `Duration.toNanos` and `Duration.plus` throw on `long` overflow. The model's duration in nanoseconds and running total are unbounded integers.
- Locale-aware Unicode lower-casing: `normalize` maps ASCII upper-case letters only.
- `MemoryUsage` `init` and `committed` are never read by the source and are not modelled.
- The `HashMap` iteration order of a usage map is the order of the entry sequence in `Event`. No lemma assumes a particular order. After a failed cast, and when two pools normalise to the same name, the registry that `Handle` and `PutGauges` leave does depend on the order of the entries.
- Metric objects are shared by reference in the source, and the model treats them as values: updating a metric rebinds its name. No other model operation updates a metric. A `MetricSet` computed from the registry holds copies taken when it is computed, whereas in the source it shares the metric objects, so a later `mark()` shows through it.
- `MetricSet` results are lazy views that call `getMetrics()` again on every use. Each model operation computes one snapshot map from the maps it is given. The varargs overloads take an `array`; `combine(Iterable)` takes a sequence.
- JvmMetricsConfiguration.java is not part of this model.
- GcMemoryProperties.HandleSetsPoolGauge: stated only for an event that completes, and for a usage map whose pool names stay distinct after normalisation. Two pools whose names normalise alike would share gauges, and the later pool's figure would win.
- GcMemoryProperties.HandleSetsTotal: stated only for an event that completes. After a failed cast the later gauges are not written.
- GcMemoryProperties.HandleMarksMeter: states the mark count only; it says nothing about the meter's rates.
