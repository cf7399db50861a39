/**
 * What one GC event does to the registry, proved about the writes that
 * GcMemoryMetrics.Handle is shown to perform (GcMemory.EventWrites run by
 * GcMemory.Run): the meter gains one mark, the timer one sample, the
 * percent gauge and every pool and total gauge hold the event's figures, a
 * failed cast happens exactly when a target name is bound to another kind,
 * and nothing outside `<prefix>.<C>.` changes.
 */
module GcMemoryProperties {
  import opened Registry
  import opened GcMemory

  // ---------------------------------------------------------------------
  // Writes in general
  // ---------------------------------------------------------------------

  /** No write in ws targets n. */
  ghost predicate Untouched(ws: seq<Write>, n: string) {
    forall w :: w in ws ==> w.name != n
  }

  /** The write's cast succeeds against these metrics: its name is unbound or bound to its kind. */
  ghost predicate Compatible(metrics: map<string, Metric>, w: Write) {
    w.name in metrics ==> metrics[w.name].Kind() == w.op.Kind()
  }

  /** Writes to the same name agree on the kind of metric. */
  ghost predicate KindConsistent(ws: seq<Write>) {
    forall v, w :: v in ws && w in ws && v.name == w.name ==> v.op.Kind() == w.op.Kind()
  }

  /** A name no write targets keeps its binding, failure or not. */
  lemma {:induction false} RunFrame(metrics: map<string, Metric>, ws: seq<Write>, n: string)
    requires Untouched(ws, n)
    ensures n in Run(metrics, ws).metrics <==> n in metrics
    ensures n in metrics ==> Run(metrics, ws).metrics[n] == metrics[n]
    decreases |ws|
  {
    if ws != [] {
      assert ws[0] in ws;
      var s := Step(metrics, ws[0]);
      if s.ok {
        assert forall w :: w in ws[1..] ==> w in ws;
        RunFrame(s.metrics, ws[1..], n);
      }
    }
  }

  /** No name is ever unbound and no bound name changes kind: a failed cast never re-registers. */
  lemma {:induction false} RunKeepsKinds(metrics: map<string, Metric>, ws: seq<Write>)
    ensures metrics.Keys <= Run(metrics, ws).metrics.Keys
    ensures forall n :: n in metrics ==> Run(metrics, ws).metrics[n].Kind() == metrics[n].Kind()
    decreases |ws|
  {
    if ws != [] {
      var s := Step(metrics, ws[0]);
      if s.ok {
        RunKeepsKinds(s.metrics, ws[1..]);
      }
    }
  }

  /** After a complete run every target name is bound to a metric of its write's kind. */
  lemma {:induction false} RunBindsAll(metrics: map<string, Metric>, ws: seq<Write>)
    requires Run(metrics, ws).ok
    ensures forall w :: w in ws ==>
              w.name in Run(metrics, ws).metrics && Run(metrics, ws).metrics[w.name].Kind() == w.op.Kind()
    decreases |ws|
  {
    if ws != [] {
      var s := Step(metrics, ws[0]);
      RunBindsAll(s.metrics, ws[1..]);
      RunKeepsKinds(s.metrics, ws[1..]);
      forall w | w in ws
        ensures w.name in Run(metrics, ws).metrics && Run(metrics, ws).metrics[w.name].Kind() == w.op.Kind()
      {
        if w != ws[0] {
          assert w in ws[1..];
        }
      }
    }
  }

  /** When writes to one name agree on the kind, a run fails exactly when some cast fails against the initial metrics. */
  lemma {:induction false} RunOkIff(metrics: map<string, Metric>, ws: seq<Write>)
    requires KindConsistent(ws)
    ensures Run(metrics, ws).ok <==> forall w :: w in ws ==> Compatible(metrics, w)
    decreases |ws|
  {
    if ws != [] {
      assert ws[0] in ws;
      var s := Step(metrics, ws[0]);
      if s.ok {
        assert forall w :: w in ws[1..] ==> w in ws;
        RunOkIff(s.metrics, ws[1..]);
        forall w | w in ws[1..]
          ensures Compatible(s.metrics, w) <==> Compatible(metrics, w)
        {
          if w.name == ws[0].name {
            assert w.op.Kind() == ws[0].op.Kind();
          }
        }
        assert ws == [ws[0]] + ws[1..];
      }
    }
  }

  /** A run that fails in its first part does not go on. */
  lemma RunPrefixOk(metrics: map<string, Metric>, a: seq<Write>, b: seq<Write>)
    requires Run(metrics, a + b).ok
    ensures Run(metrics, a).ok
  {
    RunAppend(metrics, a, b);
  }

  /** A gauge keeps the value of the last write that sets it. */
  lemma RunLastSet(metrics: map<string, Metric>, a: seq<Write>, w: Write, b: seq<Write>)
    requires w.op.SetLong? || w.op.SetDouble?
    requires Untouched(b, w.name)
    requires Run(metrics, a + [w]).ok
    ensures w.name in Run(metrics, a + [w] + b).metrics
    ensures Run(metrics, a + [w] + b).metrics[w.name] == Apply(Fresh(w.op.Kind()), w.op)
  {
    RunAppend(metrics, a + [w], b);
    RunAppend(metrics, a, [w]);
    RunCons(Run(metrics, a).metrics, w, []);
    RunFrame(Run(metrics, a + [w]).metrics, b, w.name);
  }

  /** RunLastSet for a run that completes, with its writes given as one sequence. */
  lemma RunSetsAt(metrics: map<string, Metric>, ws: seq<Write>, a: seq<Write>, w: Write, b: seq<Write>)
    requires ws == a + [w] + b
    requires w.op.SetLong? || w.op.SetDouble?
    requires Untouched(b, w.name)
    requires Run(metrics, ws).ok
    ensures w.name in Run(metrics, ws).metrics
    ensures Run(metrics, ws).metrics[w.name] == Apply(Fresh(w.op.Kind()), w.op)
  {
    RunPrefixOk(metrics, a + [w], b);
    RunLastSet(metrics, a, w, b);
  }

  /** The first write to a name that no later write targets leaves its update on the metric it found. */
  lemma RunFirstWrite(metrics: map<string, Metric>, w: Write, b: seq<Write>)
    requires Untouched(b, w.name)
    requires Compatible(metrics, w)
    ensures w.name in Run(metrics, [w] + b).metrics
    ensures Run(metrics, [w] + b).metrics[w.name] == Apply(Current(metrics, w.name, w.op.Kind()), w.op)
  {
    RunCons(metrics, w, b);
    RunFrame(Step(metrics, w).metrics, b, w.name);
  }

  /** A complete run through x + g + y leaves a name y does not target as g left it. */
  lemma RunThrough(metrics: map<string, Metric>, x: seq<Write>, g: seq<Write>, y: seq<Write>, n: string)
    requires Untouched(y, n)
    requires Run(metrics, x + g + y).ok
    ensures Run(metrics, x).ok
    ensures Run(Run(metrics, x).metrics, g).ok
    ensures n in Run(metrics, x + g + y).metrics <==> n in Run(Run(metrics, x).metrics, g).metrics
    ensures n in Run(metrics, x + g + y).metrics ==>
              Run(metrics, x + g + y).metrics[n] == Run(Run(metrics, x).metrics, g).metrics[n]
  {
    RunAppend(metrics, x + g, y);
    RunAppend(metrics, x, g);
    RunFrame(Run(metrics, x + g).metrics, y, n);
  }

  // ---------------------------------------------------------------------
  // Names
  // ---------------------------------------------------------------------

  /** `<prefix>.<C>`: what every name of one collector starts with. */
  function Base(prefix: string, gcName: string): string {
    prefix + "." + Normalize(gcName)
  }

  /** The two time parts the source uses. */
  predicate IsTimePart(t: string) {
    t == "before" || t == "after"
  }

  /** The usage map of the event that a time part names. */
  function PoolsAt(e: Event, t: string): seq<Pool> {
    if t == "before" then e.before else e.after
  }

  /** No two pools of the map normalise to the same name segment. */
  ghost predicate DistinctSegments(pools: seq<Pool>) {
    forall i, j :: 0 <= i < |pools| && 0 <= j < |pools| && i != j ==>
      Normalize(pools[i].name) != Normalize(pools[j].name)
  }

  lemma NormalizeFixed(s: string)
    requires Clean(s)
    ensures Normalize(s) == s
  {
    assert forall i :: 0 <= i < |s| ==> Normalize(s)[i] == s[i];
  }

  /** Normalising twice is normalising once. */
  lemma NormalizeIdempotent(s: string)
    ensures Normalize(Normalize(s)) == Normalize(s)
  {
    NormalizeFixed(Normalize(s));
  }

  /** A name with one more part is the name with the prefix extended by that part. */
  lemma NameCons(prefix: string, x: string, rest: seq<string>)
    ensures Name(prefix, [x] + rest) == Name(prefix + "." + Normalize(x), rest)
  {
    var nr := seq(|rest|, i requires 0 <= i < |rest| => Normalize(rest[i]));
    var parts := [x] + rest;
    var np := seq(|parts|, i requires 0 <= i < |parts| => Normalize(parts[i]));
    assert np == [Normalize(x)] + nr;
    var segments := [prefix] + np;
    assert segments[1..] == [Normalize(x)] + nr;
    assert Name(prefix, parts) == Join(segments);
    assert Join(segments) == prefix + "." + Join([Normalize(x)] + nr);
    var longer := [prefix + "." + Normalize(x)] + nr;
    assert Name(prefix + "." + Normalize(x), rest) == Join(longer);
    if nr != [] {
      assert ([Normalize(x)] + nr)[1..] == nr;
      assert longer[1..] == nr;
    }
  }

  lemma NameOfTwo(prefix: string, a: string, b: string)
    ensures Name(prefix, [a, b]) == prefix + "." + Normalize(a) + "." + Normalize(b)
  {
    assert [a, b] == [a] + [b];
    NameCons(prefix, a, [b]);
    assert [b] == [b] + [];
    NameCons(prefix + "." + Normalize(a), b, []);
  }

  lemma NameOfFour(prefix: string, a: string, b: string, c: string, d: string)
    ensures Name(prefix, [a, b, c, d]) ==
            prefix + "." + Normalize(a) + "." + Normalize(b) + "." + Normalize(c) + "." + Normalize(d)
  {
    assert [a, b, c, d] == [a] + [b, c, d];
    NameCons(prefix, a, [b, c, d]);
    var p1 := prefix + "." + Normalize(a);
    assert [b, c, d] == [b] + [c, d];
    NameCons(p1, b, [c, d]);
    NameOfTwo(p1 + "." + Normalize(b), c, d);
  }

  lemma NameOfFive(prefix: string, a: string, b: string, c: string, d: string, f: string)
    ensures Name(prefix, [a, b, c, d, f]) ==
            prefix + "." + Normalize(a) + "." + Normalize(b) + "." + Normalize(c) + "." + Normalize(d) + "." + Normalize(f)
  {
    assert [a, b, c, d, f] == [a] + [b, c, d, f];
    NameCons(prefix, a, [b, c, d, f]);
    NameOfFour(prefix + "." + Normalize(a), b, c, d, f);
  }

  /** The fixed parts of the names are already normalised. */
  lemma LeadLiteralsNormal()
    ensures Normalize("rate") == "rate" && Normalize("timer") == "timer"
    ensures Normalize("pct-time-in-gc") == "pct-time-in-gc"
  {
    assert Clean("rate") && Clean("timer") && Clean("pct-time-in-gc");
    NormalizeFixed("rate");
    NormalizeFixed("timer");
    NormalizeFixed("pct-time-in-gc");
  }

  lemma GaugeLiteralsNormal(t: string, f: Field)
    requires IsTimePart(t)
    ensures Normalize(t) == t && Normalize(f.Label()) == f.Label()
    ensures Normalize("pools") == "pools" && Normalize("total") == "total"
  {
    assert Clean(t) && Clean(f.Label()) && Clean("pools") && Clean("total");
    NormalizeFixed(t);
    NormalizeFixed(f.Label());
    NormalizeFixed("pools");
    NormalizeFixed("total");
  }

  lemma LeadNames(prefix: string, gcName: string, durationMs: Long, newTotalMs: int, endTimeMs: Long)
    ensures RateWrite(prefix, gcName).name == Base(prefix, gcName) + "." + "rate"
    ensures TimerWrite(prefix, gcName, durationMs).name == Base(prefix, gcName) + "." + "timer"
    ensures PercentWrite(prefix, gcName, newTotalMs, endTimeMs).name == Base(prefix, gcName) + "." + "pct-time-in-gc"
  {
    LeadLiteralsNormal();
    NameOfTwo(prefix, gcName, "rate");
    NameOfTwo(prefix, gcName, "timer");
    NameOfTwo(prefix, gcName, "pct-time-in-gc");
  }

  lemma PoolName(prefix: string, gcName: string, t: string, pool: Pool, f: Field)
    requires IsTimePart(t)
    ensures PoolWrite(prefix, gcName, t, pool, f).name ==
            Base(prefix, gcName) + "." + t + "." + "pools" + "." + Normalize(pool.name) + "." + f.Label()
  {
    GaugeLiteralsNormal(t, f);
    NameOfFive(prefix, gcName, t, "pools", pool.name, f.Label());
  }

  lemma TotalName(prefix: string, gcName: string, t: string, pools: seq<Pool>, f: Field)
    requires IsTimePart(t)
    ensures TotalWrite(prefix, gcName, t, pools, f).name == Base(prefix, gcName) + "." + t + "." + "total" + "." + f.Label()
  {
    GaugeLiteralsNormal(t, f);
    NameOfFour(prefix, gcName, t, "total", f.Label());
  }

  /** The segment and the figure of a pool gauge name are recovered from it. */
  lemma PoolNameParts(prefix: string, gcName: string, t: string, p: Pool, f: Field)
    requires IsTimePart(t)
    ensures var n := PoolWrite(prefix, gcName, t, p, f).name;
            var head := Base(prefix, gcName) + "." + t + "." + "pools" + ".";
            |n| == |head| + |Normalize(p.name)| + 1 + |f.Label()| &&
            n[..|head|] == head &&
            n[|head|..|head| + |Normalize(p.name)|] == Normalize(p.name) &&
            n[|n| - 1] == f.Label()[|f.Label()| - 1]
  {
    PoolName(prefix, gcName, t, p, f);
  }

  /** Pool gauge names tell the pool's segment and the figure apart. */
  lemma PoolNamesDiffer(prefix: string, gcName: string, t: string, p: Pool, f: Field, q: Pool, g: Field)
    requires IsTimePart(t)
    requires Normalize(p.name) != Normalize(q.name) || f != g
    ensures PoolWrite(prefix, gcName, t, p, f).name != PoolWrite(prefix, gcName, t, q, g).name
  {
    PoolNameParts(prefix, gcName, t, p, f);
    PoolNameParts(prefix, gcName, t, q, g);
    var n1 := PoolWrite(prefix, gcName, t, p, f).name;
    var n2 := PoolWrite(prefix, gcName, t, q, g).name;
    var h := |Base(prefix, gcName) + "." + t + "." + "pools" + "."|;
    var a, b := Normalize(p.name), Normalize(q.name);
    if f != g {
      assert n1[|n1| - 1] != n2[|n2| - 1];
    } else if |a| != |b| {
      assert |n1| != |n2|;
    } else {
      assert n1[h..h + |a|] != n2[h..h + |b|];
    }
  }

  lemma TotalNamesDiffer(prefix: string, gcName: string, t: string, pools: seq<Pool>, f: Field, g: Field)
    requires IsTimePart(t) && f != g
    ensures TotalWrite(prefix, gcName, t, pools, f).name != TotalWrite(prefix, gcName, t, pools, g).name
  {
    TotalName(prefix, gcName, t, pools, f);
    TotalName(prefix, gcName, t, pools, g);
    var n1 := TotalWrite(prefix, gcName, t, pools, f).name;
    var n2 := TotalWrite(prefix, gcName, t, pools, g).name;
    assert n1[|n1| - 1] == f.Label()[|f.Label()| - 1];
    assert n2[|n2| - 1] == g.Label()[|g.Label()| - 1];
  }

  /** A string begins with whatever it is built on. */
  lemma Extends(h: string, a: string, b: string, c: string, d: string, f: string)
    ensures h <= h + a + b + c + d + f
  {
  }

  /** A pool gauge is named `<prefix>.<C>.<t>.…` and sets a long. */
  lemma PoolUnder(prefix: string, gcName: string, t: string, p: Pool, f: Field)
    requires IsTimePart(t)
    ensures PoolWrite(prefix, gcName, t, p, f).op.SetLong?
    ensures (Base(prefix, gcName) + "." + t + ".") <= PoolWrite(prefix, gcName, t, p, f).name
  {
    PoolName(prefix, gcName, t, p, f);
    Extends(Base(prefix, gcName) + "." + t + ".", "pools", ".", Normalize(p.name), ".", f.Label());
  }

  /** Every pool gauge of one time part is named `<prefix>.<C>.<t>.…` and sets a long. */
  lemma {:induction false} PoolWritesUnder(prefix: string, gcName: string, t: string, pools: seq<Pool>)
    requires IsTimePart(t)
    ensures forall w :: w in PoolWrites(prefix, gcName, t, pools) ==>
              w.op.SetLong? && (Base(prefix, gcName) + "." + t + ".") <= w.name
    decreases |pools|
  {
    if pools != [] {
      var last := pools[|pools| - 1];
      PoolWritesUnder(prefix, gcName, t, pools[..|pools| - 1]);
      PoolUnder(prefix, gcName, t, last, MaxField);
      PoolUnder(prefix, gcName, t, last, UsedField);
      PoolUnder(prefix, gcName, t, last, FreeField);
    }
  }

  lemma TotalWritesUnder(prefix: string, gcName: string, t: string, pools: seq<Pool>)
    requires IsTimePart(t)
    ensures forall w :: w in TotalWrites(prefix, gcName, t, pools) ==>
              w.op.SetLong? && (Base(prefix, gcName) + "." + t + ".") <= w.name
  {
    TotalName(prefix, gcName, t, pools, MaxField);
    TotalName(prefix, gcName, t, pools, UsedField);
    TotalName(prefix, gcName, t, pools, FreeField);
  }

  /** A pool gauge name is not targeted by the gauges of pools with other segments. */
  lemma {:induction false} PoolWritesAvoid(prefix: string, gcName: string, t: string, pools: seq<Pool>, p: Pool, f: Field)
    requires IsTimePart(t)
    requires forall k :: 0 <= k < |pools| ==> Normalize(pools[k].name) != Normalize(p.name)
    ensures Untouched(PoolWrites(prefix, gcName, t, pools), PoolWrite(prefix, gcName, t, p, f).name)
    decreases |pools|
  {
    if pools != [] {
      var last := pools[|pools| - 1];
      PoolWritesAvoid(prefix, gcName, t, pools[..|pools| - 1], p, f);
      PoolNamesDiffer(prefix, gcName, t, last, MaxField, p, f);
      PoolNamesDiffer(prefix, gcName, t, last, UsedField, p, f);
      PoolNamesDiffer(prefix, gcName, t, last, FreeField, p, f);
    }
  }

  /** Names that share a beginning h and differ at position k of what follows it differ. */
  lemma DifferAfter(h: string, x: string, y: string, n1: string, n2: string, k: nat)
    requires (h + x) <= n1 && (h + y) <= n2
    requires k < |x| && k < |y| && x[k] != y[k]
    ensures n1 != n2
  {
    assert n1[|h| + k] == (h + x)[|h| + k];
    assert n2[|h| + k] == (h + y)[|h| + k];
  }

  /** The character right after `<base>.`: it tells the sections of one collector's names apart. */
  function Tag(base: string, n: string): char {
    if |n| > |base| + 1 then n[|base| + 1] else ' '
  }

  lemma LeadTag(b: string, x: string, n: string)
    requires n == b + "." + x && |x| > 0
    ensures Tag(b, n) == x[0] && (b + ".") <= n
  {
  }

  lemma GaugeTag(b: string, t: string, x: string, n: string)
    requires (b + "." + t + x) <= n && |t| > 0
    ensures Tag(b, n) == t[0] && (b + ".") <= n
  {
    assert n[|b| + 1] == (b + "." + t + x)[|b| + 1];
    assert n[|b|] == (b + "." + t + x)[|b|];
  }

  /** Every gauge of one time part sets a long, lies under `<prefix>.<C>.` and is tagged by the time part. */
  lemma GaugeTags(prefix: string, gcName: string, t: string, pools: seq<Pool>)
    requires IsTimePart(t)
    ensures forall w :: w in GaugeWrites(prefix, gcName, t, pools) ==>
              && w.op.SetLong?
              && Tag(Base(prefix, gcName), w.name) == t[0]
              && (Base(prefix, gcName) + ".") <= w.name
  {
    var b := Base(prefix, gcName);
    PoolWritesUnder(prefix, gcName, t, pools);
    TotalWritesUnder(prefix, gcName, t, pools);
    forall w | w in GaugeWrites(prefix, gcName, t, pools)
      ensures Tag(b, w.name) == t[0] && (b + ".") <= w.name
    {
      GaugeTag(b, t, ".", w.name);
    }
  }

  /** A pool gauge is not a total gauge. */
  lemma PoolsAreNotTotals(prefix: string, gcName: string, t: string, pools: seq<Pool>, p: Pool, f: Field)
    requires IsTimePart(t)
    ensures Untouched(TotalWrites(prefix, gcName, t, pools), PoolWrite(prefix, gcName, t, p, f).name)
  {
    PoolName(prefix, gcName, t, p, f);
    TotalName(prefix, gcName, t, pools, MaxField);
    TotalName(prefix, gcName, t, pools, UsedField);
    TotalName(prefix, gcName, t, pools, FreeField);
    var h := Base(prefix, gcName) + "." + t + ".";
    forall w | w in TotalWrites(prefix, gcName, t, pools)
      ensures w.name != PoolWrite(prefix, gcName, t, p, f).name
    {
      DifferAfter(h, "total", "pools", w.name, PoolWrite(prefix, gcName, t, p, f).name, 0);
    }
  }

  /** The writes of one pool's three gauges, one per figure. */
  lemma PoolWritesSplit(prefix: string, gcName: string, t: string, pools: seq<Pool>, j: nat)
    requires j < |pools|
    ensures PoolWrites(prefix, gcName, t, pools) ==
            PoolWrites(prefix, gcName, t, pools[..j]) + EntryWrites(prefix, gcName, t, pools[j])
            + PoolWrites(prefix, gcName, t, pools[j + 1..])
  {
    assert pools == pools[..j + 1] + pools[j + 1..];
    PoolWritesAppend(prefix, gcName, t, pools[..j + 1], pools[j + 1..]);
    assert pools[..j + 1][..j] == pools[..j];
  }

  /** Inside a complete run, the gauge of one pool's figure keeps the value set for it if nothing later sets that name. */
  lemma EntrySetsField(metrics: map<string, Metric>, x: seq<Write>, prefix: string, gcName: string, t: string, p: Pool, f: Field, y: seq<Write>)
    requires IsTimePart(t)
    requires Untouched(y, PoolWrite(prefix, gcName, t, p, f).name)
    requires Run(metrics, x + EntryWrites(prefix, gcName, t, p) + y).ok
    ensures PoolWrite(prefix, gcName, t, p, f).name in Run(metrics, x + EntryWrites(prefix, gcName, t, p) + y).metrics
    ensures Run(metrics, x + EntryWrites(prefix, gcName, t, p) + y).metrics[PoolWrite(prefix, gcName, t, p, f).name]
            == LongGauge(f.Of(p.usage))
  {
    var entry := EntryWrites(prefix, gcName, t, p);
    var w := PoolWrite(prefix, gcName, t, p, f);
    match f
    case MaxField =>
      PoolNamesDiffer(prefix, gcName, t, p, UsedField, p, f);
      PoolNamesDiffer(prefix, gcName, t, p, FreeField, p, f);
      RunSetsAt(metrics, x + entry + y, x, w, entry[1..] + y);
    case UsedField =>
      PoolNamesDiffer(prefix, gcName, t, p, FreeField, p, f);
      RunSetsAt(metrics, x + entry + y, x + entry[..1], w, entry[2..] + y);
    case FreeField =>
      RunSetsAt(metrics, x + entry + y, x + entry[..2], w, y);
  }

  /** After a complete run of one usage map's gauges, each pool gauge holds that pool's figure. */
  lemma GaugesSetPool(metrics: map<string, Metric>, prefix: string, gcName: string, t: string, pools: seq<Pool>, j: nat, f: Field)
    requires IsTimePart(t) && j < |pools| && DistinctSegments(pools)
    requires Run(metrics, GaugeWrites(prefix, gcName, t, pools)).ok
    ensures PoolWrite(prefix, gcName, t, pools[j], f).name in Run(metrics, GaugeWrites(prefix, gcName, t, pools)).metrics
    ensures Run(metrics, GaugeWrites(prefix, gcName, t, pools)).metrics[PoolWrite(prefix, gcName, t, pools[j], f).name]
            == LongGauge(f.Of(pools[j].usage))
  {
    var earlier := PoolWrites(prefix, gcName, t, pools[..j]);
    var entry := EntryWrites(prefix, gcName, t, pools[j]);
    var rest := pools[j + 1..];
    var y := PoolWrites(prefix, gcName, t, rest) + TotalWrites(prefix, gcName, t, pools);
    PoolWritesSplit(prefix, gcName, t, pools, j);
    assert GaugeWrites(prefix, gcName, t, pools) == earlier + entry + y;
    forall k | 0 <= k < |rest|
      ensures Normalize(rest[k].name) != Normalize(pools[j].name)
    {
      assert rest[k] == pools[j + 1 + k];
    }
    PoolWritesAvoid(prefix, gcName, t, rest, pools[j], f);
    PoolsAreNotTotals(prefix, gcName, t, pools, pools[j], f);
    EntrySetsField(metrics, earlier, prefix, gcName, t, pools[j], f, y);
  }

  /** After a complete run of one usage map's gauges, each total gauge holds the sum over the pools. */
  lemma GaugesSetTotal(metrics: map<string, Metric>, prefix: string, gcName: string, t: string, pools: seq<Pool>, f: Field)
    requires IsTimePart(t)
    requires Run(metrics, GaugeWrites(prefix, gcName, t, pools)).ok
    ensures TotalWrite(prefix, gcName, t, pools, f).name in Run(metrics, GaugeWrites(prefix, gcName, t, pools)).metrics
    ensures Run(metrics, GaugeWrites(prefix, gcName, t, pools)).metrics[TotalWrite(prefix, gcName, t, pools, f).name]
            == LongGauge(Sum(pools, f))
  {
    var w := TotalWrite(prefix, gcName, t, pools, f);
    var pw := PoolWrites(prefix, gcName, t, pools);
    var tw := TotalWrites(prefix, gcName, t, pools);
    match f
    case MaxField =>
      TotalNamesDiffer(prefix, gcName, t, pools, UsedField, f);
      TotalNamesDiffer(prefix, gcName, t, pools, FreeField, f);
      RunSetsAt(metrics, pw + tw, pw, w, tw[1..]);
    case UsedField =>
      TotalNamesDiffer(prefix, gcName, t, pools, FreeField, f);
      RunSetsAt(metrics, pw + tw, pw + tw[..1], w, tw[2..]);
    case FreeField =>
      RunSetsAt(metrics, pw + tw, pw + tw[..2], w, []);
  }

  // ---------------------------------------------------------------------
  // One event
  // ---------------------------------------------------------------------

  /** The gauges of both time parts. */
  function Gauges(prefix: string, e: Event): seq<Write> {
    GaugeWrites(prefix, e.gcName, "before", e.before) + GaugeWrites(prefix, e.gcName, "after", e.after)
  }

  /** The writes of one event, grouped the two ways the proofs below take them apart. */
  lemma EventLayout(prefix: string, e: Event, oldTotalMs: int)
    ensures var rate := RateWrite(prefix, e.gcName);
            var timer := TimerWrite(prefix, e.gcName, e.durationMs);
            var percent := PercentWrite(prefix, e.gcName, oldTotalMs + e.durationMs, e.endTimeMs);
            && EventWrites(prefix, e, oldTotalMs) == [rate] + ([timer] + ([percent] + Gauges(prefix, e)))
            && EventWrites(prefix, e, oldTotalMs) == [rate, timer] + [percent] + Gauges(prefix, e)
  {
  }

  /**
   * The shape of an event's writes as far as names go: the meter, timer and
   * percent names are tagged 'r', 't' and 'p', and every gauge sets a long
   * under a name tagged 'b' or 'a'.
   */
  ghost predicate Laid(b: string, rate: Write, timer: Write, percent: Write, gauges: seq<Write>) {
    && Tag(b, rate.name) == 'r'
    && Tag(b, timer.name) == 't'
    && Tag(b, percent.name) == 'p'
    && forall w :: w in gauges ==> w.op.SetLong? && (Tag(b, w.name) == 'b' || Tag(b, w.name) == 'a')
  }

  /** Every name of the event lies under `<prefix>.<C>.`, with the shape Laid describes. */
  lemma EventTags(prefix: string, e: Event, oldTotalMs: int)
    ensures var b := Base(prefix, e.gcName);
            && Laid(b, RateWrite(prefix, e.gcName), TimerWrite(prefix, e.gcName, e.durationMs),
                    PercentWrite(prefix, e.gcName, oldTotalMs + e.durationMs, e.endTimeMs), Gauges(prefix, e))
            && (b + ".") <= RateWrite(prefix, e.gcName).name
            && (b + ".") <= TimerWrite(prefix, e.gcName, e.durationMs).name
            && (b + ".") <= PercentWrite(prefix, e.gcName, oldTotalMs + e.durationMs, e.endTimeMs).name
            && forall w :: w in Gauges(prefix, e) ==> (b + ".") <= w.name
  {
    var b := Base(prefix, e.gcName);
    LeadNames(prefix, e.gcName, e.durationMs, oldTotalMs + e.durationMs, e.endTimeMs);
    LeadTag(b, "rate", RateWrite(prefix, e.gcName).name);
    LeadTag(b, "timer", TimerWrite(prefix, e.gcName, e.durationMs).name);
    LeadTag(b, "pct-time-in-gc", PercentWrite(prefix, e.gcName, oldTotalMs + e.durationMs, e.endTimeMs).name);
    GaugeTags(prefix, e.gcName, "before", e.before);
    GaugeTags(prefix, e.gcName, "after", e.after);
  }

  /**
   * An event's writes in the grouping the meter and timer proofs take apart:
   * the meter and timer names are not written again later in the event.
   */
  lemma EventLaid(prefix: string, e: Event, oldTotalMs: int)
    ensures var rate := RateWrite(prefix, e.gcName);
            var timer := TimerWrite(prefix, e.gcName, e.durationMs);
            var rest := [PercentWrite(prefix, e.gcName, oldTotalMs + e.durationMs, e.endTimeMs)] + Gauges(prefix, e);
            && EventWrites(prefix, e, oldTotalMs) == [rate] + ([timer] + rest)
            && Untouched([timer] + rest, rate.name)
            && Untouched(rest, timer.name)
  {
    EventLayout(prefix, e, oldTotalMs);
    EventTags(prefix, e, oldTotalMs);
    LaidUntouched(Base(prefix, e.gcName), RateWrite(prefix, e.gcName), TimerWrite(prefix, e.gcName, e.durationMs),
                  PercentWrite(prefix, e.gcName, oldTotalMs + e.durationMs, e.endTimeMs), Gauges(prefix, e));
  }

  /** In a laid-out event no name is written twice with two kinds. */
  lemma LaidConsistent(b: string, rate: Write, timer: Write, percent: Write, gauges: seq<Write>)
    requires Laid(b, rate, timer, percent, gauges)
    ensures KindConsistent([rate, timer] + [percent] + gauges)
  {
  }

  /** In a laid-out event the meter, timer and percent names are not written again later. */
  lemma LaidUntouched(b: string, rate: Write, timer: Write, percent: Write, gauges: seq<Write>)
    requires Laid(b, rate, timer, percent, gauges)
    ensures Untouched([timer] + ([percent] + gauges), rate.name)
    ensures Untouched([percent] + gauges, timer.name)
    ensures Untouched(gauges, percent.name)
  {
  }

  lemma EventKindConsistent(prefix: string, e: Event, oldTotalMs: int)
    ensures KindConsistent(EventWrites(prefix, e, oldTotalMs))
  {
    EventLayout(prefix, e, oldTotalMs);
    EventTags(prefix, e, oldTotalMs);
    LaidConsistent(Base(prefix, e.gcName), RateWrite(prefix, e.gcName), TimerWrite(prefix, e.gcName, e.durationMs),
                   PercentWrite(prefix, e.gcName, oldTotalMs + e.durationMs, e.endTimeMs), Gauges(prefix, e));
  }

  /**
   * The event completes exactly when every name it writes is unbound or
   * already of the kind it writes; otherwise the first clash ends it.
   */
  lemma HandleOkIff(metrics: map<string, Metric>, prefix: string, e: Event, oldTotalMs: int)
    ensures Run(metrics, EventWrites(prefix, e, oldTotalMs)).ok <==>
            forall w :: w in EventWrites(prefix, e, oldTotalMs) ==> Compatible(metrics, w)
  {
    EventKindConsistent(prefix, e, oldTotalMs);
    RunOkIff(metrics, EventWrites(prefix, e, oldTotalMs));
  }

  /** No write of an event targets a name outside `<prefix>.<C>.`. */
  lemma EventAvoids(prefix: string, e: Event, oldTotalMs: int, n: string)
    requires !((Base(prefix, e.gcName) + ".") <= n)
    ensures Untouched(EventWrites(prefix, e, oldTotalMs), n)
  {
    EventLayout(prefix, e, oldTotalMs);
    EventTags(prefix, e, oldTotalMs);
  }

  /** An event touches no registry entry outside `<prefix>.<C>.`. */
  lemma HandleFrame(metrics: map<string, Metric>, prefix: string, e: Event, oldTotalMs: int, n: string)
    requires !((Base(prefix, e.gcName) + ".") <= n)
    ensures n in Run(metrics, EventWrites(prefix, e, oldTotalMs)).metrics <==> n in metrics
    ensures n in metrics ==> Run(metrics, EventWrites(prefix, e, oldTotalMs)).metrics[n] == metrics[n]
  {
    EventAvoids(prefix, e, oldTotalMs, n);
    RunFrame(metrics, EventWrites(prefix, e, oldTotalMs), n);
  }

  /** The marks of the meter bound to n, 0 for an unbound name. */
  function MarksOf(metrics: map<string, Metric>, n: string): nat {
    if n in metrics && metrics[n].Meter? then metrics[n].marks else 0
  }

  /** The samples of the timer bound to n, none for an unbound name. */
  function SamplesOf(metrics: map<string, Metric>, n: string): seq<int> {
    if n in metrics && metrics[n].Timer? then metrics[n].samplesNs else []
  }

  lemma MarkCurrent(metrics: map<string, Metric>, n: string)
    requires n in metrics ==> metrics[n].Kind() == MeterKind
    ensures Apply(Current(metrics, n, MeterKind), Mark) == Meter(MarksOf(metrics, n) + 1)
  {
  }

  lemma RecordCurrent(metrics: map<string, Metric>, n: string, ns: int)
    requires n in metrics ==> metrics[n].Kind() == TimerKind
    ensures Apply(Current(metrics, n, TimerKind), Record(ns)) == Timer(SamplesOf(metrics, n) + [ns])
  {
  }

  /** Three writes to three names whose casts all succeed complete. */
  lemma ThreeOk(metrics: map<string, Metric>, a: Write, b: Write, c: Write)
    requires a.name != b.name && a.name != c.name && b.name != c.name
    requires Compatible(metrics, a) && Compatible(metrics, b) && Compatible(metrics, c)
    ensures Run(metrics, [a, b] + [c]).ok
  {
    RunTriple(metrics, a, b, c);
    assert [a, b] + [c] == [a, b, c];
  }

  /** A first write that marks a meter no later write touches leaves it with one more mark. */
  lemma FirstWriteMarks(metrics: map<string, Metric>, ws: seq<Write>, rate: Write, rest: seq<Write>)
    requires ws == [rate] + rest && Untouched(rest, rate.name)
    requires rate.op == Mark && Compatible(metrics, rate)
    ensures rate.name in Run(metrics, ws).metrics
    ensures Run(metrics, ws).metrics[rate.name] == Meter(MarksOf(metrics, rate.name) + 1)
  {
    RunFirstWrite(metrics, rate, rest);
    MarkCurrent(metrics, rate.name);
  }

  /** A second write that records a sample on a timer no other write touches appends that sample. */
  lemma SecondWriteRecords(metrics: map<string, Metric>, ws: seq<Write>, rate: Write, timer: Write, rest: seq<Write>)
    requires ws == [rate] + ([timer] + rest) && Untouched([timer] + rest, rate.name) && Untouched(rest, timer.name)
    requires timer.op.Record? && Compatible(metrics, rate) && Compatible(metrics, timer)
    ensures timer.name in Run(metrics, ws).metrics
    ensures Run(metrics, ws).metrics[timer.name] == Timer(SamplesOf(metrics, timer.name) + [timer.op.ns])
  {
    RunCons(metrics, rate, [timer] + rest);
    var m1 := Step(metrics, rate).metrics;
    assert rate.name != timer.name;
    RunFirstWrite(m1, timer, rest);
    RecordCurrent(m1, timer.name, timer.op.ns);
    assert SamplesOf(m1, timer.name) == SamplesOf(metrics, timer.name);
  }

  /** In a laid-out event the percent gauge holds its fraction once the first three casts succeed. */
  lemma LaidSetsPercent(metrics: map<string, Metric>, b: string, rate: Write, timer: Write, percent: Write, gauges: seq<Write>)
    requires Laid(b, rate, timer, percent, gauges) && percent.op.SetDouble?
    requires Compatible(metrics, rate) && Compatible(metrics, timer) && Compatible(metrics, percent)
    ensures percent.name in Run(metrics, [rate, timer] + [percent] + gauges).metrics
    ensures Run(metrics, [rate, timer] + [percent] + gauges).metrics[percent.name]
            == DoubleGauge(percent.op.num, percent.op.den)
  {
    LaidUntouched(b, rate, timer, percent, gauges);
    ThreeOk(metrics, rate, timer, percent);
    RunLastSet(metrics, [rate, timer], percent, gauges);
  }

  /** Whatever happens later in the event, the meter gains one mark once its cast succeeds. */
  lemma HandleMarksMeter(metrics: map<string, Metric>, prefix: string, e: Event, oldTotalMs: int)
    requires Compatible(metrics, RateWrite(prefix, e.gcName))
    ensures RateWrite(prefix, e.gcName).name in Run(metrics, EventWrites(prefix, e, oldTotalMs)).metrics
    ensures Run(metrics, EventWrites(prefix, e, oldTotalMs)).metrics[RateWrite(prefix, e.gcName).name]
            == Meter(MarksOf(metrics, RateWrite(prefix, e.gcName).name) + 1)
  {
    EventLaid(prefix, e, oldTotalMs);
    FirstWriteMarks(metrics, EventWrites(prefix, e, oldTotalMs), RateWrite(prefix, e.gcName),
                    [TimerWrite(prefix, e.gcName, e.durationMs)]
                    + ([PercentWrite(prefix, e.gcName, oldTotalMs + e.durationMs, e.endTimeMs)] + Gauges(prefix, e)));
  }

  /** Once the meter and timer casts succeed, the timer gains one sample: the duration in nanoseconds. */
  lemma HandleRecordsDuration(metrics: map<string, Metric>, prefix: string, e: Event, oldTotalMs: int)
    requires Compatible(metrics, RateWrite(prefix, e.gcName))
    requires Compatible(metrics, TimerWrite(prefix, e.gcName, e.durationMs))
    ensures TimerWrite(prefix, e.gcName, e.durationMs).name in Run(metrics, EventWrites(prefix, e, oldTotalMs)).metrics
    ensures Run(metrics, EventWrites(prefix, e, oldTotalMs)).metrics[TimerWrite(prefix, e.gcName, e.durationMs).name]
            == Timer(SamplesOf(metrics, TimerWrite(prefix, e.gcName, e.durationMs).name) + [e.durationMs * 1_000_000])
  {
    EventLaid(prefix, e, oldTotalMs);
    SecondWriteRecords(metrics, EventWrites(prefix, e, oldTotalMs), RateWrite(prefix, e.gcName),
                       TimerWrite(prefix, e.gcName, e.durationMs),
                       [PercentWrite(prefix, e.gcName, oldTotalMs + e.durationMs, e.endTimeMs)] + Gauges(prefix, e));
  }

  /** Once the first three casts succeed, the percent gauge holds 100 * (old total + duration) / end time. */
  lemma HandleSetsPercent(metrics: map<string, Metric>, prefix: string, e: Event, oldTotalMs: int)
    requires Compatible(metrics, RateWrite(prefix, e.gcName))
    requires Compatible(metrics, TimerWrite(prefix, e.gcName, e.durationMs))
    requires Compatible(metrics, PercentWrite(prefix, e.gcName, oldTotalMs + e.durationMs, e.endTimeMs))
    ensures PercentWrite(prefix, e.gcName, oldTotalMs + e.durationMs, e.endTimeMs).name
            in Run(metrics, EventWrites(prefix, e, oldTotalMs)).metrics
    ensures Run(metrics, EventWrites(prefix, e, oldTotalMs)).metrics[PercentWrite(prefix, e.gcName, oldTotalMs + e.durationMs, e.endTimeMs).name]
            == DoubleGauge(100 * (oldTotalMs + e.durationMs), e.endTimeMs)
  {
    EventLayout(prefix, e, oldTotalMs);
    EventTags(prefix, e, oldTotalMs);
    LaidSetsPercent(metrics, Base(prefix, e.gcName), RateWrite(prefix, e.gcName), TimerWrite(prefix, e.gcName, e.durationMs),
                    PercentWrite(prefix, e.gcName, oldTotalMs + e.durationMs, e.endTimeMs), Gauges(prefix, e));
  }

  /** The writes before the gauges of a time part, that time part's gauges, and the writes after them. */
  lemma GaugesLayout(prefix: string, e: Event, oldTotalMs: int)
    ensures var lead := LeadWrites(prefix, e) + [PercentWrite(prefix, e.gcName, oldTotalMs + e.durationMs, e.endTimeMs)];
            var gb := GaugeWrites(prefix, e.gcName, "before", e.before);
            var ga := GaugeWrites(prefix, e.gcName, "after", e.after);
            && EventWrites(prefix, e, oldTotalMs) == lead + gb + ga
            && EventWrites(prefix, e, oldTotalMs) == (lead + gb) + ga + []
  {
  }

  /** After a complete event, each pool gauge of either time part holds that pool's figure. */
  lemma HandleSetsPoolGauge(metrics: map<string, Metric>, prefix: string, e: Event, oldTotalMs: int, t: string, j: nat, f: Field)
    requires IsTimePart(t) && j < |PoolsAt(e, t)| && DistinctSegments(PoolsAt(e, t))
    requires Run(metrics, EventWrites(prefix, e, oldTotalMs)).ok
    ensures PoolWrite(prefix, e.gcName, t, PoolsAt(e, t)[j], f).name in Run(metrics, EventWrites(prefix, e, oldTotalMs)).metrics
    ensures Run(metrics, EventWrites(prefix, e, oldTotalMs)).metrics[PoolWrite(prefix, e.gcName, t, PoolsAt(e, t)[j], f).name]
            == LongGauge(f.Of(PoolsAt(e, t)[j].usage))
  {
    var n := PoolWrite(prefix, e.gcName, t, PoolsAt(e, t)[j], f).name;
    var lead := LeadWrites(prefix, e) + [PercentWrite(prefix, e.gcName, oldTotalMs + e.durationMs, e.endTimeMs)];
    var gb := GaugeWrites(prefix, e.gcName, "before", e.before);
    var ga := GaugeWrites(prefix, e.gcName, "after", e.after);
    GaugesLayout(prefix, e, oldTotalMs);
    if t == "before" {
      GaugeTags(prefix, e.gcName, "before", e.before);
      GaugeTags(prefix, e.gcName, "after", e.after);
      PoolWritesSplit(prefix, e.gcName, t, e.before, j);
      assert PoolWrite(prefix, e.gcName, t, PoolsAt(e, t)[j], f) in gb;
      RunThrough(metrics, lead, gb, ga, n);
      GaugesSetPool(Run(metrics, lead).metrics, prefix, e.gcName, t, e.before, j, f);
    } else {
      RunThrough(metrics, lead + gb, ga, [], n);
      GaugesSetPool(Run(metrics, lead + gb).metrics, prefix, e.gcName, t, e.after, j, f);
    }
  }

  /** After a complete event, each total gauge of either time part holds the sum over that time part's pools. */
  lemma HandleSetsTotal(metrics: map<string, Metric>, prefix: string, e: Event, oldTotalMs: int, t: string, f: Field)
    requires IsTimePart(t)
    requires Run(metrics, EventWrites(prefix, e, oldTotalMs)).ok
    ensures TotalWrite(prefix, e.gcName, t, PoolsAt(e, t), f).name in Run(metrics, EventWrites(prefix, e, oldTotalMs)).metrics
    ensures Run(metrics, EventWrites(prefix, e, oldTotalMs)).metrics[TotalWrite(prefix, e.gcName, t, PoolsAt(e, t), f).name]
            == LongGauge(Sum(PoolsAt(e, t), f))
  {
    var n := TotalWrite(prefix, e.gcName, t, PoolsAt(e, t), f).name;
    var lead := LeadWrites(prefix, e) + [PercentWrite(prefix, e.gcName, oldTotalMs + e.durationMs, e.endTimeMs)];
    var gb := GaugeWrites(prefix, e.gcName, "before", e.before);
    var ga := GaugeWrites(prefix, e.gcName, "after", e.after);
    GaugesLayout(prefix, e, oldTotalMs);
    if t == "before" {
      GaugeTags(prefix, e.gcName, "before", e.before);
      GaugeTags(prefix, e.gcName, "after", e.after);
      assert TotalWrite(prefix, e.gcName, t, PoolsAt(e, t), f) in gb;
      RunThrough(metrics, lead, gb, ga, n);
      GaugesSetTotal(Run(metrics, lead).metrics, prefix, e.gcName, t, e.before, f);
    } else {
      RunThrough(metrics, lead + gb, ga, [], n);
      GaugesSetTotal(Run(metrics, lead + gb).metrics, prefix, e.gcName, t, e.after, f);
    }
  }

  // ---------------------------------------------------------------------
  // Percent time in GC
  // ---------------------------------------------------------------------

  /**
   * The percent gauge of one event lies in [0, 100] when the end time is
   * positive and the collector's accumulated time, this event included,
   * lies between 0 and the end time. The source checks neither condition.
   */
  lemma PercentInRange(prefix: string, gcName: string, oldTotalMs: int, durationMs: Long, endTimeMs: Long)
    requires 0 < endTimeMs && 0 <= oldTotalMs + durationMs <= endTimeMs
    ensures var op := PercentWrite(prefix, gcName, oldTotalMs + durationMs, endTimeMs).op;
            op.SetDouble? && 0 < op.den && 0 <= op.num <= 100 * op.den
  {
  }

  /** The sum of the events' durations. */
  function TotalMs(events: seq<Event>): int
    decreases |events|
  {
    if events == [] then 0 else TotalMs(events[..|events| - 1]) + events[|events| - 1].durationMs
  }

  /** The end time of the last event; 0, JVM start, before any event. */
  function EndOf(events: seq<Event>): int {
    if events == [] then 0 else events[|events| - 1].endTimeMs
  }

  /**
   * The events of one collector, in order, do not overlap: all have the
   * collector's name, each has a non-negative duration and ends at least
   * that long after the previous one ended (the first, at least that long
   * after JVM start).
   */
  ghost predicate Sequential(events: seq<Event>)
    decreases |events|
  {
    events == [] ||
    (var init, e := events[..|events| - 1], events[|events| - 1];
     && Sequential(init)
     && (init == [] || init[|init| - 1].gcName == e.gcName)
     && 0 <= e.durationMs
     && EndOf(init) + e.durationMs <= e.endTimeMs)
  }

  /** Without overlap, the summed durations never exceed the last end time. */
  lemma {:induction false} TotalWithinEnd(events: seq<Event>)
    requires Sequential(events)
    ensures 0 <= TotalMs(events) <= EndOf(events)
    decreases |events|
  {
    if events != [] {
      TotalWithinEnd(events[..|events| - 1]);
    }
  }

  /**
   * One call of `Handle` on event e of a collector whose earlier events
   * prev do not overlap with each other or with e. The collector's total
   * in `totalGcTime` starts between 0 and the summed durations of prev
   * (the constructor's empty map starts it at 0 = TotalMs([])). Then the
   * percent `Handle` writes lies in [0, 100] whenever the end time is
   * positive, and the total `Handle` leaves, whether the meter and timer
   * casts succeeded (leadOk) or not, lies between 0 and the summed
   * durations of prev + [e], so the condition carries to the next event.
   */
  lemma HandlePercentStep(prefix: string, totals: map<string, int>, leadOk: bool, prev: seq<Event>, e: Event)
    requires Sequential(prev + [e])
    requires 0 <= TotalOf(totals, e.gcName) <= TotalMs(prev)
    ensures 0 < e.endTimeMs ==>
              var op := PercentWrite(prefix, e.gcName, TotalOf(totals, e.gcName) + e.durationMs, e.endTimeMs).op;
              op.SetDouble? && 0 < op.den && 0 <= op.num <= 100 * op.den
    ensures var after := if leadOk then totals[e.gcName := TotalOf(totals, e.gcName) + e.durationMs] else totals;
            0 <= TotalOf(after, e.gcName) <= TotalMs(prev + [e])
  {
    var events := prev + [e];
    assert events[..|events| - 1] == prev;
    TotalWithinEnd(prev);
    if 0 < e.endTimeMs {
      PercentInRange(prefix, e.gcName, TotalOf(totals, e.gcName), e.durationMs, e.endTimeMs);
    }
  }

  /**
   * The percent is not monotone: a 10 ms event ending at 1000 ms reports
   * 1 %, and a 0 ms event of the same collector ending at 2000 ms then
   * reports 0.5 %, though the events do not overlap. The totals are those
   * `Handle` keeps from a fresh accumulator when the first event completes.
   */
  lemma PercentCanFall(prefix: string, gcName: string)
    ensures var events := [Event(gcName, 10, 1000, [], []), Event(gcName, 0, 2000, [], [])];
            var first := PercentWrite(prefix, gcName, TotalOf(map[], gcName) + 10, 1000).op;
            var second := PercentWrite(prefix, gcName, TotalOf(map[gcName := 10], gcName) + 0, 2000).op;
            && Sequential(events)
            && first == SetDouble(1000, 1000)
            && second == SetDouble(1000, 2000)
            && second.num * first.den < first.num * second.den
  {
    var events := [Event(gcName, 10, 1000, [], []), Event(gcName, 0, 2000, [], [])];
    assert events[..1][..0] == [];
    assert Sequential(events[..1][..0]);
    assert Sequential(events[..1]);
  }

  // ---------------------------------------------------------------------
  // Totals
  // ---------------------------------------------------------------------

  /** Long values congruent, modulo 2^64, to x - (y - z) where x and y - z agree are equal. */
  lemma LongsFromCongruence(sf: Long, smx: Long, sus: Long, ef: int, emx: int, eus: int)
    requires (sf - ef) % Modulus == 0 && (smx - emx) % Modulus == 0 && (sus - eus) % Modulus == 0
    requires (ef - (emx - eus)) % Modulus == 0
    ensures sf == Wrap(smx - sus)
  {
    var w := Wrap(smx - sus);
    var k1, k2, k3, k4, k5 := (sf - ef) / Modulus, (smx - emx) / Modulus, (sus - eus) / Modulus,
                              (ef - (emx - eus)) / Modulus, (w - (smx - sus)) / Modulus;
    assert sf - w == (k1 + k4 - k2 + k3 - k5) * Modulus;
  }

  /** Over the unbounded sums, the free figures add up to the max figures minus the used figures, modulo 2^64. */
  lemma {:induction false} ExactFreeIsDifference(pools: seq<Pool>)
    ensures (ExactSum(pools, FreeField) - (ExactSum(pools, MaxField) - ExactSum(pools, UsedField))) % Modulus == 0
    decreases |pools|
  {
    if pools != [] {
      var init := pools[..|pools| - 1];
      var u := pools[|pools| - 1].usage;
      ExactFreeIsDifference(init);
      var d := ExactSum(init, FreeField) - (ExactSum(init, MaxField) - ExactSum(init, UsedField));
      var g := Free(u) - (u.max - u.used);
      assert ExactSum(pools, FreeField) - (ExactSum(pools, MaxField) - ExactSum(pools, UsedField)) == d + g;
      var kd, kg := d / Modulus, g / Modulus;
      assert d == kd * Modulus && g == kg * Modulus;
      assert d + g == (kd + kg) * Modulus;
    }
  }

  /** With every pool valid, the unbounded free total is exactly max total minus used total. */
  lemma {:induction false} ExactFreeOfValid(pools: seq<Pool>)
    requires forall k :: 0 <= k < |pools| ==> pools[k].usage.Valid()
    ensures ExactSum(pools, FreeField) == ExactSum(pools, MaxField) - ExactSum(pools, UsedField)
    decreases |pools|
  {
    if pools != [] {
      ExactFreeOfValid(pools[..|pools| - 1]);
    }
  }

  /** `total.free` is `total.max - total.used` in Java long arithmetic, whatever the pools hold. */
  lemma TotalFreeIsDifference(pools: seq<Pool>)
    ensures Sum(pools, FreeField) == Wrap(Sum(pools, MaxField) - Sum(pools, UsedField))
  {
    ExactFreeIsDifference(pools);
    LongsFromCongruence(Sum(pools, FreeField), Sum(pools, MaxField), Sum(pools, UsedField),
                        ExactSum(pools, FreeField), ExactSum(pools, MaxField), ExactSum(pools, UsedField));
  }

  /** A total that does not overflow is the plain sum. */
  lemma SumExact(pools: seq<Pool>, f: Field)
    requires -0x8000_0000_0000_0000 <= ExactSum(pools, f) < 0x8000_0000_0000_0000
    ensures Sum(pools, f) == ExactSum(pools, f)
  {
    LongCongruent(Sum(pools, f), ExactSum(pools, f));
  }

  /** A Java long congruent modulo 2^64 to a value in range is that value. */
  lemma LongCongruent(a: Long, b: int)
    requires -0x8000_0000_0000_0000 <= b < 0x8000_0000_0000_0000
    requires (a - b) % Modulus == 0
    ensures a == b
  {
    var d := a - b;
    assert d == Modulus * (d / Modulus);
  }
}
