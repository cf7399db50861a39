/**
 * The helpers that build metric sets out of other metric sets: renaming the
 * keys, taking the union, prefixing the names, and removing a set's names
 * from a registry.
 *
 * A metric set is the map its `getMetrics()` returns. The source returns
 * views that recompute the map on every call; here each operation computes
 * the map once, from the maps it is given.
 */
module MetricSets {
  import opened Registry

  type MetricSet = map<string, Metric>

  /** The names a transformer gives to the keys of s. */
  ghost function Image(s: set<string>, nameTransformer: string -> string): set<string> {
    set k | k in s :: nameTransformer(k)
  }

  /** The transformer gives distinct names to distinct keys of s. */
  ghost predicate InjectiveOn(s: set<string>, nameTransformer: string -> string) {
    forall k1, k2 :: k1 in s && k2 in s && nameTransformer(k1) == nameTransformer(k2) ==> k1 == k2
  }

  /** An injective transformer gives as many names as there are keys. */
  lemma {:induction false} InjectiveImageSize(s: set<string>, nameTransformer: string -> string)
    requires InjectiveOn(s, nameTransformer)
    ensures |Image(s, nameTransformer)| == |s|
    decreases |s|
  {
    if s != {} {
      var k :| k in s;
      var rest := s - {k};
      InjectiveImageSize(rest, nameTransformer);
      assert Image(s, nameTransformer) == Image(rest, nameTransformer) + {nameTransformer(k)};
      assert nameTransformer(k) !in Image(rest, nameTransformer);
    }
  }

  /**
   * r holds the entries of m whose keys are in done, each under its
   * transformed name: r's names are the image of done, every entry of r
   * comes from a key of done with that name, and with an injective
   * transformer every key of done has its own entry.
   */
  ghost predicate Covers(m: MetricSet, nameTransformer: string -> string, done: set<string>, r: MetricSet) {
    && r.Keys == Image(done, nameTransformer)
    && (forall j :: j in r ==> exists k :: k in done && k in m && nameTransformer(k) == j && r[j] == m[k])
    && (InjectiveOn(m.Keys, nameTransformer) ==>
          forall k :: k in done && k in m ==> nameTransformer(k) in r && r[nameTransformer(k)] == m[k])
  }

  /** Putting one more entry under its transformed name keeps Covers. */
  lemma CoversStep(m: MetricSet, nameTransformer: string -> string, done: set<string>, r: MetricSet, k: string)
    requires done <= m.Keys && k in m && k !in done
    requires Covers(m, nameTransformer, done, r)
    ensures Covers(m, nameTransformer, done + {k}, r[nameTransformer(k) := m[k]])
  {
    var r' := r[nameTransformer(k) := m[k]];
    assert Image(done + {k}, nameTransformer) == Image(done, nameTransformer) + {nameTransformer(k)};
    forall j | j in r'
      ensures exists k' :: k' in done + {k} && k' in m && nameTransformer(k') == j && r'[j] == m[k']
    {
      if j != nameTransformer(k) {
        var k' :| k' in done && k' in m && nameTransformer(k') == j && r[j] == m[k'];
        assert k' in done + {k};
      } else {
        assert k in done + {k};
      }
    }
  }

  /**
   * `transformNames`: every entry of the set put under the transformed name,
   * in the map's iteration order, which is not specified; when two keys are
   * given one name, the entry put last stays.
   */
  method TransformNames(metricSet: MetricSet, nameTransformer: string -> string) returns (result: MetricSet)
    ensures result.Keys == Image(metricSet.Keys, nameTransformer)
    ensures forall j :: j in result ==> exists k :: k in metricSet && nameTransformer(k) == j && result[j] == metricSet[k]
    ensures InjectiveOn(metricSet.Keys, nameTransformer) ==>
              forall k :: k in metricSet ==> nameTransformer(k) in result && result[nameTransformer(k)] == metricSet[k]
    ensures InjectiveOn(metricSet.Keys, nameTransformer) ==> |result| == |metricSet|
  {
    result := map[];
    var remaining := metricSet.Keys;
    while remaining != {}
      invariant remaining <= metricSet.Keys
      invariant Covers(metricSet, nameTransformer, metricSet.Keys - remaining, result)
      decreases remaining
    {
      var k :| k in remaining;
      CoversStep(metricSet, nameTransformer, metricSet.Keys - remaining, result, k);
      assert metricSet.Keys - (remaining - {k}) == (metricSet.Keys - remaining) + {k};
      result := result[nameTransformer(k) := metricSet[k]];
      remaining := remaining - {k};
    }
    assert metricSet.Keys - remaining == metricSet.Keys;
    if InjectiveOn(metricSet.Keys, nameTransformer) {
      InjectiveImageSize(metricSet.Keys, nameTransformer);
    }
  }

  /** The sets put one after the other into one map: a later set's entry replaces an earlier one's. */
  function Union(sets: seq<MetricSet>): MetricSet
    decreases |sets|
  {
    if sets == [] then map[] else Union(sets[..|sets| - 1]) + sets[|sets| - 1]
  }

  /** A name is bound in the union exactly when some set binds it; no set, no names. */
  lemma {:induction false} UnionKeys(sets: seq<MetricSet>, n: string)
    ensures n in Union(sets) <==> exists i :: 0 <= i < |sets| && n in sets[i]
    decreases |sets|
  {
    if sets != [] {
      var init := sets[..|sets| - 1];
      UnionKeys(init, n);
      if n in Union(init) {
        var i :| 0 <= i < |init| && n in init[i];
        assert n in sets[i];
      }
      if exists i :: 0 <= i < |sets| && n in sets[i] {
        var i :| 0 <= i < |sets| && n in sets[i];
        if i < |init| {
          assert n in init[i];
        }
      }
    }
  }

  /** A name keeps the entry of the last set that binds it. */
  lemma {:induction false} UnionLastWins(sets: seq<MetricSet>, n: string, i: nat)
    requires i < |sets| && n in sets[i]
    requires forall j :: i < j < |sets| ==> n !in sets[j]
    ensures n in Union(sets) && Union(sets)[n] == sets[i][n]
    decreases |sets|
  {
    if i < |sets| - 1 {
      var init := sets[..|sets| - 1];
      assert init[i] == sets[i];
      UnionLastWins(init, n, i);
    }
  }

  /** `combine(Iterable)`: each set's entries put into one map, set by set. */
  method Combine(sets: seq<MetricSet>) returns (result: MetricSet)
    ensures result == Union(sets)
  {
    result := map[];
    for i := 0 to |sets|
      invariant result == Union(sets[..i])
    {
      assert sets[..i + 1][..i] == sets[..i];
      result := result + sets[i];
    }
    assert sets[..|sets|] == sets;
  }

  /** `combine(MetricSet...)`: the same, over the sets passed as arguments. */
  method CombineAll(sets: array<MetricSet>) returns (result: MetricSet)
    ensures result == Union(sets[..])
  {
    result := Combine(sets[..]);
  }

  /**
   * r is m with every name prefixed: p + k holds what k held in m, every
   * name of r is such a p + k, and nothing is lost or merged.
   */
  ghost predicate IsPrefixed(p: string, m: MetricSet, r: MetricSet) {
    && (forall k :: k in m ==> p + k in r && r[p + k] == m[k])
    && (forall j :: j in r ==> p <= j && j[|p|..] in m)
    && |r| == |m|
  }

  /** At most one map is m prefixed by p. */
  lemma IsPrefixedUnique(p: string, m: MetricSet, r1: MetricSet, r2: MetricSet)
    requires IsPrefixed(p, m, r1) && IsPrefixed(p, m, r2)
    ensures r1 == r2
  {
    forall j | j in r1
      ensures j in r2 && r1[j] == r2[j]
    {
      assert j == p + j[|p|..];
    }
    forall j | j in r2
      ensures j in r1
    {
      assert j == p + j[|p|..];
    }
  }

  /** Prepending a prefix never gives two names the same result. */
  lemma PrefixInjective(p: string, s: set<string>)
    ensures InjectiveOn(s, k => p + k)
  {
    forall k1, k2 | k1 in s && k2 in s && p + k1 == p + k2
      ensures k1 == k2
    {
      assert k1 == (p + k1)[|p|..];
      assert k2 == (p + k2)[|p|..];
    }
  }

  /** `prefix`: the names transformed by prepending p. */
  method Prefix(p: string, metricSet: MetricSet) returns (result: MetricSet)
    ensures IsPrefixed(p, metricSet, result)
  {
    PrefixInjective(p, metricSet.Keys);
    result := TransformNames(metricSet, k => p + k);
    forall j | j in result
      ensures p <= j && j[|p|..] in metricSet
    {
      var k :| k in metricSet && p + k == j;
      assert j[|p|..] == k;
    }
  }

  /** `combineAndPrefix`: the union of the sets, prefixed. */
  method CombineAndPrefix(p: string, metricSets: array<MetricSet>) returns (result: MetricSet)
    ensures IsPrefixed(p, Union(metricSets[..]), result)
  {
    var combined := CombineAll(metricSets);
    result := Prefix(p, combined);
  }

  /** `removeAll`: every name of the set removed from the registry, one by one. */
  method RemoveAll(registry: MetricRegistry, metrics: MetricSet)
    modifies registry
    ensures registry.metrics == old(registry.metrics) - metrics.Keys
    ensures forall n :: n in metrics ==> n !in registry.metrics
    ensures forall n :: n !in metrics ==> (n in registry.metrics <==> n in old(registry.metrics))
    ensures forall n :: n !in metrics && n in old(registry.metrics) ==> registry.metrics[n] == old(registry.metrics)[n]
  {
    var remaining := metrics.Keys;
    while remaining != {}
      invariant remaining <= metrics.Keys
      invariant registry.metrics == old(registry.metrics) - (metrics.Keys - remaining)
      decreases remaining
    {
      var k :| k in remaining;
      var _ := registry.Remove(k);
      remaining := remaining - {k};
    }
  }
}
