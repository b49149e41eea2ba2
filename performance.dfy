/** The request-metrics monitor of backend/utils/performance.js: a bounded
    list of samples (the newest `maxMetrics` are kept) and the statistics
    computed over the samples of a recent time window.

    Averages and rates are kept as exact fractions; the source divides in
    floating point and formats with `toFixed`. Percentiles take `p` in
    hundredths (95 for 0.95). */
module Performance {
  import opened Common
  import opened Sorting

  /** One recorded request. */
  datatype Metric = Metric(endpoint: string, httpMethod: string, responseTime: int, statusCode: int,
                           requestSize: int, responseSize: int, timestamp: int)

  const MaxMetrics: nat := 10000
  const SlowQueryThreshold: int := 100
  const TopEndpointsLimit: nat := 10
  const DefaultWindowMinutes: int := 60
  const DefaultSlowQueryLimit: int := 20

  /** The exact value `num / den` of a division the source performs. */
  datatype Fraction = Fraction(num: int, den: int)

  function AsReal(f: Fraction): real
    requires f.den != 0
  {
    f.num as real / f.den as real
  }

  /** The per-endpoint accumulator of `getStats`. */
  datatype EndpointStats = EndpointStats(count: nat, totalTime: int, errors: nat)

  /** The accumulator object: its keys in insertion order, and their values. */
  datatype Groups = Groups(order: seq<string>, stats: map<string, EndpointStats>)

  datatype EndpointEntry = EndpointEntry(endpoint: string, stats: EndpointStats)

  /** One row of `topEndpoints`. */
  datatype EndpointSummary = EndpointSummary(endpoint: string, avgTime: Fraction, totalRequests: nat, errors: nat)

  /** The result of `getStats`: the "No metrics available" message, or the
      figures for the window. */
  datatype Stats =
    | NoMetrics
    | Stats(timeRangeMinutes: int, totalRequests: nat, avgResponseTime: Fraction,
            minResponseTime: int, maxResponseTime: int, p95ResponseTime: int, p99ResponseTime: int,
            avgRequestSize: Fraction, avgResponseSize: Fraction, errorRate: Fraction,
            topEndpoints: seq<EndpointSummary>)

  /* ---------------------------------------------------------------- */
  /* The sample buffer                                                 */

  /** `list.slice(-n)` for a positive `n`: the last `n` elements, or all of
      them when there are fewer. */
  function KeepNewest<T>(s: seq<T>, n: nat): seq<T>
    requires n > 0
  {
    if |s| > n then s[|s| - n..] else s
  }

  /** The buffer after `recordRequest` appends `m`. */
  function Recorded(metrics: seq<Metric>, m: Metric, maxMetrics: nat): seq<Metric>
    requires maxMetrics > 0
  {
    KeepNewest(metrics + [m], maxMetrics)
  }

  /** The buffer keeps the newest `min(old + 1, maxMetrics)` samples: a
      suffix of the old buffer followed by the new sample. */
  lemma RecordedSpec(metrics: seq<Metric>, m: Metric, maxMetrics: nat)
    requires maxMetrics > 0
    ensures var r := Recorded(metrics, m, maxMetrics);
      && |r| == Min(|metrics| + 1, maxMetrics)
      && r[|r| - 1] == m
      && r[..|r| - 1] == metrics[|metrics| - (|r| - 1)..]
  {
  }

  /** `recordRequest` never lets the buffer grow past `maxMetrics`. */
  lemma RecordedBounded(metrics: seq<Metric>, m: Metric, maxMetrics: nat)
    requires maxMetrics > 0
    ensures |Recorded(metrics, m, maxMetrics)| <= maxMetrics
    ensures |metrics| < maxMetrics ==> Recorded(metrics, m, maxMetrics) == metrics + [m]
  {
  }

  /* ---------------------------------------------------------------- */
  /* Statistics                                                        */

  /** The samples of the last `lastNMinutes` minutes before `now`. */
  function Window(metrics: seq<Metric>, lastNMinutes: int, now: int): seq<Metric> {
    Filter(metrics, (m: Metric) => m.timestamp > now - lastNMinutes * 60 * 1000)
  }

  predicate IsError(m: Metric) {
    m.statusCode >= 400
  }

  function ResponseTimes(ms: seq<Metric>): (ts: seq<int>)
    ensures |ts| == |ms|
    ensures forall i :: 0 <= i < |ms| ==> ts[i] == ms[i].responseTime
  {
    if ms == [] then [] else [ms[0].responseTime] + ResponseTimes(ms[1..])
  }

  function SumRequestSizes(ms: seq<Metric>): int {
    if ms == [] then 0 else ms[0].requestSize + SumRequestSizes(ms[1..])
  }

  function SumResponseSizes(ms: seq<Metric>): int {
    if ms == [] then 0 else ms[0].responseSize + SumResponseSizes(ms[1..])
  }

  /** The least element of a non-empty sequence (`Math.min(...s)`). */
  function MinOf(s: seq<int>): int
    requires s != []
  {
    if |s| == 1 then s[0] else Min(s[0], MinOf(s[1..]))
  }

  /** The greatest element of a non-empty sequence (`Math.max(...s)`). */
  function MaxOf(s: seq<int>): int
    requires s != []
  {
    if |s| == 1 then s[0] else Max(s[0], MaxOf(s[1..]))
  }

  /** `MinOf` and `MaxOf` are elements of the sequence and bound all of it. */
  lemma {:induction false} MinMaxBounds(s: seq<int>)
    requires s != []
    ensures MinOf(s) in s && MaxOf(s) in s
    ensures forall x :: x in s ==> MinOf(s) <= x <= MaxOf(s)
  {
    if |s| > 1 {
      MinMaxBounds(s[1..]);
      assert s == [s[0]] + s[1..];
    }
  }

  /** `Math.ceil(a / b)` for a positive `b`. */
  function CeilDiv(a: int, b: int): int
    requires b > 0
  {
    -((-a) / b)
  }

  function Identity(x: int): int { x }

  /** The index `percentile` reads: `max(0, ceil(n * p) - 1)`. */
  function PercentileIndex(n: nat, p: int): int {
    Max(0, CeilDiv(n * p, 100) - 1)
  }

  /** `percentile(arr, p / 100)`: 0 for an empty array, else the element at
      `PercentileIndex` of an ascending copy. */
  function Percentile(arr: seq<int>, p: int): (r: int)
    requires p <= 100
  {
    if |arr| == 0 then 0
    else
      var sorted := SortBy(arr, Identity);
      assert 0 <= PercentileIndex(|arr|, p) < |arr| by { CeilDivBelow(|arr|, p); }
      sorted[PercentileIndex(|arr|, p)]
  }

  lemma CeilDivBelow(n: nat, p: int)
    requires n > 0 && p <= 100
    ensures CeilDiv(n * p, 100) <= n
  {
    assert n * p <= n * 100;
  }

  /** The index grows with `p`. */
  lemma PercentileIndexMonotone(n: nat, p: int, q: int)
    requires p <= q
    ensures PercentileIndex(n, p) <= PercentileIndex(n, q)
  {
    assert n * p <= n * q;
    assert (-(n * q)) / 100 <= (-(n * p)) / 100;
  }

  /** A percentile of a non-empty array is one of its elements, and so lies
      between its least and greatest elements. */
  lemma PercentileIsElement(arr: seq<int>, p: int)
    requires arr != [] && p <= 100
    ensures Percentile(arr, p) in arr
    ensures MinOf(arr) <= Percentile(arr, p) <= MaxOf(arr)
  {
    var sorted := SortBy(arr, Identity);
    CeilDivBelow(|arr|, p);
    var x := sorted[PercentileIndex(|arr|, p)];
    assert x in multiset(sorted);
    MinMaxBounds(arr);
  }

  /** A higher percentile is never smaller. */
  lemma PercentileMonotone(arr: seq<int>, p: int, q: int)
    requires p <= q <= 100
    ensures Percentile(arr, p) <= Percentile(arr, q)
  {
    if arr != [] {
      PercentileIndexMonotone(|arr|, p, q);
      CeilDivBelow(|arr|, q);
      var sorted := SortBy(arr, Identity);
      assert Identity(sorted[PercentileIndex(|arr|, p)]) <= Identity(sorted[PercentileIndex(|arr|, q)]);
    }
  }

  /** A sum of `n` elements, each at least `lo`, is at least `n * lo`. */
  lemma {:induction false} SumAtLeast(s: seq<int>, lo: int)
    requires forall i :: 0 <= i < |s| ==> lo <= s[i]
    ensures |s| * lo <= Sum(s)
  {
    if s != [] {
      SumAtLeast(s[1..], lo);
      assert |s| * lo == lo + (|s| - 1) * lo;
    }
  }

  /** A sum of `n` elements, each at most `hi`, is at most `n * hi`. */
  lemma {:induction false} SumAtMost(s: seq<int>, hi: int)
    requires forall i :: 0 <= i < |s| ==> s[i] <= hi
    ensures Sum(s) <= |s| * hi
  {
    if s != [] {
      SumAtMost(s[1..], hi);
      assert |s| * hi == hi + (|s| - 1) * hi;
    }
  }

  /** Dividing `lo * n <= a <= hi * n` by a positive `n`. */
  lemma DivideBounds(a: real, n: real, lo: real, hi: real)
    requires n > 0.0 && n * lo <= a <= n * hi
    ensures lo <= a / n <= hi
  {
    assert a / n * n == a;
  }

  lemma MulAsReal(a: int, b: int)
    ensures (a * b) as real == a as real * b as real
  {
  }

  /** A fraction `num / den` with `lo * den <= num <= hi * den` lies
      between `lo` and `hi`. */
  lemma FractionBounds(f: Fraction, lo: int, hi: int)
    requires f.den > 0 && f.den * lo <= f.num <= f.den * hi
    ensures lo as real <= AsReal(f) <= hi as real
  {
    MulAsReal(f.den, lo);
    MulAsReal(f.den, hi);
    DivideBounds(f.num as real, f.den as real, lo as real, hi as real);
  }

  /** The sum of a non-empty array lies between its length times its least
      and its length times its greatest element. */
  lemma SumBetweenMinAndMax(s: seq<int>)
    requires s != []
    ensures |s| * MinOf(s) <= Sum(s) <= |s| * MaxOf(s)
  {
    MinMaxBounds(s);
    forall i | 0 <= i < |s|
      ensures MinOf(s) <= s[i] <= MaxOf(s)
    {
      assert s[i] in s;
    }
    SumAtLeast(s, MinOf(s));
    SumAtMost(s, MaxOf(s));
  }

  /* The per-endpoint accumulator */

  function EmptyStats(): EndpointStats { EndpointStats(0, 0, 0) }

  /** One step of the `forEach`: create the endpoint's record if it has none
      yet, then count the sample, its time, and whether it is an error. */
  function AddSample(g: Groups, m: Metric): Groups {
    var prev := if m.endpoint in g.stats then g.stats[m.endpoint] else EmptyStats();
    Groups(if m.endpoint in g.stats then g.order else g.order + [m.endpoint],
           g.stats[m.endpoint := EndpointStats(prev.count + 1, prev.totalTime + m.responseTime,
                                               prev.errors + (if IsError(m) then 1 else 0))])
  }

  /** The accumulator after the `forEach` over `ms`. */
  function GroupByEndpoint(ms: seq<Metric>): Groups
    decreases |ms|
  {
    if ms == [] then Groups([], map[])
    else AddSample(GroupByEndpoint(ms[..|ms| - 1]), ms[|ms| - 1])
  }

  predicate AtEndpoint(e: string, m: Metric) { m.endpoint == e }

  predicate ErrorAtEndpoint(e: string, m: Metric) { m.endpoint == e && IsError(m) }

  function TimeAtEndpoint(ms: seq<Metric>, e: string): int {
    if ms == [] then 0
    else (if ms[0].endpoint == e then ms[0].responseTime else 0) + TimeAtEndpoint(ms[1..], e)
  }

  lemma {:induction false} TimeAtEndpointAppend(ms: seq<Metric>, m: Metric, e: string)
    ensures TimeAtEndpoint(ms + [m], e) == TimeAtEndpoint(ms, e) + (if m.endpoint == e then m.responseTime else 0)
  {
    if ms != [] {
      assert (ms + [m])[1..] == ms[1..] + [m];
      TimeAtEndpointAppend(ms[1..], m, e);
    }
  }

  /** The endpoints of the samples in `ms`. */
  function EndpointsOf(ms: seq<Metric>): set<string>
    decreases |ms|
  {
    if ms == [] then {} else EndpointsOf(ms[..|ms| - 1]) + {ms[|ms| - 1].endpoint}
  }

  /** The keys of the accumulator are the endpoints seen, each once. */
  lemma {:induction false} GroupKeys(ms: seq<Metric>)
    ensures var g := GroupByEndpoint(ms);
      && Distinct(g.order)
      && (forall e :: e in g.order <==> e in g.stats)
      && g.stats.Keys == EndpointsOf(ms)
    decreases |ms|
  {
    if ms != [] {
      GroupKeys(ms[..|ms| - 1]);
    }
  }

  /** Each endpoint's record counts exactly its samples, their total time
      and its errors. */
  lemma {:induction false} GroupCounts(ms: seq<Metric>, e: string)
    ensures var g := GroupByEndpoint(ms);
      e in g.stats ==>
        && g.stats[e].count == Count(ms, m => AtEndpoint(e, m))
        && g.stats[e].totalTime == TimeAtEndpoint(ms, e)
        && g.stats[e].errors == Count(ms, m => ErrorAtEndpoint(e, m))
    ensures e !in GroupByEndpoint(ms).stats ==> Count(ms, m => AtEndpoint(e, m)) == 0
    decreases |ms|
  {
    if ms != [] {
      var init := ms[..|ms| - 1];
      var m := ms[|ms| - 1];
      GroupCounts(init, e);
      assert ms == init + [m];
      CountAppend(init, m, m' => AtEndpoint(e, m'));
      CountAppend(init, m, m' => ErrorAtEndpoint(e, m'));
      TimeAtEndpointAppend(init, m, e);
      if e !in GroupByEndpoint(init).stats {
        NoCountNoErrors(init, e);
      }
    }
  }

  lemma {:induction false} NoCountNoErrors(ms: seq<Metric>, e: string)
    requires Count(ms, m => AtEndpoint(e, m)) == 0
    ensures Count(ms, m => ErrorAtEndpoint(e, m)) == 0
    ensures TimeAtEndpoint(ms, e) == 0
  {
    if ms != [] {
      NoCountNoErrors(ms[1..], e);
    }
  }

  /** The sum of the counts of the endpoints in `keys`. */
  function SumCounts(keys: seq<string>, stats: map<string, EndpointStats>): int {
    if keys == [] then 0
    else (if keys[0] in stats then stats[keys[0]].count else 0) + SumCounts(keys[1..], stats)
  }

  lemma {:induction false} SumCountsAppend(keys: seq<string>, k: string, stats: map<string, EndpointStats>)
    ensures SumCounts(keys + [k], stats) == SumCounts(keys, stats) + (if k in stats then stats[k].count else 0)
  {
    if keys != [] {
      assert (keys + [k])[1..] == keys[1..] + [k];
      SumCountsAppend(keys[1..], k, stats);
    }
  }

  /** Changing the record of a key that occurs once in `keys` changes the
      sum by the change in its count; other keys are not summed. */
  lemma {:induction false} SumCountsUpdate(keys: seq<string>, k: string, v: EndpointStats,
                                           stats: map<string, EndpointStats>)
    requires Distinct(keys)
    ensures SumCounts(keys, stats[k := v]) ==
      SumCounts(keys, stats) + (if k in keys then v.count - (if k in stats then stats[k].count else 0) else 0)
  {
    if keys != [] {
      SumCountsUpdate(keys[1..], k, v, stats);
    }
  }

  /** Before truncation, the per-endpoint counts add up to the number of
      samples. */
  lemma {:induction false} GroupCountsSum(ms: seq<Metric>)
    ensures SumCounts(GroupByEndpoint(ms).order, GroupByEndpoint(ms).stats) == |ms|
    decreases |ms|
  {
    if ms != [] {
      var init := ms[..|ms| - 1];
      var m := ms[|ms| - 1];
      var g := GroupByEndpoint(init);
      GroupCountsSum(init);
      assert Distinct(g.order) && (m.endpoint in g.order <==> m.endpoint in g.stats) by {
        GroupKeys(init);
      }
      var prev := if m.endpoint in g.stats then g.stats[m.endpoint] else EmptyStats();
      var v := EndpointStats(prev.count + 1, prev.totalTime + m.responseTime,
                             prev.errors + (if IsError(m) then 1 else 0));
      var stats := g.stats[m.endpoint := v];
      assert GroupByEndpoint(ms).stats == stats;
      SumCountsUpdate(g.order, m.endpoint, v, g.stats);
      if m.endpoint in g.stats {
        assert GroupByEndpoint(ms).order == g.order;
        assert SumCounts(g.order, stats) == SumCounts(g.order, g.stats) + 1;
      } else {
        assert GroupByEndpoint(ms).order == g.order + [m.endpoint];
        assert SumCounts(g.order, stats) == SumCounts(g.order, g.stats);
        SumCountsAppend(g.order, m.endpoint, stats);
      }
    }
  }

  function EntriesOf(order: seq<string>, stats: map<string, EndpointStats>): (es: seq<EndpointEntry>)
    requires forall e :: e in order ==> e in stats
    ensures |es| == |order|
    ensures forall i :: 0 <= i < |order| ==> es[i] == EndpointEntry(order[i], stats[order[i]])
  {
    if order == [] then [] else [EndpointEntry(order[0], stats[order[0]])] + EntriesOf(order[1..], stats)
  }

  /** Sorting by this key puts the largest total time first. */
  function TotalTimeRank(en: EndpointEntry): int {
    -en.stats.totalTime
  }

  /** A row of `topEndpoints`; `avgTime` is `totalTime / count` before
      `toFixed(2)`. */
  function Summary(en: EndpointEntry): EndpointSummary {
    EndpointSummary(en.endpoint,
                    Fraction(en.stats.totalTime, en.stats.count),
                    en.stats.count, en.stats.errors)
  }

  /** The accumulator's entries, largest total time first, ties in
      insertion order, cut to the first ten. */
  function RankedEndpoints(g: Groups): seq<EndpointEntry>
    requires forall e :: e in g.order ==> e in g.stats
  {
    Take(SortBy(EntriesOf(g.order, g.stats), TotalTimeRank), TopEndpointsLimit)
  }

  function Summaries(es: seq<EndpointEntry>): (r: seq<EndpointSummary>)
    ensures |r| == |es|
    ensures forall i :: 0 <= i < |es| ==> r[i] == Summary(es[i])
  {
    if es == [] then [] else [Summary(es[0])] + Summaries(es[1..])
  }

  /** The figures `getStats` computes for a non-empty window, given the
      accumulator built from it. */
  function Summarise(recent: seq<Metric>, g: Groups, lastNMinutes: int): Stats
    requires recent != []
    requires forall e :: e in g.order ==> e in g.stats
  {
    var times := ResponseTimes(recent);
    var n := |recent|;
    Stats(lastNMinutes, n,
          Fraction(Sum(times), n),
          MinOf(times), MaxOf(times),
          Percentile(times, 95), Percentile(times, 99),
          Fraction(SumRequestSizes(recent), n),
          Fraction(SumResponseSizes(recent), n),
          Fraction(|Filter(recent, IsError)| * 100, n),
          Summaries(RankedEndpoints(g)))
  }

  /** `getStats(lastNMinutes)` at time `now`. */
  function StatsOf(metrics: seq<Metric>, lastNMinutes: int, now: int): Stats {
    var recent := Window(metrics, lastNMinutes, now);
    if recent == [] then NoMetrics
    else
      GroupKeys(recent);
      Summarise(recent, GroupByEndpoint(recent), lastNMinutes)
  }

  /** The "No metrics available" answer comes exactly when no sample is
      newer than the cut-off. */
  lemma NoMetricsIffEmptyWindow(metrics: seq<Metric>, lastNMinutes: int, now: int)
    ensures StatsOf(metrics, lastNMinutes, now) == NoMetrics <==>
      forall m :: m in metrics ==> m.timestamp <= now - lastNMinutes * 60 * 1000
  {
    var recent := Window(metrics, lastNMinutes, now);
    if recent != [] {
      assert recent[0] in recent;
    }
  }

  /** For a non-empty window: the request count is the window's size, and
      `min <= avg <= max` and `min <= p95 <= p99 <= max`. */
  lemma StatsOrdering(metrics: seq<Metric>, lastNMinutes: int, now: int)
    requires StatsOf(metrics, lastNMinutes, now).Stats?
    ensures var st := StatsOf(metrics, lastNMinutes, now);
      && st.totalRequests == |Window(metrics, lastNMinutes, now)|
      && st.avgResponseTime.den == st.totalRequests > 0
      && st.minResponseTime as real <= AsReal(st.avgResponseTime) <= st.maxResponseTime as real
      && st.minResponseTime <= st.p95ResponseTime <= st.p99ResponseTime <= st.maxResponseTime
  {
    var times := ResponseTimes(Window(metrics, lastNMinutes, now));
    SumBetweenMinAndMax(times);
    FractionBounds(StatsOf(metrics, lastNMinutes, now).avgResponseTime, MinOf(times), MaxOf(times));
    PercentileIsElement(times, 95);
    PercentileIsElement(times, 99);
    PercentileMonotone(times, 95, 99);
  }

  /** The error rate is the percentage of window samples whose status is
      400 or more; it lies between 0 and 100. */
  lemma ErrorRateSpec(metrics: seq<Metric>, lastNMinutes: int, now: int)
    requires StatsOf(metrics, lastNMinutes, now).Stats?
    ensures var st := StatsOf(metrics, lastNMinutes, now);
      var recent := Window(metrics, lastNMinutes, now);
      && st.errorRate.den == |recent| > 0
      && st.errorRate.num == 100 * Count(recent, IsError)
      && 0.0 <= AsReal(st.errorRate) <= 100.0
  {
    var recent := Window(metrics, lastNMinutes, now);
    FilterLength(recent, IsError);
    FractionBounds(StatsOf(metrics, lastNMinutes, now).errorRate, 0, 100);
  }

  /** The ranked entries are real records of the accumulator, at most
      ten, in non-increasing order of total time. */
  lemma RankedSpec(g: Groups)
    requires forall e :: e in g.order ==> e in g.stats
    ensures var ranked := RankedEndpoints(g);
      && |ranked| <= TopEndpointsLimit
      && (forall i, j :: 0 <= i < j < |ranked| ==> ranked[i].stats.totalTime >= ranked[j].stats.totalTime)
      && (forall i :: 0 <= i < |ranked| ==>
            ranked[i].endpoint in g.stats && ranked[i].stats == g.stats[ranked[i].endpoint])
  {
    var entries := EntriesOf(g.order, g.stats);
    var sorted := SortBy(entries, TotalTimeRank);
    var ranked := RankedEndpoints(g);
    forall i | 0 <= i < |ranked|
      ensures ranked[i].endpoint in g.stats && ranked[i].stats == g.stats[ranked[i].endpoint]
    {
      assert ranked[i] == sorted[i];
      assert sorted[i] in multiset(entries);
      var k :| 0 <= k < |entries| && entries[k] == sorted[i];
    }
    forall i, j | 0 <= i < j < |ranked|
      ensures ranked[i].stats.totalTime >= ranked[j].stats.totalTime
    {
      assert TotalTimeRank(sorted[i]) <= TotalTimeRank(sorted[j]);
    }
  }

  /** `topEndpoints` has at most ten rows, in non-increasing order of total
      time, and each row reports an endpoint of the window with the number
      of its samples and of its errors. */
  lemma TopEndpointsSpec(metrics: seq<Metric>, lastNMinutes: int, now: int)
    requires StatsOf(metrics, lastNMinutes, now).Stats?
    ensures var recent := Window(metrics, lastNMinutes, now);
      var g := GroupByEndpoint(recent);
      var top := StatsOf(metrics, lastNMinutes, now).topEndpoints;
      (forall e :: e in g.order ==> e in g.stats) &&
      var ranked := RankedEndpoints(g);
      && |top| <= TopEndpointsLimit
      && |top| == |ranked|
      && (forall i, j :: 0 <= i < j < |ranked| ==> ranked[i].stats.totalTime >= ranked[j].stats.totalTime)
      && (forall i :: 0 <= i < |ranked| ==>
            && top[i].endpoint == ranked[i].endpoint
            && top[i].endpoint in EndpointsOf(recent)
            && top[i].totalRequests == Count(recent, m => AtEndpoint(top[i].endpoint, m))
            && top[i].errors == Count(recent, m => ErrorAtEndpoint(top[i].endpoint, m)))
  {
    var recent := Window(metrics, lastNMinutes, now);
    var g := GroupByEndpoint(recent);
    GroupKeys(recent);
    RankedSpec(g);
    var ranked := RankedEndpoints(g);
    var top := StatsOf(metrics, lastNMinutes, now).topEndpoints;
    assert top == Summaries(ranked);
    forall i | 0 <= i < |ranked|
      ensures top[i].totalRequests == Count(recent, m => AtEndpoint(top[i].endpoint, m))
      ensures top[i].errors == Count(recent, m => ErrorAtEndpoint(top[i].endpoint, m))
    {
      GroupCounts(recent, ranked[i].endpoint);
    }
  }

  /** `topEndpoints` keeps the heaviest endpoints: an endpoint of the window
      that is not among them has no more total time than any that is. */
  lemma TopEndpointsAreHeaviest(metrics: seq<Metric>, lastNMinutes: int, now: int, kept: EndpointEntry, e: string)
    requires StatsOf(metrics, lastNMinutes, now).Stats?
    ensures var g := GroupByEndpoint(Window(metrics, lastNMinutes, now));
      (forall e :: e in g.order ==> e in g.stats) &&
      (kept in RankedEndpoints(g) && e in g.stats &&
       (forall r :: r in RankedEndpoints(g) ==> r.endpoint != e) ==>
         g.stats[e].totalTime <= kept.stats.totalTime)
  {
    var g := GroupByEndpoint(Window(metrics, lastNMinutes, now));
    GroupKeys(Window(metrics, lastNMinutes, now));
    if kept in RankedEndpoints(g) && e in g.stats && (forall r :: r in RankedEndpoints(g) ==> r.endpoint != e) {
      var entries := EntriesOf(g.order, g.stats);
      var k :| 0 <= k < |g.order| && g.order[k] == e;
      var y := entries[k];
      assert y in entries;
      assert y !in RankedEndpoints(g);
      TakeSortedIsTop(entries, TotalTimeRank, TopEndpointsLimit, kept, y);
    }
  }

  /* ---------------------------------------------------------------- */
  /* Slow queries                                                      */

  /** `s.slice(0, end)` for any integer `end`: a negative end counts from
      the back. */
  function SliceTo<T>(s: seq<T>, end: int): (r: seq<T>)
    ensures |r| <= |s| && r == s[..|r|]
    ensures 0 <= end ==> |r| == Min(end, |s|)
  {
    if end >= 0 then (if end <= |s| then s[..end] else s)
    else if |s| + end > 0 then s[..|s| + end] else []
  }

  function SlowestFirst(m: Metric): int { -m.responseTime }

  predicate IsSlow(m: Metric, slowQueryThreshold: int) { m.responseTime > slowQueryThreshold }

  /** `getSlowQueries(limit)` over the whole buffer. */
  function SlowQueries(metrics: seq<Metric>, slowQueryThreshold: int, limit: int): seq<Metric> {
    SliceTo(SortBy(Filter(metrics, (m: Metric) => IsSlow(m, slowQueryThreshold)), SlowestFirst), limit)
  }

  /** At most `limit` samples, each of them from the buffer and slow. */
  lemma SlowQueriesAreSlow(metrics: seq<Metric>, slowQueryThreshold: int, limit: int)
    ensures var r := SlowQueries(metrics, slowQueryThreshold, limit);
      && (limit >= 0 ==> |r| <= limit)
      && (forall m :: m in r ==> m in metrics && m.responseTime > slowQueryThreshold)
  {
    var slow := Filter(metrics, (m: Metric) => IsSlow(m, slowQueryThreshold));
    var r := SlowQueries(metrics, slowQueryThreshold, limit);
    forall m | m in r
      ensures m in metrics && m.responseTime > slowQueryThreshold
    {
      SortByMembers(slow, SlowestFirst, m);
    }
  }

  /** The slowest sample comes first. */
  lemma SlowQueriesOrdered(metrics: seq<Metric>, slowQueryThreshold: int, limit: int)
    ensures var r := SlowQueries(metrics, slowQueryThreshold, limit);
      forall i, j :: 0 <= i < j < |r| ==> r[i].responseTime >= r[j].responseTime
  {
    var sorted := SortBy(Filter(metrics, (m: Metric) => IsSlow(m, slowQueryThreshold)), SlowestFirst);
    var r := SlowQueries(metrics, slowQueryThreshold, limit);
    forall i, j | 0 <= i < j < |r|
      ensures r[i].responseTime >= r[j].responseTime
    {
      assert SlowestFirst(sorted[i]) <= SlowestFirst(sorted[j]);
    }
  }

  /** A slow sample that is left out is no slower than any returned. */
  lemma SlowQueriesAreSlowest(metrics: seq<Metric>, slowQueryThreshold: int, limit: int, x: Metric, y: Metric)
    requires x in SlowQueries(metrics, slowQueryThreshold, limit)
    requires y in metrics && IsSlow(y, slowQueryThreshold) && y !in SlowQueries(metrics, slowQueryThreshold, limit)
    ensures y.responseTime <= x.responseTime
  {
    var slow := Filter(metrics, (m: Metric) => IsSlow(m, slowQueryThreshold));
    var sorted := SortBy(slow, SlowestFirst);
    var r := SlowQueries(metrics, slowQueryThreshold, limit);
    var k :| 0 <= k < |r| && r[k] == x;
    SortByMembers(slow, SlowestFirst, y);
    var j :| 0 <= j < |sorted| && sorted[j] == y;
    assert j >= |r|;
    assert SlowestFirst(sorted[k]) <= SlowestFirst(sorted[j]);
  }

  /* ---------------------------------------------------------------- */
  /* The monitor                                                       */

  class PerformanceMonitor {
    var metrics: seq<Metric>
    const maxMetrics: nat := MaxMetrics
    const slowQueryThreshold: int := SlowQueryThreshold

    ghost predicate Valid()
      reads this
    {
      |metrics| <= maxMetrics
    }

    constructor ()
      ensures Valid() && metrics == []
    {
      metrics := [];
    }

    /** `recordRequest`, at time `now`; the slow-query warning is a log line
        and is left out. */
    method RecordRequest(endpoint: string, httpMethod: string, responseTime: int, statusCode: int,
                         requestSize: int, responseSize: int, now: int) returns (metric: Metric)
      requires Valid()
      modifies this
      ensures Valid()
      ensures metric == Metric(endpoint, httpMethod, responseTime, statusCode, requestSize, responseSize, now)
      ensures metrics == Recorded(old(metrics), metric, maxMetrics)
    {
      metric := Metric(endpoint, httpMethod, responseTime, statusCode, requestSize, responseSize, now);
      metrics := metrics + [metric];
      if |metrics| > maxMetrics {
        metrics := metrics[|metrics| - maxMetrics..];
      }
    }

    /** `getStats(lastNMinutes)` at time `now`, the window being an hour
        when left out; the grouping by endpoint is the source's accumulating
        loop. */
    method GetStats(lastNMinutes: Option<int>, now: int) returns (stats: Stats)
      ensures stats == StatsOf(metrics, ArgOr(lastNMinutes, DefaultWindowMinutes), now)
    {
      var minutes := ArgOr(lastNMinutes, DefaultWindowMinutes);
      var recent := Window(metrics, minutes, now);
      if |recent| == 0 {
        return NoMetrics;
      }
      var order: seq<string> := [];
      var byEndpoint: map<string, EndpointStats> := map[];
      var i := 0;
      while i < |recent|
        invariant 0 <= i <= |recent|
        invariant Groups(order, byEndpoint) == GroupByEndpoint(recent[..i])
      {
        var m := recent[i];
        if m.endpoint !in byEndpoint {
          byEndpoint := byEndpoint[m.endpoint := EmptyStats()];
          order := order + [m.endpoint];
        }
        var s := byEndpoint[m.endpoint];
        byEndpoint := byEndpoint[m.endpoint := EndpointStats(s.count + 1, s.totalTime + m.responseTime,
                                                             s.errors + (if IsError(m) then 1 else 0))];
        assert recent[..i + 1][..i] == recent[..i];
        i := i + 1;
      }
      assert recent[..i] == recent;
      GroupKeys(recent);
      stats := Summarise(recent, Groups(order, byEndpoint), minutes);
    }

    /** `getSlowQueries(limit)`, twenty when left out. */
    function GetSlowQueries(limit: Option<int>): (r: seq<Metric>)
      reads this
      ensures r == SlowQueries(metrics, slowQueryThreshold, ArgOr(limit, DefaultSlowQueryLimit))
    {
      SlowQueries(metrics, slowQueryThreshold, ArgOr(limit, DefaultSlowQueryLimit))
    }

    method Reset()
      modifies this
      ensures Valid() && metrics == []
    {
      metrics := [];
    }
  }
}
