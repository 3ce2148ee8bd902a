/** Latency metrics: the newest samples of each path and their nearest-rank percentiles. */
module Observability {
  import opened Seqs

  const SAMPLE_LIMIT := 5000

  predicate Ascending(a: real, b: real) {
    a <= b
  }

  /** The smallest integer that is at least `x`. */
  function Ceil(x: real): (r: int)
    ensures x <= r as real < x + 1.0
  {
    if x.Floor as real == x then x.Floor else x.Floor + 1
  }

  /** The rank of a percentile among `n` samples, counted from one. */
  function Rank(percentile: real, n: nat): int {
    Ceil(percentile / 100.0 * n as real)
  }

  function Percentile(samples: seq<real>, percentile: real): real {
    if samples == [] then 0.0
    else
      var ordered := Sort(Ascending, samples);
      var index := Rank(percentile, |ordered|) - 1;
      ordered[if index > |ordered| - 1 then |ordered| - 1 else if index < 0 then 0 else index]
  }

  function AtMost(x: real): real -> bool {
    (sample: real) => sample <= x
  }

  function Below(x: real): real -> bool {
    (sample: real) => sample < x
  }

  lemma RankInRange(percentile: real, n: nat)
    requires n > 0 && 0.0 < percentile <= 100.0
    ensures 1 <= Rank(percentile, n) <= n
  {
    hide Ceil;
    ScaleToCount(percentile / 100.0, n as real);
  }

  lemma ScaleToCount(share: real, n: real)
    requires 0.0 < share <= 1.0 && n > 0.0
    ensures 0.0 < share * n <= n
  {
    assert (1.0 - share) * n >= 0.0;
  }

  /** In a sorted list the first `k + 1` samples are at most the k-th, and only earlier ones are below it. */
  lemma CountsAround(ordered: seq<real>, k: nat)
    requires SortedBy(Ascending, ordered) && k < |ordered|
    ensures |Filter(AtMost(ordered[k]), ordered)| >= k + 1
    ensures |Filter(Below(ordered[k]), ordered)| <= k
  {
    var x := ordered[k];
    assert ordered == ordered[..k + 1] + ordered[k + 1..] == ordered[..k] + ordered[k..];
    forall i | 0 <= i < |ordered| ensures (i <= k ==> ordered[i] <= x) && (k <= i ==> x <= ordered[i]) {
      assert i < k ==> Ascending(ordered[i], x);
      assert k < i ==> Ascending(x, ordered[i]);
    }
    FilterAll(AtMost(x), ordered[..k + 1]);
    FilterConcat(AtMost(x), ordered[..k + 1], ordered[k + 1..]);
    FilterNone(Below(x), ordered[k..]);
    FilterConcat(Below(x), ordered[..k], ordered[k..]);
  }

  /** The rank that the percentile asks for: its share of all samples, rounded up. */
  predicate IsRank(percentile: real, n: nat, r: int) {
    (r - 1) as real < percentile / 100.0 * n as real <= r as real
  }

  /** A sample that at least `r` samples do not exceed and fewer than `r` samples are below. */
  predicate HasRank(samples: seq<real>, x: real, r: int) {
    && x in samples
    && |Filter((sample: real) => sample <= x, samples)| >= r
    && |Filter((sample: real) => sample < x, samples)| < r
  }

  /**
   The nearest-rank percentile: for the integer `r` that is the share of the percentile
   rounded up, the result is the sample of rank `r`.
   */
  lemma NearestRank(samples: seq<real>, percentile: real, r: int)
    requires samples != [] && 0.0 < percentile <= 100.0
    requires IsRank(percentile, |samples|, r)
    ensures HasRank(samples, Percentile(samples, percentile), r)
  {
    hide Percentile, Sort, Filter;
    OneRank(percentile, |samples|, r);
    PercentileIsRanked(samples, percentile);
    SortSorts(Ascending, samples);
    var ordered, k := Sort(Ascending, samples), r - 1;
    var x := ordered[k];
    CountsAround(ordered, k);
    FilterAgree(AtMost(x), (sample: real) => sample <= x, samples);
    FilterAgree(Below(x), (sample: real) => sample < x, samples);
    FilterCountPermuted(AtMost(x), samples, ordered);
    FilterCountPermuted(Below(x), samples, ordered);
  }

  lemma OneRank(percentile: real, n: nat, r: int)
    ensures IsRank(percentile, n, r) <==> Rank(percentile, n) == r
  {
  }

  lemma PercentileIsRanked(samples: seq<real>, percentile: real)
    requires samples != [] && 0.0 < percentile <= 100.0
    ensures 1 <= Rank(percentile, |samples|) <= |samples|
    ensures Percentile(samples, percentile) == Sort(Ascending, samples)[Rank(percentile, |samples|) - 1]
  {
    RankInRange(percentile, |samples|);
  }

  /** Only one value has a rank. */
  lemma NearestRankUnique(samples: seq<real>, x: real, y: real, r: int)
    requires HasRank(samples, x, r) && HasRank(samples, y, r)
    ensures x == y
  {
    FilterAgree(AtMost(x), (sample: real) => sample <= x, samples);
    FilterAgree(AtMost(y), (sample: real) => sample <= y, samples);
    FilterAgree(Below(x), (sample: real) => sample < x, samples);
    FilterAgree(Below(y), (sample: real) => sample < y, samples);
    BelowContainsAtMost(samples, x, y);
    BelowContainsAtMost(samples, y, x);
  }

  lemma {:induction false} BelowContainsAtMost(samples: seq<real>, x: real, y: real)
    ensures x < y ==> |Filter(AtMost(x), samples)| <= |Filter(Below(y), samples)|
  {
    if samples != [] {
      BelowContainsAtMost(samples[..|samples| - 1], x, y);
    }
  }

  /** Percentiles are monotone: in particular p95 is at most p99. */
  lemma PercentileMonotone(samples: seq<real>, low: real, high: real)
    requires 0.0 < low <= high <= 100.0
    ensures Percentile(samples, low) <= Percentile(samples, high)
  {
    if samples != [] {
      var ordered := Sort(Ascending, samples);
      PercentileIsRanked(samples, low);
      PercentileIsRanked(samples, high);
      RankMonotone(low, high, |samples|);
      SortSorts(Ascending, samples);
      var i, j := Rank(low, |samples|) - 1, Rank(high, |samples|) - 1;
      assert i < j ==> Ascending(ordered[i], ordered[j]);
    }
  }

  lemma RankMonotone(low: real, high: real, n: nat)
    requires low <= high
    ensures Rank(low, n) <= Rank(high, n)
  {
    var a, b := low / 100.0 * n as real, high / 100.0 * n as real;
    assert a <= b;
  }

  /** The percentiles and the number of the samples kept for one path. */
  datatype Latency = Latency(p95: real, p99: real, count: nat)

  function LatencyOf(samples: seq<real>): Latency {
    Latency(Percentile(samples, 95.0), Percentile(samples, 99.0), |samples|)
  }

  /** The newest five thousand durations, or all of them. */
  function Newest(all: seq<real>): seq<real> {
    if |all| <= 5000 then all else all[|all| - 5000..]
  }

  /** Percentiles by rank among the newest durations: for n of them the ranks are 0.95 n and 0.99 n, rounded up. */
  ghost predicate Describes(all: seq<real>, latency: Latency) {
    var samples := Newest(all);
    && latency.count == |samples|
    && latency.p95 <= latency.p99
    && (samples != [] ==>
          && (forall r: int | 100 * (r - 1) < 95 * |samples| <= 100 * r :: HasRank(samples, latency.p95, r))
          && (forall r: int | 100 * (r - 1) < 99 * |samples| <= 100 * r :: HasRank(samples, latency.p99, r)))
    && (samples == [] ==> latency.p95 == latency.p99 == 0.0)
  }

  lemma LatencyDescribes(all: seq<real>)
    ensures Describes(all, LatencyOf(Suffix(all, SAMPLE_LIMIT)))
  {
    hide HasRank, IsRank, Rank, Sort;
    var samples := Suffix(all, SAMPLE_LIMIT);
    assert samples == Newest(all);
    PercentileMonotone(samples, 95.0, 99.0);
    if samples != [] {
      forall r: int | 100 * (r - 1) < 95 * |samples| <= 100 * r ensures HasRank(samples, Percentile(samples, 95.0), r) {
        WholeRank(95, |samples|, r);
        NearestRank(samples, 95.0, r);
      }
      forall r: int | 100 * (r - 1) < 99 * |samples| <= 100 * r ensures HasRank(samples, Percentile(samples, 99.0), r) {
        WholeRank(99, |samples|, r);
        NearestRank(samples, 99.0, r);
      }
    }
  }

  lemma WholeRank(p: nat, n: nat, r: int)
    requires 100 * (r - 1) < p * n <= 100 * r
    ensures IsRank(p as real, n, r)
  {
    assert (p * n) as real == p as real * n as real;
    assert p as real / 100.0 * n as real == p as real * n as real / 100.0;
  }

  function WithStatus(code: int): int -> bool {
    (status: int) => status == code
  }

  /** A counter of a dictionary whose counters start at zero. */
  function CountOf<K>(counts: map<K, nat>, key: K): nat {
    if key in counts then counts[key] else 0
  }

  function TotalOf(totals: map<string, real>, path: string): real {
    if path in totals then totals[path] else 0.0
  }

  /** Every status is counted as often as it occurred. */
  ghost predicate CountsStatuses(counts: map<int, nat>, statuses: seq<int>) {
    forall code :: CountOf(counts, code) == |Filter(WithStatus(code), statuses)|
  }

  lemma StatusStep(counts: map<int, nat>, statuses: seq<int>, status: int)
    requires CountsStatuses(counts, statuses)
    ensures CountsStatuses(counts[status := CountOf(counts, status) + 1], statuses + [status])
  {
    hide Filter;
    forall code { FilterSnoc(WithStatus(code), statuses, status); }
  }

  class InMemoryMetrics {
    var requestCounts: map<string, nat>
    var statusCounts: map<int, nat>
    var latencyTotals: map<string, real>
    var latencySamples: map<string, seq<real>>
    ghost var durations: map<string, seq<real>>
    ghost var statuses: seq<int>

    /** Counters and samples are summaries of everything ever recorded. */
    ghost predicate Invariant()
      reads this
    {
      && Summaries(requestCounts, latencyTotals, latencySamples, durations)
      && CountsStatuses(statusCounts, statuses)
    }

    constructor ()
      ensures Invariant() && durations == map[] && statuses == []
    {
      requestCounts, latencyTotals, latencySamples, durations := map[], map[], map[], map[];
      statusCounts, statuses := map[], [];
    }

    method Record(path: string, statusCode: int, duration: real)
      requires Invariant()
      modifies this
      ensures Invariant()
      ensures durations == old(durations)[path := Recorded(old(durations), path) + [duration]]
      ensures statuses == old(statuses) + [statusCode]
    {
      hide Summaries, CountsStatuses, Suffix, Total, CountOf, TotalOf, Recorded, Summarises;
      SummariesStep(requestCounts, latencyTotals, latencySamples, durations, path, duration);
      StatusStep(statusCounts, statuses, statusCode);
      ghost var all := durations[path := Recorded(durations, path) + [duration]];
      requestCounts := requestCounts[path := CountOf(requestCounts, path) + 1];
      statusCounts := statusCounts[statusCode := CountOf(statusCounts, statusCode) + 1];
      latencyTotals := latencyTotals[path := TotalOf(latencyTotals, path) + duration];
      latencySamples := latencySamples[path := Suffix(Recorded(latencySamples, path) + [duration], SAMPLE_LIMIT)];
      durations, statuses := all, statuses + [statusCode];
    }

    /** p95, p99 and number of the last five thousand durations of every path. */
    method LatencyPercentiles() returns (out: map<string, Latency>)
      requires Invariant()
      ensures out.Keys == durations.Keys
      ensures forall path | path in out :: Describes(durations[path], out[path])
    {
      hide Percentile, Suffix, Total, Describes, LatencyOf;
      out := map[];
      var todo := latencySamples.Keys;
      while todo != {}
        invariant todo <= latencySamples.Keys && out.Keys == latencySamples.Keys - todo
        invariant forall path | path in out :: Describes(durations[path], out[path])
        decreases todo
      {
        var path :| path in todo;
        LatencyDescribes(durations[path]);
        out := out[path := LatencyOf(latencySamples[path])];
        todo := todo - {path};
      }
    }
  }

  function Recorded(durations: map<string, seq<real>>, path: string): seq<real> {
    if path in durations then durations[path] else []
  }

  ghost predicate Summarises(count: nat, total: real, samples: seq<real>, all: seq<real>) {
    count == |all| && total == Total(all) && samples == Suffix(all, SAMPLE_LIMIT)
  }

  lemma SummaryStep(count: nat, total: real, samples: seq<real>, all: seq<real>, x: real)
    requires Summarises(count, total, samples, all)
    ensures Summarises(count + 1, total + x, Suffix(samples + [x], SAMPLE_LIMIT), all + [x])
  {
    SuffixAppend(all, x, SAMPLE_LIMIT);
    TotalSnoc(all, x);
  }

  ghost predicate Summaries(
      counts: map<string, nat>, totals: map<string, real>, samples: map<string, seq<real>>, all: map<string, seq<real>>)
  {
    && counts.Keys == totals.Keys == samples.Keys == all.Keys
    && forall path | path in all :: Summarises(counts[path], totals[path], samples[path], all[path])
  }

  lemma SummariesStep(
      counts: map<string, nat>, totals: map<string, real>, samples: map<string, seq<real>>, all: map<string, seq<real>>,
      path: string, x: real)
    requires Summaries(counts, totals, samples, all)
    ensures Summaries(counts[path := CountOf(counts, path) + 1], totals[path := TotalOf(totals, path) + x],
                      samples[path := Suffix(Recorded(samples, path) + [x], SAMPLE_LIMIT)],
                      all[path := Recorded(all, path) + [x]])
  {
    hide Summarises, Suffix;
    if path in all {
      SummaryStep(counts[path], totals[path], samples[path], all[path], x);
    } else {
      NothingRecorded();
      SummaryStep(0, 0.0, [], [], x);
    }
  }

  lemma NothingRecorded()
    ensures Summarises(0, 0.0, [], [])
  {
  }
}
