/** The drift monitor: an online summary of every metric series and its batch definition. */
module DriftDetection {
  import opened Seqs

  /** One attempt to ingest a value; a threshold that is not positive makes it fail. */
  datatype Call = Call(value: real, threshold: Option<real>)

  datatype Series = Series(
    baselineMean: real, baselineSamples: nat, recent: seq<real>, driftScore: real, threshold: real, alertActive: bool)

  datatype Windows = Windows(baseline: nat, recent: nat, defaultThreshold: real)

  predicate Rejected(call: Call) {
    call.threshold.Some? && call.threshold.value <= 0.0
  }

  function Accepted(): Call -> bool {
    (call: Call) => !Rejected(call)
  }

  function ValuesOf(calls: seq<Call>): (r: seq<real>)
    ensures |r| == |calls|
  {
    seq(|calls|, i requires 0 <= i < |calls| => calls[i].value)
  }

  function Samples(calls: seq<Call>): seq<real> {
    ValuesOf(Filter(Accepted(), calls))
  }

  function Abs(x: real): real {
    if x < 0.0 then -x else x
  }

  function Max(a: real, b: real): real {
    if a >= b then a else b
  }

  /** The relative distance of the recent mean from the baseline. */
  function Score(baseline: real, recent: seq<real>): real {
    Abs(Mean(recent) - baseline) / Max(Abs(baseline), 0.000001)
  }

  // ---------- the batch definition ----------

  /** The last threshold supplied by an accepted call. */
  function LastSupplied(calls: seq<Call>): Option<real> {
    if calls == [] then None
    else
      var last := calls[|calls| - 1];
      if last.threshold.Some? && !Rejected(last) then last.threshold else LastSupplied(calls[..|calls| - 1])
  }

  /** The threshold that the accepted calls ask for. */
  function IntendedThreshold(w: Windows, calls: seq<Call>): real {
    if LastSupplied(calls).Some? then LastSupplied(calls).value else w.defaultThreshold
  }

  /** The threshold in force: a rejected first call leaves its own threshold behind. */
  function ThresholdInForce(w: Windows, calls: seq<Call>): real
    requires calls != []
  {
    if LastSupplied(calls).Some? then LastSupplied(calls).value
    else if calls[0].threshold.Some? then calls[0].threshold.value
    else w.defaultThreshold
  }

  function Baseline(w: Windows, samples: seq<real>): seq<real> {
    if |samples| <= w.baseline then samples else samples[..w.baseline]
  }

  function Recent(w: Windows, samples: seq<real>): seq<real> {
    if |samples| <= w.baseline then [] else Suffix(samples[w.baseline..], w.recent)
  }

  /** The last accepted call after the baseline was full decided the alert. */
  function AlertAt(w: Windows, calls: seq<Call>): bool
    requires calls != []
  {
    if Rejected(calls[|calls| - 1]) then |calls| > 1 && AlertAt(w, calls[..|calls| - 1])
    else
      var samples := Samples(calls);
      |samples| > w.baseline && Score(Mean(Baseline(w, samples)), Recent(w, samples)) >= ThresholdInForce(w, calls)
  }

  /** The whole series as a function of all calls. */
  function Batch(w: Windows, calls: seq<Call>): Series
    requires calls != []
  {
    var samples := Samples(calls);
    Series(Mean(Baseline(w, samples)), |Baseline(w, samples)|, Recent(w, samples),
           if |samples| > w.baseline then Score(Mean(Baseline(w, samples)), Recent(w, samples)) else 0.0,
           ThresholdInForce(w, calls), AlertAt(w, calls))
  }

  /** The leftover threshold matters exactly when the first call was rejected and no accepted one supplies another. */
  lemma ThresholdInForceExact(w: Windows, calls: seq<Call>)
    requires calls != [] && w.defaultThreshold > 0.0
    ensures ThresholdInForce(w, calls) == IntendedThreshold(w, calls) <==>
            !Rejected(calls[0]) || LastSupplied(calls).Some?
  {
    if !Rejected(calls[0]) && calls[0].threshold.Some? {
      FirstSupplied(calls);
    }
  }

  lemma {:induction false} FirstSupplied(calls: seq<Call>)
    requires calls != [] && !Rejected(calls[0]) && calls[0].threshold.Some?
    ensures LastSupplied(calls).Some?
  {
    if |calls| > 1 {
      FirstSupplied(calls[..|calls| - 1]);
    }
  }

  /** Such a leftover threshold makes every later sample an alert, however close to the baseline. */
  lemma LeftoverThresholdAlwaysAlerts(w: Windows, calls: seq<Call>)
    requires calls != [] && Rejected(calls[0]) && LastSupplied(calls).None?
    requires !Rejected(calls[|calls| - 1]) && |Samples(calls)| > w.baseline
    ensures AlertAt(w, calls)
  {
    var baseline := Mean(Baseline(w, Samples(calls)));
    ScoreNonNegative(baseline, Recent(w, Samples(calls)));
  }

  /** The score is the distance of the recent mean from the baseline, in units of the baseline's size. */
  lemma ScoreExact(baseline: real, recent: seq<real>)
    ensures Abs(baseline) >= 0.000001 ==>
              Score(baseline, recent) * (if baseline >= 0.0 then baseline else -baseline)
              == (if Mean(recent) >= baseline then Mean(recent) - baseline else baseline - Mean(recent))
    ensures -0.000001 < baseline < 0.000001 ==>
              Score(baseline, recent)
              == 1000000.0 * (if Mean(recent) >= baseline then Mean(recent) - baseline else baseline - Mean(recent))
  {
    hide Mean;
    var distance, scale := Abs(Mean(recent) - baseline), Max(Abs(baseline), 0.000001);
    assert distance / scale * scale == distance;
  }

  lemma ScoreNonNegative(baseline: real, recent: seq<real>)
    ensures Score(baseline, recent) >= 0.0
  {
    var distance, scale := Abs(Mean(recent) - baseline), Max(Abs(baseline), 0.000001);
    assert distance >= 0.0 && scale > 0.0;
    assert distance / scale >= 0.0;
  }

  // ---------- the online step ----------

  function NewSeries(w: Windows, threshold: Option<real>): Series {
    Series(0.0, 0, [], 0.0, if threshold.Some? then threshold.value else w.defaultThreshold, false)
  }

  /** One accepted value. */
  function Ingested(w: Windows, state: Series, call: Call): Series
    requires w.recent > 0
  {
    var threshold := if call.threshold.Some? then call.threshold.value else state.threshold;
    if state.baselineSamples < w.baseline then
      var n := state.baselineSamples;
      Series((state.baselineMean * n as real + call.value) / (n + 1) as real, n + 1, state.recent, 0.0, threshold, false)
    else
      var recent := Suffix(state.recent + [call.value], w.recent);
      var score := Score(state.baselineMean, recent);
      Series(state.baselineMean, state.baselineSamples, recent, score, threshold, score >= threshold)
  }

  lemma MeanStep(values: seq<real>, x: real)
    ensures (Mean(values) * |values| as real + x) / (|values| + 1) as real == Mean(values + [x])
  {
    TotalSnoc(values, x);
    if values != [] {
      assert Mean(values) * |values| as real == Total(values);
    }
  }

  lemma SamplesStep(calls: seq<Call>, call: Call)
    ensures Samples(calls + [call]) == Samples(calls) + (if Rejected(call) then [] else [call.value])
  {
    FilterSnoc(Accepted(), calls, call);
  }

  /** The series before a call: a first call creates it, even if the call is then rejected. */
  function Before(w: Windows, calls: seq<Call>, call: Call): Series {
    if calls == [] then NewSeries(w, call.threshold) else Batch(w, calls)
  }

  lemma ThresholdStep(w: Windows, calls: seq<Call>, call: Call)
    ensures ThresholdInForce(w, calls + [call]) ==
            if call.threshold.Some? && !Rejected(call) then call.threshold.value else Before(w, calls, call).threshold
  {
    var all := calls + [call];
    assert all[..|all| - 1] == calls && all[0] == if calls == [] then call else calls[0];
    assert LastSupplied(all) == if call.threshold.Some? && !Rejected(call) then call.threshold else LastSupplied(calls);
  }

  lemma RejectedStep(w: Windows, calls: seq<Call>, call: Call)
    requires Rejected(call)
    ensures Batch(w, calls + [call]) == Before(w, calls, call)
  {
    assert (calls + [call])[..|calls|] == calls;
    SamplesStep(calls, call);
    ThresholdStep(w, calls, call);
    assert Samples(calls + [call]) == Samples(calls);
  }

  /** The windows after one more sample: the baseline fills first, then the recent window slides. */
  lemma WindowsStep(w: Windows, samples: seq<real>, x: real)
    requires w.recent > 0
    ensures Baseline(w, samples + [x]) ==
            if |samples| < w.baseline then Baseline(w, samples) + [x] else Baseline(w, samples)
    ensures Recent(w, samples + [x]) ==
            if |samples| < w.baseline then Recent(w, samples) else Suffix(Recent(w, samples) + [x], w.recent)
  {
    if |samples| >= w.baseline {
      assert (samples + [x])[w.baseline..] == samples[w.baseline..] + [x];
      SuffixAppend(samples[w.baseline..], x, w.recent);
      assert |samples| == w.baseline ==> samples[w.baseline..] == [];
      assert Recent(w, samples) == Suffix(samples[w.baseline..], w.recent);
    }
  }

  lemma BaselineSize(w: Windows, samples: seq<real>)
    ensures |Baseline(w, samples)| == if |samples| <= w.baseline then |samples| else w.baseline
  {
  }

  lemma NoCalls(w: Windows, calls: seq<Call>)
    ensures calls == [] ==> Samples(calls) == [] && Baseline(w, []) == [] && Recent(w, []) == [] && Mean([]) == 0.0
  {
  }

  /** The online step computes the batch definition of one more call. */
  lemma AcceptedStep(w: Windows, calls: seq<Call>, call: Call)
    requires w.baseline > 0 && w.recent > 0 && !Rejected(call)
    ensures Batch(w, calls + [call]) == Ingested(w, Before(w, calls, call), call)
  {
    hide ThresholdInForce, Baseline, Recent, Score, Mean, Suffix, Samples;
    var samples := Samples(calls);
    SamplesStep(calls, call);
    ThresholdStep(w, calls, call);
    WindowsStep(w, samples, call.value);
    BaselineSize(w, samples);
    NoCalls(w, calls);
    if |samples| < w.baseline {
      MeanStep(Baseline(w, samples), call.value);
    }
  }

  /** Every series is the batch definition of its calls. */
  ghost predicate Summarises(w: Windows, series: map<string, Series>, calls: map<string, seq<Call>>) {
    && series.Keys == calls.Keys
    && forall key | key in calls :: calls[key] != [] && series[key] == Batch(w, calls[key])
  }

  lemma SummaryStep(w: Windows, series: map<string, Series>, calls: map<string, seq<Call>>, key: string, call: Call)
    requires w.baseline > 0 && w.recent > 0 && Summarises(w, series, calls)
    ensures var before := if key in series then series[key] else NewSeries(w, call.threshold);
            var after := if Rejected(call) then before else Ingested(w, before, call);
            var all := CallsOf(calls, key) + [call];
            after == Batch(w, all) && Summarises(w, series[key := after], calls[key := all])
  {
    hide Batch, Ingested, NewSeries, Rejected;
    if Rejected(call) {
      RejectedStep(w, CallsOf(calls, key), call);
    } else {
      AcceptedStep(w, CallsOf(calls, key), call);
    }
  }

  class DriftMonitor {
    const windows: Windows
    var series: map<string, Series>
    ghost var calls: map<string, seq<Call>>

    ghost predicate Invariant()
      reads this
    {
      && windows.baseline > 0 && windows.recent > 0 && windows.defaultThreshold > 0.0
      && Summarises(windows, series, calls)
    }

    constructor (baselineWindow: nat, recentWindow: nat, defaultThreshold: real)
      requires baselineWindow > 0 && recentWindow > 0 && defaultThreshold > 0.0
      ensures Invariant() && calls == map[] && windows == Windows(baselineWindow, recentWindow, defaultThreshold)
    {
      windows := Windows(baselineWindow, recentWindow, defaultThreshold);
      series, calls := map[], map[];
    }

    method Ingest(streamId: string, metricName: string, value: real, threshold: Option<real>) returns (r: Result<Series>)
      requires Invariant()
      modifies this
      ensures Invariant()
      ensures r.Ok? <==> streamId != "" && metricName != "" && (threshold.Some? ==> threshold.value > 0.0)
      ensures calls == if streamId == "" || metricName == "" then old(calls)
                       else var key := streamId + "::" + metricName;
                            old(calls)[key := CallsOf(old(calls), key) + [Call(value, threshold)]]
      ensures r.Ok? ==> r.value == Batch(windows, calls[streamId + "::" + metricName])
      // The alert, on the sums of the samples: once the baseline is full, the recent mean is too far from it.
      ensures r.Ok? ==>
                (r.value.alertActive <==>
                   && |Samples(calls[streamId + "::" + metricName])| > windows.baseline
                   && FarApart(r.value.baselineMean, Mean(r.value.recent), r.value.threshold))
    {
      hide Batch, Ingested, Summarises, NewSeries, FarApart, Samples;
      if streamId == "" {
        return Raised("stream_id must not be empty");
      }
      if metricName == "" {
        return Raised("metric_name must not be empty");
      }
      var key, call := SeriesKey(streamId, metricName), Call(value, threshold);
      SummaryStep(windows, series, calls, key, call);
      var state := if key in series then series[key] else NewSeries(windows, threshold);
      calls := calls[key := CallsOf(calls, key) + [call]];
      if Rejected(call) {
        series := series[key := state];
        return Raised("threshold must be positive");
      }
      series := series[key := Ingested(windows, state, call)];
      AlertExact(windows, calls[key]);
      r := Ok(series[key]);
    }
  }

  /** The means differ by at least the threshold, in units of the size of the baseline's, which counts as 1e-6 at least. */
  predicate FarApart(baseline: real, recent: real, threshold: real) {
    var size := if baseline >= 0.0 then baseline else -baseline;
    var unit := if size >= 0.000001 then size else 0.000001;
    recent >= baseline + threshold * unit || recent <= baseline - threshold * unit
  }

  lemma AlertExact(w: Windows, calls: seq<Call>)
    requires calls != [] && !Rejected(calls[|calls| - 1])
    ensures var state := Batch(w, calls);
      state.alertActive <==> |Samples(calls)| > w.baseline && FarApart(state.baselineMean, Mean(state.recent), state.threshold)
  {
    hide Mean, Samples, Baseline, Recent, ThresholdInForce;
    var samples := Samples(calls);
    var mean, recent := Mean(Baseline(w, samples)), Mean(Recent(w, samples));
    var unit := Max(Abs(mean), 0.000001);
    DistanceReaches(Abs(recent - mean), unit, ThresholdInForce(w, calls));
  }

  lemma DistanceReaches(distance: real, unit: real, threshold: real)
    requires unit > 0.0
    ensures distance / unit >= threshold <==> distance >= threshold * unit
  {
    assert distance / unit * unit == distance;
    var q := distance / unit;
    assert q >= threshold ==> (q - threshold) * unit >= 0.0;
    assert q < threshold ==> (threshold - q) * unit > 0.0;
  }

  function SeriesKey(streamId: string, metricName: string): string {
    streamId + "::" + metricName
  }

  function CallsOf(calls: map<string, seq<Call>>, key: string): seq<Call> {
    if key in calls then calls[key] else []
  }
}
