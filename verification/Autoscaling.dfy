/** Predictive autoscaling: signals, recommendations under a cooldown, and their spacing. */
module Autoscaling {
  import opened Seqs

  datatype Direction = Hold | ScaleUp | ScaleDown

  datatype Policy = Policy(
    policyId: string, tenantId: string, resourceType: string, resourceId: string,
    minReplicas: int, maxReplicas: int, scaleUpStep: int, scaleDownStep: int,
    queueDepthTarget: real, latencyTarget: real, lookbackWindow: int, cooldownSeconds: int,
    lastRecommendationAt: Option<real>, lastDirection: Option<Direction>, lastDesiredReplicas: Option<int>)

  datatype Sample = Sample(queueDepth: real, latency: real, observedAt: real)

  datatype Status = Status(
    sampleCount: nat, queueRecentMean: real, latencyRecentMean: real, queueTrend: real, latencyTrend: real)

  datatype Reason = WithinTargetBand | AboveTargetRising | BelowTargetFalling | CooldownActive

  datatype Recommendation = Recommendation(
    direction: Direction, current: int, boundedCurrent: int, desiredReplicas: int, reason: Reason,
    queuePressure: real, latencyPressure: real, queueTrend: real, latencyTrend: real, confidence: real,
    evaluatedAt: real)

  const SIGNAL_LIMIT := 1000

  /** What `upsert_policy` accepts. */
  predicate ValidPolicy(p: Policy) {
    && p.policyId != "" && p.tenantId != "" && p.resourceType in {"model", "worker"} && p.resourceId != ""
    && 0 < p.minReplicas <= p.maxReplicas && p.scaleUpStep > 0 && p.scaleDownStep > 0
    && p.queueDepthTarget > 0.0 && p.latencyTarget > 0.0 && p.lookbackWindow >= 2 && p.cooldownSeconds >= 0
  }

  /** The checks of `upsert_policy`, in order: exactly the valid policies pass. */
  function PolicyError(p: Policy): (r: Option<string>)
    ensures r.None? <==> ValidPolicy(p)
  {
    if p.policyId == "" then Some("policy_id must not be empty")
    else if p.tenantId == "" then Some("tenant_id must not be empty")
    else if p.resourceType !in {"model", "worker"} then Some("resource_type must be one of model|worker")
    else if p.resourceId == "" then Some("resource_id must not be empty")
    else if p.minReplicas <= 0 then Some("min_replicas must be positive")
    else if p.maxReplicas <= 0 then Some("max_replicas must be positive")
    else if p.maxReplicas < p.minReplicas then Some("max_replicas must be greater than or equal to min_replicas")
    else if p.scaleUpStep <= 0 then Some("scale_up_step must be positive")
    else if p.scaleDownStep <= 0 then Some("scale_down_step must be positive")
    else if p.queueDepthTarget <= 0.0 then Some("queue_depth_target must be positive")
    else if p.latencyTarget <= 0.0 then Some("latency_ms_target must be positive")
    else if p.lookbackWindow < 2 then Some("lookback_window must be greater than or equal to 2")
    else if p.cooldownSeconds < 0 then Some("cooldown_seconds must be non-negative")
    else None
  }

  // ---------- signals ----------

  function QueueDepths(samples: seq<Sample>): (r: seq<real>)
    ensures |r| == |samples|
    ensures forall i | 0 <= i < |r| :: r[i] == samples[i].queueDepth
  {
    seq(|samples|, i requires 0 <= i < |samples| => samples[i].queueDepth)
  }

  function Latencies(samples: seq<Sample>): (r: seq<real>)
    ensures |r| == |samples|
    ensures forall i | 0 <= i < |r| :: r[i] == samples[i].latency
  {
    seq(|samples|, i requires 0 <= i < |samples| => samples[i].latency)
  }

  function SignalStatus(p: Policy, history: seq<Sample>): Status
    requires p.lookbackWindow > 0
  {
    var recent := Suffix(history, p.lookbackWindow);
    var n := |recent|;
    Status(|history|, Mean(QueueDepths(recent)), Mean(Latencies(recent)),
           if n >= 2 then recent[n - 1].queueDepth - recent[0].queueDepth else 0.0,
           if n >= 2 then recent[n - 1].latency - recent[0].latency else 0.0)
  }

  /** The kept signals give the means and trends of the full history when the look-back fits the limit. */
  lemma KeptSignalsSuffice(p: Policy, history: seq<Sample>)
    requires 0 < p.lookbackWindow <= 1000
    ensures SignalStatus(p, Suffix(history, SIGNAL_LIMIT)) == SignalStatus(p, history).(sampleCount := |Suffix(history, SIGNAL_LIMIT)|)
  {
    SuffixOfSuffix(history, SIGNAL_LIMIT, p.lookbackWindow);
  }

  /** The samples of the look-back window at the end of the history. */
  function LookBack(p: Policy, history: seq<Sample>): seq<Sample>
    requires p.lookbackWindow > 0
  {
    if |history| > p.lookbackWindow then history[|history| - p.lookbackWindow..] else history
  }

  /** The status in terms of the samples: means and trends over the look-back window. */
  lemma StatusExact(p: Policy, history: seq<Sample>)
    requires p.lookbackWindow > 0 && history != []
    ensures var status, recent := SignalStatus(p, history), LookBack(p, history);
      && status.sampleCount == |history|
      && status.queueRecentMean * |recent| as real == Total(QueueDepths(recent))
      && status.latencyRecentMean * |recent| as real == Total(Latencies(recent))
      && (|recent| >= 2 ==> status.queueTrend == recent[|recent| - 1].queueDepth - recent[0].queueDepth
                            && status.latencyTrend == recent[|recent| - 1].latency - recent[0].latency)
      && (|recent| < 2 ==> status.queueTrend == status.latencyTrend == 0.0)
  {
    hide Total, Mean, QueueDepths, Latencies, LookBack, Suffix;
    LookBackIsSuffix(p, history);
    MeanTimesCount(QueueDepths(LookBack(p, history)));
    MeanTimesCount(Latencies(LookBack(p, history)));
  }

  lemma LookBackIsSuffix(p: Policy, history: seq<Sample>)
    requires p.lookbackWindow > 0
    ensures LookBack(p, history) == Suffix(history, p.lookbackWindow)
    ensures history != [] ==> LookBack(p, history) != []
  {
  }

  lemma MeanTimesCount(values: seq<real>)
    requires values != []
    ensures Mean(values) * |values| as real == Total(values)
  {
  }

  // ---------- one recommendation ----------

  function Max(a: int, b: int): int { if a >= b then a else b }

  function Min(a: int, b: int): int { if a <= b then a else b }

  function Denominator(target: real): (r: real)
    ensures r >= target && r >= 0.000001 && r in {target, 0.000001}
  {
    if target >= 0.000001 then target else 0.000001
  }

  function Pressure(mean: real, target: real): real {
    mean / Denominator(target)
  }

  function QueuePressure(p: Policy, s: Status): real {
    Pressure(s.queueRecentMean, p.queueDepthTarget)
  }

  function LatencyPressure(p: Policy, s: Status): real {
    Pressure(s.latencyRecentMean, p.latencyTarget)
  }

  predicate WantsUp(p: Policy, s: Status) {
    && (|| s.queueRecentMean >= 1.1 * Denominator(p.queueDepthTarget)
        || s.latencyRecentMean >= 1.1 * Denominator(p.latencyTarget))
    && (s.queueTrend > 0.0 || s.latencyTrend > 0.0)
  }

  predicate WantsDown(p: Policy, s: Status) {
    && s.queueRecentMean <= 0.7 * Denominator(p.queueDepthTarget)
    && s.latencyRecentMean <= 0.75 * Denominator(p.latencyTarget)
    && s.queueTrend <= 0.0 && s.latencyTrend <= 0.0
  }

  /** A pressure is a mean in units of its target. */
  lemma PressureReaches(mean: real, target: real, level: real)
    ensures Pressure(mean, target) >= level <==> mean >= level * Denominator(target)
    ensures Pressure(mean, target) <= level <==> mean <= level * Denominator(target)
  {
    QuotientReaches(mean, Denominator(target), level);
  }

  lemma QuotientReaches(a: real, b: real, level: real)
    requires b > 0.0
    ensures a / b >= level <==> a >= level * b
    ensures a / b <= level <==> a <= level * b
  {
    var q := a / b;
    assert q * b == a;
    assert q >= level ==> (q - level) * b >= 0.0;
    assert q <= level ==> (level - q) * b >= 0.0;
    assert q < level ==> (level - q) * b > 0.0;
    assert q > level ==> (q - level) * b > 0.0;
  }

  function Bounded(p: Policy, current: int): int {
    Max(p.minReplicas, Min(p.maxReplicas, current))
  }

  predicate CoolingDown(p: Policy, now: real) {
    p.cooldownSeconds > 0 && p.lastRecommendationAt.Some?
    && now - p.lastRecommendationAt.value < p.cooldownSeconds as real
  }

  /** The recommendation contract: within the bounds, one step at most, and only where the signals point. */
  ghost predicate Sound(p: Policy, s: Status, current: int, now: real, r: Recommendation) {
    && p.minReplicas <= r.boundedCurrent <= p.maxReplicas && r.evaluatedAt == now
    && (p.minReplicas <= current <= p.maxReplicas ==> r.boundedCurrent == current)
    && (current < p.minReplicas ==> r.boundedCurrent == p.minReplicas)
    && (current > p.maxReplicas ==> r.boundedCurrent == p.maxReplicas)
    && p.minReplicas <= r.desiredReplicas <= p.maxReplicas
    && (r.direction == Hold <==> r.desiredReplicas == r.boundedCurrent)
    && (r.direction == ScaleUp <==> r.desiredReplicas > r.boundedCurrent)
    && r.boundedCurrent - p.scaleDownStep <= r.desiredReplicas <= r.boundedCurrent + p.scaleUpStep
    // scaling happens exactly when the signals ask for it, there is room, and the policy is not cooling down
    && (r.direction == ScaleUp <==> WantsUp(p, s) && r.boundedCurrent < p.maxReplicas && !CoolingDown(p, now))
    && (r.direction == ScaleDown <==> WantsDown(p, s) && r.boundedCurrent > p.minReplicas && !CoolingDown(p, now))
    // a step is cut short only by a bound
    && (r.direction == ScaleUp ==> r.desiredReplicas in {p.maxReplicas, r.boundedCurrent + p.scaleUpStep})
    && (r.direction == ScaleDown ==> r.desiredReplicas in {p.minReplicas, r.boundedCurrent - p.scaleDownStep})
    // the reason names the direction, and the cooldown exactly when it held a scaling back
    && (r.reason == AboveTargetRising <==> r.direction == ScaleUp)
    && (r.reason == BelowTargetFalling <==> r.direction == ScaleDown)
    && (r.reason == CooldownActive <==> CoolingDown(p, now) && (|| (WantsUp(p, s) && r.boundedCurrent < p.maxReplicas)
                                                   || (WantsDown(p, s) && r.boundedCurrent > p.minReplicas)))
  }

  // ---------- what a recommendation says about the signals ----------

  function AbsReal(x: real): (r: real)
    ensures r >= 0.0
  {
    if x < 0.0 then -x else x
  }

  function MaxReal(a: real, b: real): real { if a >= b then a else b }

  function MinReal(a: real, b: real): real { if a <= b then a else b }

  function TrendDelta(p: Policy, s: Status): real {
    MaxReal(AbsReal(s.queueTrend) / Denominator(p.queueDepthTarget), AbsReal(s.latencyTrend) / Denominator(p.latencyTarget))
  }

  /** The farther the signals are from their targets, the surer the recommendation; a hold is capped. */
  function Confidence(p: Policy, s: Status, direction: Direction): real {
    var pressureDelta := MaxReal(AbsReal(QueuePressure(p, s) - 1.0), AbsReal(LatencyPressure(p, s) - 1.0));
    var confidence := MinReal(1.0, 0.45 + pressureDelta * 0.35 + TrendDelta(p, s) * 0.20);
    if direction == Hold then MinReal(confidence, 0.65) else confidence
  }

  lemma ConfidenceBounded(p: Policy, s: Status, direction: Direction)
    ensures 0.45 <= Confidence(p, s, direction) <= (if direction == Hold then 0.65 else 1.0)
  {
    hide Pressure, QueuePressure, LatencyPressure, AbsReal, Denominator;
    QuotientNonNegative(AbsReal(s.queueTrend), Denominator(p.queueDepthTarget));
    QuotientNonNegative(AbsReal(s.latencyTrend), Denominator(p.latencyTarget));
  }

  lemma QuotientNonNegative(a: real, b: real)
    requires a >= 0.0 && b > 0.0
    ensures a / b >= 0.0
  {
  }

  ghost predicate Described(p: Policy, s: Status, current: int, r: Recommendation) {
    && r.current == current
    && r.queuePressure == QueuePressure(p, s) && r.latencyPressure == LatencyPressure(p, s)
    && r.queueTrend == s.queueTrend && r.latencyTrend == s.latencyTrend
    && r.confidence == Confidence(p, s, r.direction)
    && 0.45 <= r.confidence <= (if r.direction == Hold then 0.65 else 1.0)
  }

  // ---------- spacing over whole runs ----------

  datatype Advice = Advice(time: real, direction: Direction, cooldown: int)

  /** Times never go back, and an advice to scale keeps its cooldown's distance from the one before it. */
  ghost predicate Spaced(advices: seq<Advice>) {
    forall i | 0 < i < |advices| ::
      && advices[i].time >= advices[i - 1].time
      && (advices[i].direction != Hold ==> advices[i].time - advices[i - 1].time >= advices[i].cooldown as real)
  }

  /** An advice to scale comes at least its cooldown after every earlier advice, holds included. */
  lemma {:induction false} ScalingApart(advices: seq<Advice>, i: nat, j: nat)
    requires Spaced(advices) && i < j < |advices|
    ensures advices[j].time >= advices[i].time
    ensures advices[j].direction != Hold ==> advices[j].time - advices[i].time >= advices[j].cooldown as real
  {
    if i < j - 1 {
      ScalingApart(advices, i, j - 1);
    }
  }

  /** Because holds restart the cooldown too, asking more often than the cooldown never scales again. */
  lemma FrequentAskingStarves(advices: seq<Advice>, cooldown: int)
    requires Spaced(advices)
    requires forall i | 0 <= i < |advices| :: advices[i].cooldown == cooldown
    requires forall i | 0 < i < |advices| :: advices[i].time - advices[i - 1].time < cooldown as real
    ensures forall i | 0 < i < |advices| :: advices[i].direction == Hold
  {
    forall i | 0 < i < |advices| ensures advices[i].direction == Hold {
      ScalingApart(advices, i - 1, i);
    }
  }

  function AdvicesOf(advices: map<string, seq<Advice>>, id: string): seq<Advice> {
    if id in advices then advices[id] else []
  }

  ghost predicate Recorded(p: Policy, advices: seq<Advice>, clock: real) {
    && ValidPolicy(p) && Spaced(advices)
    && (if advices == [] then p.lastRecommendationAt.None?
        else p.lastRecommendationAt == Some(advices[|advices| - 1].time) && advices[|advices| - 1].time <= clock)
  }

  lemma AdviceKeepsSpacing(p: Policy, advices: seq<Advice>, clock: real, s: Status, current: int, r: Recommendation, now: real)
    requires Recorded(p, advices, clock) && now >= clock && Sound(p, s, current, now, r)
    ensures Recorded(p.(lastRecommendationAt := Some(now), lastDirection := Some(r.direction),
                        lastDesiredReplicas := Some(r.desiredReplicas)),
                     advices + [Advice(now, r.direction, p.cooldownSeconds)], now)
  {
    hide WantsUp, WantsDown;
  }

  ghost predicate Consistent(policies: map<string, Policy>, advices: map<string, seq<Advice>>, clock: real) {
    && advices.Keys <= policies.Keys
    && forall id | id in policies :: policies[id].policyId == id && Recorded(policies[id], AdvicesOf(advices, id), clock)
  }

  function Advised(p: Policy, r: Recommendation, now: real): Policy {
    p.(lastRecommendationAt := Some(now), lastDirection := Some(r.direction), lastDesiredReplicas := Some(r.desiredReplicas))
  }

  lemma AdviceStep(
      policies: map<string, Policy>, advices: map<string, seq<Advice>>, clock: real, id: string,
      s: Status, current: int, r: Recommendation, now: real)
    requires Consistent(policies, advices, clock) && id in policies && now >= clock
    requires Sound(policies[id], s, current, now, r)
    ensures Consistent(policies[id := Advised(policies[id], r, now)],
                       advices[id := AdvicesOf(advices, id) + [Advice(now, r.direction, policies[id].cooldownSeconds)]], now)
  {
    AdviceKeepsSpacing(policies[id], AdvicesOf(advices, id), clock, s, current, r, now);
    ClockAdvances(policies, advices, clock, now);
    hide Recorded, Sound;
  }

  lemma ClockAdvances(policies: map<string, Policy>, advices: map<string, seq<Advice>>, clock: real, now: real)
    requires now >= clock && Consistent(policies, advices, clock)
    ensures Consistent(policies, advices, now)
  {
  }

  lemma PolicyIsValid(policies: map<string, Policy>, advices: map<string, seq<Advice>>, clock: real, id: string)
    requires Consistent(policies, advices, clock) && id in policies
    ensures ValidPolicy(policies[id]) && policies[id].lookbackWindow > 0
  {
  }

  /** The kept signals are the ends of the full ones. */
  ghost predicate KeepsEnds(kept: map<string, seq<Sample>>, full: map<string, seq<Sample>>) {
    forall id :: SignalsOf(kept, id) == Suffix(SignalsOf(full, id), SIGNAL_LIMIT)
  }

  lemma EndsAfterSignal(kept: map<string, seq<Sample>>, full: map<string, seq<Sample>>, id: string, sample: Sample)
    requires KeepsEnds(kept, full)
    ensures KeepsEnds(kept[id := Suffix(SignalsOf(kept, id) + [sample], SIGNAL_LIMIT)],
                      full[id := SignalsOf(full, id) + [sample]])
  {
    SuffixAppend(SignalsOf(full, id), sample, SIGNAL_LIMIT);
    var kept', full' := kept[id := Suffix(SignalsOf(kept, id) + [sample], SIGNAL_LIMIT)], full[id := SignalsOf(full, id) + [sample]];
    forall x ensures SignalsOf(kept', x) == Suffix(SignalsOf(full', x), SIGNAL_LIMIT) {
      assert SignalsOf(kept, x) == Suffix(SignalsOf(full, x), SIGNAL_LIMIT);
    }
  }

  class PredictiveAutoscalingService {
    var policies: map<string, Policy>
    var signals: map<string, seq<Sample>>
    ghost var allSignals: map<string, seq<Sample>>
    ghost var advices: map<string, seq<Advice>>
    ghost var clock: real

    ghost predicate Invariant()
      reads this
    {
      Consistent(policies, advices, clock) && KeepsEnds(signals, allSignals)
    }

    constructor (clock: real)
      ensures Invariant() && policies == map[] && signals == map[] && advices == map[] && this.clock == clock
    {
      policies, signals, allSignals, advices, this.clock := map[], map[], map[], map[], clock;
    }

    /** A re-upsert keeps what the policy last recommended. */
    method UpsertPolicy(arguments: Policy) returns (r: Result<Policy>)
      requires Invariant()
      modifies this`policies
      ensures Invariant()
      ensures r.Ok? <==> ValidPolicy(arguments)
      ensures r.Raised? ==> policies == old(policies) && PolicyError(arguments) == Some(r.error)
      ensures r.Ok? ==>
                && policies == old(policies)[arguments.policyId := r.value]
                && r.value == if arguments.policyId !in old(policies)
                              then arguments.(lastRecommendationAt := None, lastDirection := None, lastDesiredReplicas := None)
                              else var last := old(policies)[arguments.policyId];
                                   arguments.(lastRecommendationAt := last.lastRecommendationAt,
                                              lastDirection := last.lastDirection,
                                              lastDesiredReplicas := last.lastDesiredReplicas)
    {
      hide Spaced, Suffix, PolicyError;
      var error := PolicyError(arguments);
      if error.Some? {
        return Raised(error.value);
      }
      NoAdvice();
      var id := arguments.policyId;
      var policy := arguments.(lastRecommendationAt := None, lastDirection := None, lastDesiredReplicas := None);
      if id in policies {
        var last := policies[id];
        policy := arguments.(lastRecommendationAt := last.lastRecommendationAt, lastDirection := last.lastDirection,
                             lastDesiredReplicas := last.lastDesiredReplicas);
      }
      policies := policies[id := policy];
      r := Ok(policy);
    }

    method IngestSignal(policyId: string, tenantId: string, queueDepth: real, latency: real, observedAt: real)
      returns (r: Result<Status>)
      requires Invariant()
      modifies this`signals, this`allSignals
      ensures Invariant()
      ensures r.Ok? <==> Owns(policyId, tenantId) && queueDepth >= 0.0 && latency >= 0.0
      ensures r.Raised? ==> signals == old(signals) && allSignals == old(allSignals)
      ensures r.Ok? ==>
                && allSignals == old(allSignals)[policyId := SignalsOf(old(allSignals), policyId)
                                                             + [Sample(queueDepth, latency, observedAt)]]
                // only the last thousand signals are kept
                && (var all := SignalsOf(old(signals), policyId) + [Sample(queueDepth, latency, observedAt)];
                    signals == old(signals)[policyId := if |all| <= 1000 then all else all[|all| - 1000..]])
                && policies[policyId].lookbackWindow > 0
                && r.value == SignalStatus(policies[policyId], SignalsOf(signals, policyId))
    {
      hide Consistent, KeepsEnds, SignalStatus, ValidPolicy;
      var error := AccessError(policyId, tenantId);
      if error.Some? {
        return Raised(error.value);
      }
      if queueDepth < 0.0 {
        return Raised("queue_depth must be non-negative");
      }
      if latency < 0.0 {
        return Raised("latency_ms must be non-negative");
      }
      PolicyIsValid(policies, advices, clock, policyId);
      var sample := Sample(queueDepth, latency, observedAt);
      EndsAfterSignal(signals, allSignals, policyId, sample);
      signals := signals[policyId := Suffix(SignalsOf(signals, policyId) + [sample], SIGNAL_LIMIT)];
      allSignals := allSignals[policyId := SignalsOf(allSignals, policyId) + [sample]];
      r := Ok(SignalStatus(policies[policyId], signals[policyId]));
    }

    predicate Owns(policyId: string, tenantId: string)
      reads this`policies
    {
      && policyId != "" && tenantId != "" && policyId in policies && policies[policyId].tenantId == tenantId
    }

    /** The checks before any access to a policy: exactly the owner of a known policy passes. */
    function AccessError(policyId: string, tenantId: string): (r: Option<string>)
      reads this`policies
      ensures r.None? <==> Owns(policyId, tenantId)
    {
      if policyId == "" then Some("policy_id must not be empty")
      else if tenantId == "" then Some("tenant_id must not be empty")
      else if policyId !in policies then Some("policy not found")
      else if policies[policyId].tenantId != tenantId then Some("policy does not belong to tenant")
      else None
    }

    method Recommend(policyId: string, tenantId: string, currentReplicas: int, now: real) returns (r: Result<Recommendation>)
      requires Invariant() && now >= clock
      modifies this`policies, this`advices, this`clock
      ensures Invariant() && clock == now
      ensures r.Ok? <==> old(Owns(policyId, tenantId)) && SignalsOf(signals, policyId) != [] && currentReplicas >= 0
      ensures r.Raised? ==> policies == old(policies) && advices == old(advices)
      ensures r.Ok? ==>
                var p := old(policies)[policyId];
                && p.lookbackWindow > 0
                && Sound(p, SignalStatus(p, SignalsOf(signals, policyId)), currentReplicas, now, r.value)
                && Described(p, SignalStatus(p, SignalsOf(signals, policyId)), currentReplicas, r.value)
                && policies == old(policies)[policyId := p.(lastRecommendationAt := Some(now),
                                                            lastDirection := Some(r.value.direction),
                                                            lastDesiredReplicas := Some(r.value.desiredReplicas))]
                && advices == old(advices)[policyId := AdvicesOf(old(advices), policyId)
                                                       + [Advice(now, r.value.direction, p.cooldownSeconds)]]
    {
      hide Consistent, KeepsEnds, Recorded, Sound, Described, Suffix, SignalStatus, ValidPolicy;
      ClockAdvances(policies, advices, clock, now);
      clock := now;
      var error := AccessError(policyId, tenantId);
      if error.Some? {
        return Raised(error.value);
      }
      if SignalsOf(signals, policyId) == [] {
        return Raised("at least one signal sample is required before recommendation");
      }
      if currentReplicas < 0 {
        return Raised("current_replicas must be non-negative");
      }
      var p := policies[policyId];
      PolicyIsValid(policies, advices, now, policyId);
      var status := SignalStatus(p, SignalsOf(signals, policyId));
      var recommendation := Decide(p, status, currentReplicas, now);
      AdviceStep(policies, advices, now, policyId, status, currentReplicas, recommendation, now);
      policies := policies[policyId := Advised(p, recommendation, now)];
      advices := advices[policyId := AdvicesOf(advices, policyId)
                                     + [Advice(now, recommendation.direction, p.cooldownSeconds)]];
      r := Ok(recommendation);
    }

    /** The decision itself. */
    method Decide(p: Policy, s: Status, current: int, now: real) returns (r: Recommendation)
      requires ValidPolicy(p)
      ensures Sound(p, s, current, now, r) && Described(p, s, current, r)
    {
      hide Pressure, Denominator, AbsReal, Confidence;
      var boundedCurrent := Bounded(p, current);
      var queuePressure := s.queueRecentMean / Denominator(p.queueDepthTarget);
      var latencyPressure := s.latencyRecentMean / Denominator(p.latencyTarget);
      PressuresExplained(p, s);
      var shouldScaleUp := (queuePressure >= 1.1 || latencyPressure >= 1.1) && (s.queueTrend > 0.0 || s.latencyTrend > 0.0);
      var shouldScaleDown := (queuePressure <= 0.7 && latencyPressure <= 0.75) && (s.queueTrend <= 0.0 && s.latencyTrend <= 0.0);
      var direction, desiredReplicas, reason := Hold, boundedCurrent, WithinTargetBand;
      if shouldScaleUp && boundedCurrent < p.maxReplicas {
        direction, desiredReplicas := ScaleUp, Min(p.maxReplicas, boundedCurrent + p.scaleUpStep);
        reason := AboveTargetRising;
      } else if shouldScaleDown && boundedCurrent > p.minReplicas {
        direction, desiredReplicas := ScaleDown, Max(p.minReplicas, boundedCurrent - p.scaleDownStep);
        reason := BelowTargetFalling;
      }
      if direction != Hold && p.cooldownSeconds > 0 && p.lastRecommendationAt.Some? {
        var elapsed := now - p.lastRecommendationAt.value;
        if elapsed < p.cooldownSeconds as real {
          direction, desiredReplicas, reason := Hold, boundedCurrent, CooldownActive;
        }
      }
      var pressureDelta := MaxReal(AbsReal(queuePressure - 1.0), AbsReal(latencyPressure - 1.0));
      var trendDelta := MaxReal(AbsReal(s.queueTrend) / Denominator(p.queueDepthTarget),
                                AbsReal(s.latencyTrend) / Denominator(p.latencyTarget));
      var confidence := MinReal(1.0, 0.45 + pressureDelta * 0.35 + trendDelta * 0.20);
      if direction == Hold {
        confidence := MinReal(confidence, 0.65);
      }
      ConfidenceBounded(p, s, direction);
      ConfidenceExplained(p, s, direction);
      r := Recommendation(direction, current, boundedCurrent, desiredReplicas, reason, queuePressure, latencyPressure,
                          s.queueTrend, s.latencyTrend, confidence, now);
    }
  }

  /** The pressures against the bands in which nothing is to be done. */
  lemma PressuresExplained(p: Policy, s: Status)
    ensures QueuePressure(p, s) == s.queueRecentMean / Denominator(p.queueDepthTarget)
    ensures LatencyPressure(p, s) == s.latencyRecentMean / Denominator(p.latencyTarget)
    ensures QueuePressure(p, s) >= 1.1 <==> s.queueRecentMean >= 1.1 * Denominator(p.queueDepthTarget)
    ensures LatencyPressure(p, s) >= 1.1 <==> s.latencyRecentMean >= 1.1 * Denominator(p.latencyTarget)
    ensures QueuePressure(p, s) <= 0.7 <==> s.queueRecentMean <= 0.7 * Denominator(p.queueDepthTarget)
    ensures LatencyPressure(p, s) <= 0.75 <==> s.latencyRecentMean <= 0.75 * Denominator(p.latencyTarget)
  {
    PressureReaches(s.queueRecentMean, p.queueDepthTarget, 1.1);
    PressureReaches(s.latencyRecentMean, p.latencyTarget, 1.1);
    PressureReaches(s.queueRecentMean, p.queueDepthTarget, 0.7);
    PressureReaches(s.latencyRecentMean, p.latencyTarget, 0.75);
  }

  lemma ConfidenceExplained(p: Policy, s: Status, direction: Direction)
    ensures var pressureDelta := MaxReal(AbsReal(QueuePressure(p, s) - 1.0), AbsReal(LatencyPressure(p, s) - 1.0));
            var trendDelta := MaxReal(AbsReal(s.queueTrend) / Denominator(p.queueDepthTarget),
                                      AbsReal(s.latencyTrend) / Denominator(p.latencyTarget));
            var confidence := MinReal(1.0, 0.45 + pressureDelta * 0.35 + trendDelta * 0.20);
            Confidence(p, s, direction) == if direction == Hold then MinReal(confidence, 0.65) else confidence
  {
  }

  function SignalsOf(signals: map<string, seq<Sample>>, id: string): seq<Sample> {
    if id in signals then signals[id] else []
  }

  lemma NoAdvice()
    ensures Spaced([])
  {
  }
}
