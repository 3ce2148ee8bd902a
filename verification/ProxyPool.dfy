/**
 The pure part of the identity allocator: proxy weights, the pool of near-best
 proxies, round-robin choice, and bounded health histories.
 */
module ProxyPool {
  import opened Seqs

  datatype Proxy = Proxy(
    endpointId: string, host: string, port: int, region: string, asnClass: string, healthScore: real)

  datatype HealthEvent = HealthEvent(
    endpointId: string, timestamp: real, success: bool, latencyMs: Option<real>, reason: string)

  function Max(a: real, b: real): real { if a >= b then a else b }

  function Min(a: real, b: real): real { if a <= b then a else b }

  function Clamp01(x: real): real {
    Max(0.0, Min(x, 1.0))
  }

  // ---------- health ----------

  function Failed(): HealthEvent -> bool {
    (event: HealthEvent) => !event.success
  }

  /** The share of failures among the last ten events. */
  function FailureRate(history: seq<HealthEvent>): real {
    var window := Suffix(history, 10);
    if window == [] then 0.0 else |Filter(Failed(), window)| as real / |window| as real
  }

  /** The length of the run of failures at the end. */
  function ConsecutiveFailures(history: seq<HealthEvent>): (n: nat)
    ensures n <= |history|
  {
    if history == [] || history[|history| - 1].success then 0
    else ConsecutiveFailures(history[..|history| - 1]) + 1
  }

  const HISTORY_LIMIT := 50

  /** The score moves a quarter of the way to its target. */
  function NextScore(score: real, success: bool, latencyMs: Option<real>): (r: real)
    ensures 0.0 <= r <= 1.0
  {
    var target :=
      if !success then 0.2
      else if latencyMs.None? then 1.0
      else Max(0.0, 1.0 - Min(Max(latencyMs.value - 350.0, 0.0) / 1000.0, 0.3));
    Clamp01(0.75 * score + 0.25 * target)
  }

  /** What an event asks the score to be: 0.2 after a failure, otherwise 1 less a penalty of up to 0.3 for slowness. */
  function TargetScore(success: bool, latencyMs: Option<real>): real {
    if !success then 0.2
    else if latencyMs.None? || latencyMs.value <= 350.0 then 1.0
    else if latencyMs.value >= 650.0 then 0.7
    else 1.0 - (latencyMs.value - 350.0) / 1000.0
  }

  /** A score keeps three quarters of itself and takes a quarter of what the event asks for. */
  lemma ScoreExact(score: real, success: bool, latencyMs: Option<real>)
    requires 0.0 <= score <= 1.0
    ensures 4.0 * NextScore(score, success, latencyMs) == 3.0 * score + TargetScore(success, latencyMs)
  {
  }

  /** Every target is a score, and a score moves between itself and the target. */
  lemma ScoreMovesTowardsTarget(score: real, success: bool, latencyMs: Option<real>)
    requires 0.0 <= score <= 1.0
    ensures 0.0 <= NextScore(score, success, latencyMs) <= 1.0
    ensures success && score <= 0.7 ==> NextScore(score, success, latencyMs) >= score
    ensures !success && score >= 0.2 ==> NextScore(score, success, latencyMs) <= score
  {
  }

  /** At least `k` failures in a row: the last `k` events are failures. */
  lemma {:induction false} ConsecutiveExact(history: seq<HealthEvent>, k: nat)
    ensures ConsecutiveFailures(history) >= k <==>
            |history| >= k && forall i | |history| - k <= i < |history| :: !history[i].success
  {
    if k > 0 && history != [] {
      var front, last := history[..|history| - 1], history[|history| - 1];
      ConsecutiveExact(front, k - 1);
      assert forall i | 0 <= i < |front| :: front[i] == history[i];
    }
  }

  /** The last three events are failures. */
  predicate ThreeFailed(history: seq<HealthEvent>) {
    |history| >= 3 && forall i | |history| - 3 <= i < |history| :: !history[i].success
  }

  lemma SuffixTrivial<T(!new)>(s: seq<T>, n: nat)
    ensures |s| <= n ==> Suffix(s, n) == s
    ensures n == 0 ==> Suffix(s, n) == []
  {
  }

  lemma SuffixEnds<T(!new)>(s: seq<T>, n: nat)
    requires 0 < n < |s|
    ensures var r := Suffix(s, n);
      && r != [] && r[|r| - 1] == s[|s| - 1] && r[..|r| - 1] == Suffix(s[..|s| - 1], n - 1)
  {
  }

  /** The last fifty events decide what the whole history would. */
  lemma {:induction false} CappedFailures(history: seq<HealthEvent>, limit: nat)
    ensures var capped, all := ConsecutiveFailures(Suffix(history, limit)), ConsecutiveFailures(history);
            capped == if all <= limit then all else limit
  {
    hide Suffix;
    if |history| <= limit || limit == 0 {
      SuffixTrivial(history, limit);
    } else {
      CappedFailures(history[..|history| - 1], limit - 1);
      SuffixEnds(history, limit);
    }
  }

  lemma CappedHistoryDecides(history: seq<HealthEvent>)
    ensures FailureRate(Suffix(history, HISTORY_LIMIT)) == FailureRate(history)
    ensures ConsecutiveFailures(Suffix(history, HISTORY_LIMIT)) >= 3 <==> ThreeFailed(history)
  {
    ConsecutiveExact(history, 3);
    SuffixOfSuffix(history, HISTORY_LIMIT, 10);
    CappedFailures(history, HISTORY_LIMIT);
  }

  // ---------- weights ----------

  datatype View = View(
    histories: map<string, seq<HealthEvent>>, regionWeights: map<string, real>, preferredRegion: string)

  function History(histories: map<string, seq<HealthEvent>>, id: string): seq<HealthEvent> {
    if id in histories then histories[id] else []
  }

  function RegionWeight(view: View, region: string): real {
    (if region in view.regionWeights then view.regionWeights[region] else 1.0)
    + (if view.preferredRegion != "" && region == view.preferredRegion then 0.1 else 0.0)
  }

  function Weight(view: View, proxy: Proxy): real {
    var penalty := Max(0.1, 1.0 - 0.75 * FailureRate(History(view.histories, proxy.endpointId)));
    proxy.healthScore * RegionWeight(view, proxy.region) * penalty
  }

  /** The last ten events, or all of them. */
  function LastTen(history: seq<HealthEvent>): (r: seq<HealthEvent>)
    ensures |history| <= 10 ==> r == history
    ensures |history| > 10 ==> |r| == 10 && history == history[..|history| - 10] + r
  {
    if |history| <= 10 then history else history[|history| - 10..]
  }

  /** How many of the last ten events are failures. */
  function LastFailures(history: seq<HealthEvent>): (f: nat)
    ensures f <= |LastTen(history)|
  {
    |Filter((event: HealthEvent) => !event.success, LastTen(history))|
  }

  /** One minus three quarters of the share of failures among the last ten events. */
  function Reliability(history: seq<HealthEvent>): real {
    if history == [] then 1.0 else 1.0 - 0.75 * LastFailures(history) as real / |LastTen(history)| as real
  }

  lemma FailureRateExact(history: seq<HealthEvent>)
    ensures history != [] ==> FailureRate(history) == LastFailures(history) as real / |LastTen(history)| as real
    ensures history == [] ==> FailureRate(history) == 0.0
    ensures 0.0 <= FailureRate(history) <= 1.0
  {
    assert Suffix(history, 10) == LastTen(history);
    FilterAgree(Failed(), (event: HealthEvent) => !event.success, LastTen(history));
    if history != [] {
      ShareInUnit(LastFailures(history), |LastTen(history)|);
    }
  }

  lemma ShareInUnit(f: nat, n: nat)
    requires f <= n && n > 0
    ensures 0.0 <= f as real / n as real <= 1.0
  {
  }

  /** What a proxy counts for: its score, the weight of its region, and how it did lately. */
  function Standing(
      histories: map<string, seq<HealthEvent>>, regionWeights: map<string, real>, preferredRegion: string, proxy: Proxy): real
  {
    var regional := if proxy.region in regionWeights then regionWeights[proxy.region] else 1.0;
    var bonus := if preferredRegion != "" && proxy.region == preferredRegion then 0.1 else 0.0;
    var history := if proxy.endpointId in histories then histories[proxy.endpointId] else [];
    proxy.healthScore * (regional + bonus) * Reliability(history)
  }

  /** The floor of the failure penalty is never reached. */
  lemma PenaltyIsReliability(history: seq<HealthEvent>)
    ensures Max(0.1, 1.0 - 0.75 * FailureRate(history)) == Reliability(history) >= 0.25
  {
    hide FailureRate, LastFailures, LastTen;
    FailureRateExact(history);
    if history != [] {
      LastTenEmpty(history);
      QuarterOff(LastFailures(history) as real, |LastTen(history)| as real);
    }
  }

  lemma QuarterOff(f: real, n: real)
    requires n > 0.0
    ensures 0.75 * (f / n) == 0.75 * f / n
  {
  }

  lemma WeightIsStanding(view: View, proxy: Proxy)
    ensures Weight(view, proxy) == Standing(view.histories, view.regionWeights, view.preferredRegion, proxy)
  {
    hide FailureRate, Reliability;
    PenaltyIsReliability(History(view.histories, proxy.endpointId));
  }

  lemma WeightSplit(view: View, proxy: Proxy)
    ensures Weight(view, proxy)
            == (proxy.healthScore * RegionWeight(view, proxy.region)) * Reliability(History(view.histories, proxy.endpointId))
  {
    hide FailureRate, Reliability, RegionWeight, History;
    PenaltyIsReliability(History(view.histories, proxy.endpointId));
  }

  /** More failures among as many recent events make a history less reliable. */
  lemma FailuresLowerReliability(h: seq<HealthEvent>, g: seq<HealthEvent>)
    requires |LastTen(h)| == |LastTen(g)| && LastFailures(h) >= LastFailures(g)
    ensures Reliability(h) <= Reliability(g)
    ensures LastFailures(h) > LastFailures(g) ==> Reliability(h) < Reliability(g)
  {
    hide LastFailures, LastTen;
    LastTenEmpty(h);
    LastTenEmpty(g);
    if h != [] {
      QuotientOrder(0.75 * LastFailures(g) as real, 0.75 * LastFailures(h) as real, |LastTen(h)| as real);
    }
  }

  /** At equal score and region, more failures among as many recent events lower the weight. */
  lemma FailuresCost(view: View, worse: Proxy, better: Proxy)
    requires worse.healthScore == better.healthScore >= 0.0 && worse.region == better.region
    requires RegionWeight(view, worse.region) >= 0.0
    requires var h, g := History(view.histories, worse.endpointId), History(view.histories, better.endpointId);
      |LastTen(h)| == |LastTen(g)| && LastFailures(h) >= LastFailures(g)
    ensures Weight(view, worse) <= Weight(view, better)
    ensures
      && LastFailures(History(view.histories, worse.endpointId)) > LastFailures(History(view.histories, better.endpointId))
      && worse.healthScore > 0.0 && RegionWeight(view, worse.region) > 0.0 ==>
        Weight(view, worse) < Weight(view, better)
  {
    hide *;
    var h, g := History(view.histories, worse.endpointId), History(view.histories, better.endpointId);
    FailuresLowerReliability(h, g);
    WeightSplit(view, worse);
    WeightSplit(view, better);
    var factor := worse.healthScore * RegionWeight(view, worse.region);
    ProductNonNegative(worse.healthScore, RegionWeight(view, worse.region));
    ProductPositive(worse.healthScore, RegionWeight(view, worse.region));
    ProductOrder(factor, Reliability(h), Reliability(g));
  }

  lemma LastTenEmpty(history: seq<HealthEvent>)
    ensures LastTen(history) == [] <==> history == []
  {
  }

  lemma QuotientOrder(a: real, b: real, n: real)
    requires n > 0.0
    ensures a <= b ==> a / n <= b / n
    ensures a < b ==> a / n < b / n
  {
  }

  lemma ProductOrder(factor: real, a: real, b: real)
    requires factor >= 0.0
    ensures a <= b ==> factor * a <= factor * b
    ensures a < b && factor > 0.0 ==> factor * a < factor * b
  {
  }

  lemma ProductPositive(a: real, b: real)
    ensures a > 0.0 && b > 0.0 ==> a * b > 0.0
  {
  }

  lemma WeightNonNegative(view: View, proxy: Proxy)
    requires proxy.healthScore >= 0.0
    requires forall region | region in view.regionWeights :: view.regionWeights[region] >= 0.0
    ensures Weight(view, proxy) >= 0.0
  {
    hide FailureRate;
    var score, regional := proxy.healthScore, RegionWeight(view, proxy.region);
    var penalty := Max(0.1, 1.0 - 0.75 * FailureRate(History(view.histories, proxy.endpointId)));
    assert regional >= 0.0 && penalty >= 0.0;
    ProductNonNegative(score, regional);
    ProductNonNegative(score * regional, penalty);
    assert Weight(view, proxy) == score * regional * penalty;
  }

  lemma ProductNonNegative(a: real, b: real)
    requires a >= 0.0 && b >= 0.0
    ensures a * b >= 0.0
  {
  }

  // ---------- the choice ----------

  predicate Quarantined(until: map<string, real>, now: real, id: string) {
    id in until && until[id] > now
  }

  function Eligible(until: map<string, real>, now: real, exclude: set<string>): Proxy -> bool {
    (proxy: Proxy) => proxy.endpointId !in exclude && !Quarantined(until, now, proxy.endpointId)
  }

  function NotExcluded(exclude: set<string>): Proxy -> bool {
    (proxy: Proxy) => proxy.endpointId !in exclude
  }

  /** The proxies to choose from: quarantined ones only when nothing else is left. */
  function Candidates(proxies: seq<Proxy>, until: map<string, real>, now: real, exclude: set<string>): seq<Proxy> {
    var healthy := Filter(Eligible(until, now, exclude), proxies);
    if healthy != [] then healthy else Filter(NotExcluded(exclude), proxies)
  }

  function HeaviestFirst(view: View): (Proxy, Proxy) -> bool {
    (a: Proxy, b: Proxy) => Weight(view, a) >= Weight(view, b)
  }

  function NearBest(view: View, top: real): Proxy -> bool {
    (proxy: Proxy) => Weight(view, proxy) >= top * 0.85
  }

  /** The candidates within 85% of the best weight, heaviest first. */
  function Pool(view: View, candidates: seq<Proxy>): seq<Proxy>
    requires candidates != []
  {
    var weighted := Sort(HeaviestFirst(view), candidates);
    Filter(NearBest(view, Weight(view, weighted[0])), weighted)
  }

  function Best(view: View, candidates: seq<Proxy>): (best: Proxy)
    requires candidates != []
    ensures best in candidates
  {
    Sort(HeaviestFirst(view), candidates)[0]
  }

  lemma BestIsHeaviest(view: View, candidates: seq<Proxy>)
    requires candidates != []
    ensures forall p | p in candidates :: Weight(view, p) <= Weight(view, Best(view, candidates))
  {
    SortSorts(HeaviestFirst(view), candidates);
    var weighted := Sort(HeaviestFirst(view), candidates);
    forall p | p in candidates ensures Weight(view, p) <= Weight(view, weighted[0]) {
      var i :| 0 <= i < |weighted| && weighted[i] == p;
      assert i > 0 ==> HeaviestFirst(view)(weighted[0], weighted[i]);
    }
  }

  /** The pool is empty, and the choice divides by zero, exactly when every candidate has a negative weight. */
  lemma PoolEmptyExact(view: View, candidates: seq<Proxy>)
    requires candidates != []
    ensures Pool(view, candidates) == [] <==> forall p | p in candidates :: Weight(view, p) < 0.0
  {
    BestIsHeaviest(view, candidates);
    var best := Best(view, candidates);
    if Weight(view, best) >= 0.0 {
      assert best in Sort(HeaviestFirst(view), candidates) && NearBest(view, Weight(view, best))(best);
      assert best in Pool(view, candidates);
    } else {
      FilterNone(NearBest(view, Weight(view, best)), Sort(HeaviestFirst(view), candidates));
    }
  }

  /** Not excluded, and quarantined only if all that are not excluded are. */
  predicate MayBePicked(proxies: seq<Proxy>, until: map<string, real>, now: real, exclude: set<string>, proxy: Proxy) {
    && proxy in proxies && proxy.endpointId !in exclude
    && (proxy.endpointId in until && until[proxy.endpointId] > now ==>
          forall p | p in proxies && p.endpointId !in exclude :: p.endpointId in until && until[p.endpointId] > now)
  }

  /** Candidates are exactly the proxies that may be picked. */
  lemma CandidatesExact(proxies: seq<Proxy>, until: map<string, real>, now: real, exclude: set<string>, proxy: Proxy)
    ensures proxy in Candidates(proxies, until, now, exclude) <==> MayBePicked(proxies, until, now, exclude, proxy)
  {
    var healthy := Filter(Eligible(until, now, exclude), proxies);
    if healthy == [] {
      forall p | p in proxies && p.endpointId !in exclude ensures p.endpointId in until && until[p.endpointId] > now {
        assert p !in healthy;
      }
    } else {
      assert healthy[0] in healthy;
    }
  }

  /** The pool holds exactly the candidates of at least 0.85 of every candidate's standing, best first. */
  lemma PoolExact(view: View, candidates: seq<Proxy>, proxy: Proxy)
    requires candidates != []
    ensures proxy in Pool(view, candidates) <==>
            && proxy in candidates
            && forall p | p in candidates ::
                 Standing(view.histories, view.regionWeights, view.preferredRegion, proxy)
                 >= 0.85 * Standing(view.histories, view.regionWeights, view.preferredRegion, p)
    ensures var pool := Pool(view, candidates);
      forall i, j | 0 <= i < j < |pool| :: Weight(view, pool[i]) >= Weight(view, pool[j])
  {
    hide Weight, Standing, Sort, Filter;
    var best := Best(view, candidates);
    BestIsHeaviest(view, candidates);
    forall p { WeightIsStanding(view, p); }
    SortSorts(HeaviestFirst(view), candidates);
    FilterSorted(HeaviestFirst(view), NearBest(view, Weight(view, best)), Sort(HeaviestFirst(view), candidates));
    forall i, j | 0 <= i < j < |Pool(view, candidates)|
      ensures Weight(view, Pool(view, candidates)[i]) >= Weight(view, Pool(view, candidates)[j])
    {
      assert HeaviestFirst(view)(Pool(view, candidates)[i], Pool(view, candidates)[j]);
    }
  }

  /** Who is picked: one that may be, of at least 0.85 of the standing of everyone who may be. */
  ghost predicate GoodPick(
      histories: map<string, seq<HealthEvent>>, regionWeights: map<string, real>, preferredRegion: string,
      proxies: seq<Proxy>, until: map<string, real>, now: real, exclude: set<string>, pick: Proxy)
  {
    && MayBePicked(proxies, until, now, exclude, pick)
    && forall p | MayBePicked(proxies, until, now, exclude, p) ::
         Standing(histories, regionWeights, preferredRegion, pick)
         >= 0.85 * Standing(histories, regionWeights, preferredRegion, p)
  }

  lemma PoolMemberIsGood(
      view: View, proxies: seq<Proxy>, until: map<string, real>, now: real, exclude: set<string>, pick: Proxy)
    requires Candidates(proxies, until, now, exclude) != []
    requires pick in Pool(view, Candidates(proxies, until, now, exclude))
    ensures GoodPick(view.histories, view.regionWeights, view.preferredRegion, proxies, until, now, exclude, pick)
  {
    hide Candidates, Pool, Standing, MayBePicked;
    var candidates := Candidates(proxies, until, now, exclude);
    PoolExact(view, candidates, pick);
    forall p ensures p in candidates <==> MayBePicked(proxies, until, now, exclude, p) {
      CandidatesExact(proxies, until, now, exclude, p);
    }
  }

  /** The picks of `count` successive choices from an unchanged pool. */
  function Picks(pool: seq<Proxy>, next: nat, count: nat): seq<Proxy>
    requires pool != []
  {
    if count == 0 then [] else Picks(pool, next, count - 1) + [pool[(next + count - 1) % |pool|]]
  }

  /** Successive picks walk the pool cyclically from where the index points. */
  lemma {:induction false} PicksAreRotation(pool: seq<Proxy>, next: nat, count: nat)
    requires pool != [] && count <= |pool|
    ensures Picks(pool, next, count) == Rotated(pool, next % |pool|, count)
  {
    hide Picks, Rotated;
    PicksStep(pool, next, count);
    if count == 0 {
      NothingRotated(pool, next % |pool|);
    } else {
      PicksAreRotation(pool, next, count - 1);
      ModStep(next, count - 1, |pool|);
      RotationStep(pool, next % |pool|, count - 1);
    }
  }

  lemma PicksStep(pool: seq<Proxy>, next: nat, count: nat)
    requires pool != []
    ensures Picks(pool, next, count) ==
            if count == 0 then [] else Picks(pool, next, count - 1) + [pool[(next + count - 1) % |pool|]]
  {
  }

  /** The part of the cycle that starts here. */
  function Rotated(pool: seq<Proxy>, start: nat, count: nat): seq<Proxy>
    requires start < |pool| && count <= |pool|
  {
    if start + count <= |pool| then pool[start..start + count] else pool[start..] + pool[..start + count - |pool|]
  }

  lemma NothingRotated(pool: seq<Proxy>, start: nat)
    requires start < |pool|
    ensures Rotated(pool, start, 0) == []
  {
  }

  lemma RotationStep(pool: seq<Proxy>, start: nat, count: nat)
    requires start < |pool| && count < |pool|
    ensures Rotated(pool, start, count + 1)
            == Rotated(pool, start, count)
               + [pool[if start + count < |pool| then start + count else start + count - |pool|]]
  {
  }

  lemma ModStep(next: nat, step: nat, n: nat)
    requires n > 0 && step < n
    ensures (next + step) % n == if next % n + step < n then next % n + step else next % n + step - n
  {
    var q, r := next / n, next % n;
    assert next + step == n * q + (r + step);
    if r + step < n {
      ModUnique(next + step, n, q, r + step);
    } else {
      ModUnique(next + step, n, q + 1, r + step - n);
    }
  }

  lemma ModUnique(x: nat, n: nat, q: int, r: int)
    requires n > 0 && x == n * q + r && 0 <= r < n
    ensures x % n == r
  {
    var d := x / n - q;
    assert n * d == r - x % n;
    assert d >= 1 ==> n * d >= n;
    assert d <= -1 ==> n * d + n <= 0;
  }

  /** As many successive picks as the pool has members choose each member exactly once. */
  lemma RoundRobin(pool: seq<Proxy>, next: nat)
    requires pool != []
    ensures multiset(Picks(pool, next, |pool|)) == multiset(pool)
  {
    var start := next % |pool|;
    PicksAreRotation(pool, next, |pool|);
    if start == 0 {
      assert pool[0..|pool|] == pool;
    } else {
      assert start + |pool| - |pool| == start;
      assert pool == pool[..start] + pool[start..];
    }
  }
}
