/** The identity allocator: sticky sessions, rotation, proxy health, quarantine and the persisted pool. */
module Identity {
  import opened Seqs
  import opened Dicts
  import opened ProxyPool

  datatype Bundle = Bundle(
    bundleId: string, proxy: Proxy, timezone: string, locale: string, language: string, behaviorProfileId: string)

  datatype RotationReason = Manual | RiskThreshold | ProxyUnhealthy | Policy

  datatype RotationEvent = RotationEvent(
    sessionId: string, fromProxyId: string, toProxyId: string, reason: RotationReason, timestamp: real,
    riskScore: Option<real>)

  datatype Snapshot = Snapshot(
    proxies: seq<Proxy>, healthHistory: map<string, seq<HealthEvent>>, quarantinedUntil: map<string, real>)

  /** The persistence adapter: it remembers the last snapshot it was given. */
  class InMemoryProxyPoolStore {
    var snapshot: Option<Snapshot>

    constructor ()
      ensures snapshot == None
    {
      snapshot := None;
    }
  }

  /** The reasons for which a rotation quarantines the proxy it leaves. */
  predicate Quarantines(reason: RotationReason) {
    reason in {RiskThreshold, ProxyUnhealthy}
  }

  function RegionToTimezone(region: string): string {
    if region == "us-east" then "America/New_York"
    else if region == "us-west" then "America/Los_Angeles"
    else if region == "eu-central" then "Europe/Berlin"
    else if region == "ap-south" then "Asia/Kolkata"
    else "UTC"
  }

  function RegionToLocale(region: string): string {
    if region == "eu-central" then "de_DE" else if region == "ap-south" then "en_IN" else "en_US"
  }

  function BuildBundle(proxy: Proxy, sessionId: string, behaviorProfileId: string): (bundle: Bundle)
    ensures bundle.proxy == proxy
  {
    var locale := RegionToLocale(proxy.region);
    Bundle("bundle-" + sessionId + "-" + proxy.endpointId, proxy, RegionToTimezone(proxy.region), locale,
           locale[..2], behaviorProfileId)
  }

  /** The parts of a bundle fit together: region, timezone, locale and the language of the locale. */
  lemma BundleCoherent(proxy: Proxy, sessionId: string, behaviorProfileId: string)
    ensures var b := BuildBundle(proxy, sessionId, behaviorProfileId);
      && b.bundleId == "bundle-" + sessionId + "-" + proxy.endpointId && b.behaviorProfileId == behaviorProfileId
      && (proxy.region == "us-east" <==> b.timezone == "America/New_York")
      && (proxy.region == "us-west" <==> b.timezone == "America/Los_Angeles")
      && (proxy.region == "eu-central" <==> b.timezone == "Europe/Berlin")
      && (proxy.region == "ap-south" <==> b.timezone == "Asia/Kolkata")
      && (b.timezone == "UTC" <==> proxy.region !in {"us-east", "us-west", "eu-central", "ap-south"})
      && (b.timezone == "Europe/Berlin" <==> b.locale == "de_DE")
      && (b.timezone == "Asia/Kolkata" <==> b.locale == "en_IN")
      && b.locale in {"de_DE", "en_IN", "en_US"} && b.locale[..2] == b.language && b.locale[2] == '_'
  {
    TimezonesDiffer();
    assert "de_DE"[..2] == "de" && "en_IN"[..2] == "en" && "en_US"[..2] == "en";
    assert "de_DE"[0] != "en_IN"[0] && "en_IN"[3] != "en_US"[3];
  }

  lemma TimezonesDiffer()
    ensures Seqs.Distinct(["America/New_York", "America/Los_Angeles", "Europe/Berlin", "Asia/Kolkata", "UTC"])
  {
    var zones := ["America/New_York", "America/Los_Angeles", "Europe/Berlin", "Asia/Kolkata", "UTC"];
    assert |zones[0]| == 16 && |zones[1]| == 19 && |zones[2]| == 13 && |zones[3]| == 12 && |zones[4]| == 3;
    assert forall i, j | 0 <= i < j < |zones| :: |zones[i]| != |zones[j]|;
  }

  function EndpointId(proxy: Proxy): string {
    proxy.endpointId
  }

  // ---------- the pool as a dictionary ----------

  ghost predicate ValidPool(pool: Dict<string, Proxy>) {
    Valid(pool) && Keyed(pool, EndpointId) && pool.order != []
  }

  lemma PoolKey(pool: Dict<string, Proxy>, id: string)
    requires ValidPool(pool) && id in pool.entries
    ensures pool.entries[id].endpointId == id
  {
  }

  ghost predicate ScoresIn(pool: Dict<string, Proxy>) {
    forall id | id in pool.entries :: 0.0 <= pool.entries[id].healthScore <= 1.0
  }

  lemma PoolAfterScore(pool: Dict<string, Proxy>, id: string, score: real)
    requires ValidPool(pool) && id in pool.entries && 0.0 <= score <= 1.0
    ensures var scored := Put(pool, id, pool.entries[id].(healthScore := score));
            ValidPool(scored) && scored.entries.Keys == pool.entries.Keys && (ScoresIn(pool) ==> ScoresIn(scored))
  {
  }

  /** `{proxy.endpoint_id: proxy for proxy in proxies}`. */
  function ById(proxies: seq<Proxy>): (d: Dict<string, Proxy>)
    ensures Valid(d) && Keyed(d, EndpointId)
    ensures proxies != [] ==> d.order != []
  {
    if proxies == [] then Empty()
    else Put(ById(proxies[..|proxies| - 1]), proxies[|proxies| - 1].endpointId, proxies[|proxies| - 1])
  }

  lemma ByIdIsPool(proxies: seq<Proxy>)
    requires proxies != []
    ensures ValidPool(ById(proxies))
  {
  }

  /** A dictionary is rebuilt from the list of its values. */
  lemma {:induction false} ByIdOfValues(order: seq<string>, entries: map<string, Proxy>)
    requires Distinct(order) && forall k | k in order :: k in entries && entries[k].endpointId == k
    ensures var d := ById(Select(order, entries));
            d.order == order && d.entries == map k | k in order :: entries[k]
  {
    hide ById, Valid, Keyed, Select;
    if order == [] {
      ByIdOfNone();
      assert Select(order, entries) == [];
    } else {
      var front, last := order[..|order| - 1], order[|order| - 1];
      assert order == front + [last] && last !in front;
      ByIdOfValues(front, entries);
      SelectSnoc(front, last, entries);
      ByIdSnoc(Select(front, entries), entries[last]);
      assert last !in ById(Select(front, entries)).entries;
    }
  }

  lemma ByIdOfNone()
    ensures ById([]) == Empty()
  {
  }

  lemma ByIdSnoc(proxies: seq<Proxy>, proxy: Proxy)
    ensures ById(proxies + [proxy]) == Put(ById(proxies), proxy.endpointId, proxy)
  {
    assert (proxies + [proxy])[..|proxies|] == proxies;
  }

  lemma RebuiltPool(d: Dict<string, Proxy>)
    requires Valid(d) && Keyed(d, EndpointId)
    ensures ById(Values(d)) == d
  {
    hide ById;
    assert forall k :: k in d.order <==> k in (set x | x in d.order);
    ByIdOfValues(d.order, d.entries);
    assert d.entries == map k | k in d.order :: d.entries[k];
  }

  /** The kept history is an end of the full one, of at least `HISTORY_LIMIT` events where there are as many. */
  predicate IsEnd(kept: seq<HealthEvent>, full: seq<HealthEvent>) {
    && |kept| <= |full| && kept == full[|full| - |kept|..]
    && (|kept| >= HISTORY_LIMIT || kept == full)
  }

  /** The kept histories are ends of the full ones. */
  ghost predicate KeepsEnds(kept: map<string, seq<HealthEvent>>, full: map<string, seq<HealthEvent>>) {
    forall id :: IsEnd(History(kept, id), History(full, id))
  }

  /** The full history that a stored one stands for: the log it is the end of, or else itself. */
  ghost function KnownHistory(stored: map<string, seq<HealthEvent>>, log: map<string, seq<HealthEvent>>): map<string, seq<HealthEvent>> {
    if KeepsEnds(stored, log) then log else stored
  }

  lemma KnownHistoryKept(stored: map<string, seq<HealthEvent>>, log: map<string, seq<HealthEvent>>)
    ensures KeepsEnds(stored, KnownHistory(stored, log))
  {
    assert KeepsEnds(stored, stored);
  }

  /** What the last `n` events decide can be read off either history. */
  lemma EndDecides(kept: seq<HealthEvent>, full: seq<HealthEvent>, n: nat)
    requires IsEnd(kept, full) && n <= HISTORY_LIMIT
    ensures Suffix(kept, n) == Suffix(full, n)
  {
  }

  lemma NothingKept()
    ensures KeepsEnds(map[], map[])
  {
  }

  function Extended(histories: map<string, seq<HealthEvent>>, id: string, event: HealthEvent): map<string, seq<HealthEvent>> {
    histories[id := History(histories, id) + [event]]
  }

  lemma EndsAfterCut(kept: map<string, seq<HealthEvent>>, full: map<string, seq<HealthEvent>>, id: string, all: seq<HealthEvent>)
    requires KeepsEnds(kept, full)
    ensures KeepsEnds(kept[id := Suffix(all, HISTORY_LIMIT)], full[id := all])
  {
    hide IsEnd;
    var kept', full' := kept[id := Suffix(all, HISTORY_LIMIT)], full[id := all];
    SuffixIsEnd(all);
    forall x ensures IsEnd(History(kept', x), History(full', x)) {
      assert IsEnd(History(kept, x), History(full, x));
    }
  }

  lemma SuffixIsEnd(all: seq<HealthEvent>)
    ensures IsEnd(Suffix(all, HISTORY_LIMIT), all)
  {
  }

  /** The kept history after one more event. */
  function Cut(kept: map<string, seq<HealthEvent>>, id: string, event: HealthEvent): seq<HealthEvent> {
    Suffix(History(kept, id) + [event], HISTORY_LIMIT)
  }

  /** Appending and cutting keeps the end of the full history. */
  lemma CutIsEnd(kept: map<string, seq<HealthEvent>>, full: map<string, seq<HealthEvent>>, id: string, event: HealthEvent)
    requires KeepsEnds(kept, full)
    ensures Cut(kept, id, event) == Suffix(History(full, id) + [event], HISTORY_LIMIT)
  {
    var before, all := History(kept, id), History(full, id);
    assert IsEnd(before, all);
    assert IsEnd(before + [event], all + [event]);
    EndDecides(before + [event], all + [event], HISTORY_LIMIT);
  }

  /** The cut history decides about the quarantine like the full one. */
  lemma EndsAfterEvent(kept: map<string, seq<HealthEvent>>, full: map<string, seq<HealthEvent>>, id: string, event: HealthEvent)
    requires KeepsEnds(kept, full)
    ensures KeepsEnds(kept[id := Cut(kept, id, event)], Extended(full, id, event))
    ensures ConsecutiveFailures(Cut(kept, id, event)) >= 3 <==> ThreeFailed(Extended(full, id, event)[id])
  {
    CutIsEnd(kept, full, id, event);
    hide KeepsEnds, Cut, Suffix, ConsecutiveFailures, FailureRate, ThreeFailed;
    var all := History(full, id) + [event];
    EndsAfterCut(kept, full, id, all);
    CappedHistoryDecides(all);
  }

  /** The candidates are who may be picked, each of its standing. */
  lemma ChoicesExplained(view: View, proxies: seq<Proxy>, until: map<string, real>, now: real, exclude: set<string>)
    ensures forall p :: p in Candidates(proxies, until, now, exclude) <==> MayBePicked(proxies, until, now, exclude, p)
    ensures forall p | MayBePicked(proxies, until, now, exclude, p) :: p in proxies
    ensures forall p :: Weight(view, p) == Standing(view.histories, view.regionWeights, view.preferredRegion, p)
  {
    forall p ensures p in Candidates(proxies, until, now, exclude) <==> MayBePicked(proxies, until, now, exclude, p) {
      CandidatesExact(proxies, until, now, exclude, p);
    }
    forall p { WeightIsStanding(view, p); }
  }

  /** The standing of a proxy is the same by the kept and by the full histories. */
  lemma StandingByFullHistory(
      kept: map<string, seq<HealthEvent>>, full: map<string, seq<HealthEvent>>, regionWeights: map<string, real>,
      preferredRegion: string, proxy: Proxy)
    requires KeepsEnds(kept, full)
    ensures Standing(kept, regionWeights, preferredRegion, proxy) == Standing(full, regionWeights, preferredRegion, proxy)
  {
    hide Weight, Standing, KeepsEnds;
    KeptHistoriesGiveFullWeights(kept, full, regionWeights, preferredRegion, proxy);
    WeightIsStanding(View(kept, regionWeights, preferredRegion), proxy);
    WeightIsStanding(View(full, regionWeights, preferredRegion), proxy);
  }

  lemma GoodByFullHistory(
      kept: map<string, seq<HealthEvent>>, full: map<string, seq<HealthEvent>>, regionWeights: map<string, real>,
      preferredRegion: string, proxies: seq<Proxy>, until: map<string, real>, now: real, exclude: set<string>, pick: Proxy)
    requires KeepsEnds(kept, full)
    requires GoodPick(kept, regionWeights, preferredRegion, proxies, until, now, exclude, pick)
    ensures GoodPick(full, regionWeights, preferredRegion, proxies, until, now, exclude, pick)
    ensures pick in proxies && pick.endpointId !in exclude
  {
    hide Standing, KeepsEnds;
    forall p { StandingByFullHistory(kept, full, regionWeights, preferredRegion, p); }
  }

  /** Whether there is a turn to take, and who takes it. */
  lemma TurnIsGood(
      kept: map<string, seq<HealthEvent>>, full: map<string, seq<HealthEvent>>, regionWeights: map<string, real>,
      preferredRegion: string, proxies: seq<Proxy>, until: map<string, real>, now: real, exclude: set<string>, index: nat)
    requires KeepsEnds(kept, full)
    ensures var view, choices := View(kept, regionWeights, preferredRegion), Candidates(proxies, until, now, exclude);
      && (Pickable(kept, regionWeights, preferredRegion, proxies, until, now, exclude) <==>
            choices != [] && Pool(view, choices) != [])
      && (choices != [] && Pool(view, choices) != [] ==>
            var pick := Pool(view, choices)[index % |Pool(view, choices)|];
            && GoodPick(full, regionWeights, preferredRegion, proxies, until, now, exclude, pick)
            && pick in proxies && pick.endpointId !in exclude)
  {
    hide Weight, Standing, MayBePicked, Candidates, Pool, KeepsEnds, GoodPick;
    var view, choices := View(kept, regionWeights, preferredRegion), Candidates(proxies, until, now, exclude);
    ChoicesExplained(view, proxies, until, now, exclude);
    if choices != [] {
      PoolEmptyExact(view, choices);
      if Pool(view, choices) != [] {
        var pick := Pool(view, choices)[index % |Pool(view, choices)|];
        PoolMemberIsGood(view, proxies, until, now, exclude, pick);
        GoodByFullHistory(kept, full, regionWeights, preferredRegion, proxies, until, now, exclude, pick);
      }
    }
  }

  /** Someone may be picked whose standing is not negative. */
  predicate Pickable(
      histories: map<string, seq<HealthEvent>>, regionWeights: map<string, real>, preferredRegion: string,
      proxies: seq<Proxy>, until: map<string, real>, now: real, exclude: set<string>)
  {
    exists p | p in proxies :: MayBePicked(proxies, until, now, exclude, p)
                               && Standing(histories, regionWeights, preferredRegion, p) >= 0.0
  }

  function Remaining(until: map<string, real>, now: real): map<string, real> {
    map id | id in until && until[id] > now :: until[id]
  }

  lemma RemainingFacts(until: map<string, real>, now: real)
    ensures Remaining(Remaining(until, now), now) == Remaining(until, now)
    ensures forall id :: Quarantined(Remaining(until, now), now, id) == Quarantined(until, now, id)
  {
  }

  class IdentityAllocator {
    const store: InMemoryProxyPoolStore?
    const regionWeights: map<string, real>
    const stickyWindowSeconds: int
    const quarantineWindowSeconds: int
    var proxiesById: Dict<string, Proxy>
    var healthHistory: map<string, seq<HealthEvent>>
    var quarantinedUntil: map<string, real>
    var stickyProxyBySession: map<string, (string, real)>
    var rotationAudit: seq<RotationEvent>
    var nextIndex: nat
    // Everything that was ever recorded about each proxy.
    ghost var fullHistory: map<string, seq<HealthEvent>>

    ghost predicate Invariant()
      reads this
    {
      && ValidPool(proxiesById)
      // the kept histories are the ends of the full ones
      && KeepsEnds(healthHistory, fullHistory)
      && (forall s | s in stickyProxyBySession :: stickyProxyBySession[s].0 in proxiesById.entries)
    }

    /** The live pool. */
    function Live(): Snapshot
      requires ValidPool(proxiesById)
      reads this`proxiesById, this`healthHistory, this`quarantinedUntil
    {
      Snapshot(Values(proxiesById), healthHistory, quarantinedUntil)
    }

    /** The store, if there is one, holds the live pool. */
    ghost predicate Synced()
      requires ValidPool(proxiesById)
      reads this`proxiesById, this`healthHistory, this`quarantinedUntil, store
    {
      store != null ==> store.snapshot == Some(Live())
    }

    method PersistPool()
      requires ValidPool(proxiesById)
      modifies store
      ensures Synced()
    {
      if store == null {
        return;
      }
      store.snapshot := Some(Live());
    }

    /**
     Starts from the stored pool when there is one, otherwise from the given proxies.
     `log` is what had been recorded before; a stored history that is no end of it counts
     as all that is known.
     */
    constructor (
        proxies: seq<Proxy>, store: InMemoryProxyPoolStore?, regionWeights: map<string, real>,
        stickyWindowSeconds: int, quarantineWindowSeconds: int, ghost log: map<string, seq<HealthEvent>>)
      requires proxies != []
      modifies store
      ensures Invariant() && Synced()
      ensures this.store == store && this.regionWeights == regionWeights
      ensures if store != null && old(store.snapshot).Some? && old(store.snapshot).value.proxies != [] then
                && proxiesById == ById(old(store.snapshot).value.proxies)
                && healthHistory == old(store.snapshot).value.healthHistory
                && quarantinedUntil == old(store.snapshot).value.quarantinedUntil
                && fullHistory == KnownHistory(old(store.snapshot).value.healthHistory, log)
              else
                proxiesById == ById(proxies) && healthHistory == map[] && quarantinedUntil == map[] && fullHistory == map[]
    {
      hide ById, ValidPool, KeepsEnds, KnownHistory;
      ByIdIsPool(proxies);
      NothingKept();
      this.store, this.regionWeights := store, regionWeights;
      this.stickyWindowSeconds, this.quarantineWindowSeconds := stickyWindowSeconds, quarantineWindowSeconds;
      proxiesById, healthHistory, quarantinedUntil := ById(proxies), map[], map[];
      stickyProxyBySession, rotationAudit, nextIndex, fullHistory := map[], [], 0, map[];
      new;
      if store != null && store.snapshot.Some? && store.snapshot.value.proxies != [] {
        ByIdIsPool(store.snapshot.value.proxies);
        proxiesById := ById(store.snapshot.value.proxies);
        healthHistory := store.snapshot.value.healthHistory;
        quarantinedUntil := store.snapshot.value.quarantinedUntil;
        KnownHistoryKept(store.snapshot.value.healthHistory, log);
        fullHistory := KnownHistory(store.snapshot.value.healthHistory, log);
      }
      PersistPool();
    }

    method UnquarantineExpired(now: real)
      requires ValidPool(proxiesById)
      modifies this`quarantinedUntil, store
      ensures quarantinedUntil == Remaining(old(quarantinedUntil), now)
      ensures old(Synced()) ==> Synced()
      ensures quarantinedUntil != old(quarantinedUntil) ==> Synced()
      ensures store != null && quarantinedUntil == old(quarantinedUntil) ==> store.snapshot == old(store.snapshot)
    {
      var expired := set id | id in quarantinedUntil && quarantinedUntil[id] <= now;
      quarantinedUntil := quarantinedUntil - expired;
      if expired != {} {
        ghost var id :| id in expired;
        assert id in old(quarantinedUntil) && id !in quarantinedUntil;
        PersistPool();
      } else {
        assert quarantinedUntil == old(quarantinedUntil);
      }
    }

    method QuarantineProxy(endpointId: string, durationSeconds: int, now: real) returns (r: Result<()>)
      requires ValidPool(proxiesById)
      modifies this`quarantinedUntil, store
      ensures r.Ok? <==> durationSeconds > 0 && endpointId in proxiesById.entries
      ensures old(Synced()) ==> Synced()
      ensures r.Raised? ==> quarantinedUntil == old(quarantinedUntil) && (store != null ==> store.snapshot == old(store.snapshot))
      ensures r.Ok? ==> quarantinedUntil == old(quarantinedUntil)[endpointId := now + durationSeconds as real] && Synced()
      ensures r.Ok? ==> Quarantined(quarantinedUntil, now, endpointId)
    {
      if durationSeconds <= 0 {
        return Raised("duration_seconds must be positive");
      }
      if endpointId !in proxiesById.entries {
        return Raised("KeyError");
      }
      quarantinedUntil := quarantinedUntil[endpointId := now + durationSeconds as real];
      PersistPool();
      r := Ok(());
    }

    function PoolView(preferredRegion: string): View
      reads this`healthHistory
    {
      View(healthHistory, regionWeights, preferredRegion)
    }

    function Choices(now: real, exclude: set<string>): seq<Proxy>
      requires ValidPool(proxiesById)
      reads this`proxiesById, this`quarantinedUntil
    {
      Candidates(Values(proxiesById), quarantinedUntil, now, exclude)
    }

    /** Scores between zero and one, and no negative region weight. */
    ghost predicate SoundWeights()
      reads this`proxiesById
    {
      ScoresIn(proxiesById) && forall region | region in regionWeights :: regionWeights[region] >= 0.0
    }

    /** Some candidate has a weight that is not negative. */
    predicate CanPick(preferredRegion: string, exclude: set<string>, now: real)
      requires ValidPool(proxiesById)
      reads this`proxiesById, this`quarantinedUntil, this`healthHistory
    {
      Pickable(healthHistory, regionWeights, preferredRegion, Values(proxiesById), quarantinedUntil, now, exclude)
    }

    /** The proxy whose turn it is in the pool when the round-robin index has this value. */
    ghost predicate HasTurn(preferredRegion: string, exclude: set<string>, now: real, index: nat, proxy: Proxy)
      requires ValidPool(proxiesById)
      reads this`proxiesById, this`quarantinedUntil, this`healthHistory
    {
      && Choices(now, exclude) != []
      && var pool := Pool(PoolView(preferredRegion), Choices(now, exclude));
         pool != [] && proxy == pool[index % |pool|]
    }

    /** Errors are the missing candidates and the division by an empty pool. */
    method PickBestProxy(preferredRegion: string, exclude: set<string>, now: real) returns (r: Result<Proxy>)
      requires Invariant()
      modifies this`quarantinedUntil, this`nextIndex, store
      ensures Invariant() && quarantinedUntil == Remaining(old(quarantinedUntil), now)
      ensures old(Synced()) ==> Synced()
      ensures r.Ok? <==> CanPick(preferredRegion, exclude, now)
      ensures nextIndex == if r.Ok? then old(nextIndex) + 1 else old(nextIndex)
      ensures r.Ok? ==> HasTurn(preferredRegion, exclude, now, old(nextIndex), r.value)
      ensures r.Ok? ==>
                && r.value.endpointId in proxiesById.entries && proxiesById.entries[r.value.endpointId] == r.value
                && r.value.endpointId !in exclude
                && GoodPick(fullHistory, regionWeights, preferredRegion, Values(proxiesById), quarantinedUntil, now, exclude, r.value)
    {
      hide Pool, Candidates, Pickable, KeepsEnds, GoodPick, Remaining;
      UnquarantineExpired(now);
      var candidates := Choices(now, exclude);
      var view := PoolView(preferredRegion);
      TurnIsGood(healthHistory, fullHistory, regionWeights, preferredRegion, Values(proxiesById), quarantinedUntil, now,
                 exclude, nextIndex);
      if candidates == [] {
        return Raised("no eligible proxies available");
      }
      var pool := Pool(view, candidates);
      if |pool| == 0 {
        return Raised("ZeroDivisionError");
      }
      var pick := pool[nextIndex % |pool|];
      nextIndex := nextIndex + 1;
      ValuesMember(proxiesById, EndpointId, pick);
      r := Ok(pick);
    }

    /** The session has an unexpired sticky proxy that is not quarantined. */
    predicate Sticks(sessionId: string, now: real)
      reads this
    {
      && sessionId in stickyProxyBySession
      && stickyProxyBySession[sessionId].1 >= now
      && !Quarantined(quarantinedUntil, now, stickyProxyBySession[sessionId].0)
    }

    method Allocate(sessionId: string, behaviorProfileId: string, preferredRegion: string, now: real)
      returns (r: Result<Bundle>)
      requires Invariant()
      modifies this`quarantinedUntil, this`nextIndex, this`stickyProxyBySession, store
      ensures Invariant() && quarantinedUntil == Remaining(old(quarantinedUntil), now)
      ensures old(Synced()) ==> Synced()
      ensures r.Ok? <==> old(Sticks(sessionId, now)) || CanPick(preferredRegion, {}, now)
      ensures SoundWeights() ==> r.Ok?
      // A sticky session keeps its proxy and leaves the round-robin untouched.
      ensures old(Sticks(sessionId, now)) ==>
                && r == Ok(BuildBundle(proxiesById.entries[old(stickyProxyBySession)[sessionId].0], sessionId, behaviorProfileId))
                && stickyProxyBySession == old(stickyProxyBySession) && nextIndex == old(nextIndex)
      // Otherwise a near-best proxy is picked and sticks from now on.
      ensures !old(Sticks(sessionId, now)) && r.Ok? ==>
                && stickyProxyBySession == old(stickyProxyBySession)
                     [sessionId := (r.value.proxy.endpointId, now + stickyWindowSeconds as real)]
                && nextIndex == old(nextIndex) + 1
                && HasTurn(preferredRegion, {}, now, old(nextIndex), r.value.proxy)
                && GoodPick(fullHistory, regionWeights, preferredRegion, Values(proxiesById), quarantinedUntil, now, {}, r.value.proxy)
                && Synced()
      ensures r.Ok? ==> r.value == BuildBundle(r.value.proxy, sessionId, behaviorProfileId)
                        && r.value.proxy.endpointId in proxiesById.entries
                        && proxiesById.entries[r.value.proxy.endpointId] == r.value.proxy
      ensures r.Raised? ==> stickyProxyBySession == old(stickyProxyBySession) && nextIndex == old(nextIndex)
    {
      hide ValidPool, KeepsEnds, Live, Synced, SoundWeights, Choices, CanPick, HasTurn, PoolView, Pool, GoodPick, BuildBundle, Remaining, Quarantined;
      RemainingFacts(quarantinedUntil, now);
      if sessionId in stickyProxyBySession && stickyProxyBySession[sessionId].1 >= now {
        UnquarantineExpired(now);
        var proxyId := stickyProxyBySession[sessionId].0;
        if !Quarantined(quarantinedUntil, now, proxyId) {
          PoolKey(proxiesById, proxyId);
          return Ok(BuildBundle(proxiesById.entries[proxyId], sessionId, behaviorProfileId));
        }
      }
      var picked := PickBestProxy(preferredRegion, {}, now);
      if picked.Raised? {
        if SoundWeights() {
          FirstKey(proxiesById);
          AlwaysPicks(this, preferredRegion, {}, now);
        }
        return Raised(picked.error);
      }
      var proxy := picked.value;
      stickyProxyBySession := stickyProxyBySession[sessionId := (proxy.endpointId, now + stickyWindowSeconds as real)];
      PersistPool();
      r := Ok(BuildBundle(proxy, sessionId, behaviorProfileId));
    }

    method Rotate(
        current: Bundle, sessionId: string, behaviorProfileId: string, reason: RotationReason,
        riskScore: Option<real>, now: real) returns (r: Result<Bundle>)
      requires Invariant()
      modifies this`quarantinedUntil, this`nextIndex, this`stickyProxyBySession, this`rotationAudit, store
      ensures Invariant()
      ensures old(Synced()) ==> Synced()
      ensures r.Ok? <==>
              && (Quarantines(reason) ==> quarantineWindowSeconds > 0 && current.proxy.endpointId in proxiesById.entries)
              && CanPick(current.proxy.region, {current.proxy.endpointId}, now)
      // A rotation that succeeds leaves the current proxy, sticks to the new one and is audited once.
      ensures r.Ok? ==>
                && r.value.proxy.endpointId != current.proxy.endpointId
                && r.value.proxy.endpointId in proxiesById.entries
                && stickyProxyBySession == old(stickyProxyBySession)
                     [sessionId := (r.value.proxy.endpointId, now + stickyWindowSeconds as real)]
                && rotationAudit == old(rotationAudit)
                     + [RotationEvent(sessionId, current.proxy.endpointId, r.value.proxy.endpointId, reason, now, riskScore)]
                && r.value == BuildBundle(r.value.proxy, sessionId, behaviorProfileId)
                && nextIndex == old(nextIndex) + 1
                && HasTurn(current.proxy.region, {current.proxy.endpointId}, now, old(nextIndex), r.value.proxy)
                && GoodPick(fullHistory, regionWeights, current.proxy.region, Values(proxiesById), quarantinedUntil, now,
                            {current.proxy.endpointId}, r.value.proxy)
                && Synced()
      ensures r.Ok? && Quarantines(reason) ==> Quarantined(quarantinedUntil, now, current.proxy.endpointId)
      ensures r.Ok? ==>
                quarantinedUntil == Remaining(
                  if Quarantines(reason)
                  then old(quarantinedUntil)[current.proxy.endpointId := now + quarantineWindowSeconds as real]
                  else old(quarantinedUntil), now)
      ensures r.Raised? ==> stickyProxyBySession == old(stickyProxyBySession) && rotationAudit == old(rotationAudit)
    {
      hide ValidPool, KeepsEnds, Live, Synced, SoundWeights, Choices, CanPick, HasTurn, PoolView, Pool, GoodPick, BuildBundle, Remaining, Quarantined;
      if Quarantines(reason) {
        var quarantined := QuarantineProxy(current.proxy.endpointId, quarantineWindowSeconds, now);
        if quarantined.Raised? {
          return Raised(quarantined.error);
        }
      }
      RemainingFacts(quarantinedUntil, now);
      var picked := PickBestProxy(current.proxy.region, {current.proxy.endpointId}, now);
      if picked.Raised? {
        return Raised(picked.error);
      }
      var nextProxy := picked.value;
      if nextProxy.endpointId == current.proxy.endpointId {
        return Ok(current);
      }
      stickyProxyBySession := stickyProxyBySession[sessionId := (nextProxy.endpointId, now + stickyWindowSeconds as real)];
      rotationAudit := rotationAudit
        + [RotationEvent(sessionId, current.proxy.endpointId, nextProxy.endpointId, reason, now, riskScore)];
      PersistPool();
      r := Ok(BuildBundle(nextProxy, sessionId, behaviorProfileId));
    }

    /**
     Records an event, moves the score, and quarantines after three failures in a
     row. With a non-positive quarantine window the last step raises, and leaves the
     store behind the live pool.
     */
    method RecordProxyHealth(
        endpointId: string, success: bool, latencyMs: Option<real>, reason: string, now: real)
      returns (r: Result<Proxy>)
      requires Invariant()
      modifies this`proxiesById, this`healthHistory, this`quarantinedUntil, this`fullHistory, store
      ensures Invariant()
      ensures endpointId !in old(proxiesById).entries ==>
                r.Raised? && proxiesById == old(proxiesById) && healthHistory == old(healthHistory)
                && quarantinedUntil == old(quarantinedUntil) && (old(Synced()) ==> Synced())
      ensures endpointId in old(proxiesById).entries ==>
                var event := HealthEvent(endpointId, now, success, latencyMs, reason);
                var before := old(proxiesById).entries[endpointId];
                var after := before.(healthScore := NextScore(before.healthScore, success, latencyMs));
                && fullHistory == old(fullHistory)[endpointId := History(old(fullHistory), endpointId) + [event]]
                // only the last fifty events are kept
                && (var all := History(old(healthHistory), endpointId) + [event];
                    healthHistory == old(healthHistory)[endpointId := if |all| <= 50 then all else all[|all| - 50..]])
                && proxiesById == Put(old(proxiesById), endpointId, after)
                // the full history decides about the quarantine
                && var trips := !success && ThreeFailed(fullHistory[endpointId]);
                && r == (if trips && quarantineWindowSeconds <= 0 then Raised("duration_seconds must be positive") else Ok(after))
                && quarantinedUntil == if trips && r.Ok?
                                       then old(quarantinedUntil)[endpointId := now + quarantineWindowSeconds as real]
                                       else old(quarantinedUntil)
      ensures ScoresIn(old(proxiesById)) ==> ScoresIn(proxiesById)
      ensures r.Ok? ==> Synced()
      ensures r.Raised? && store != null ==> store.snapshot == old(store.snapshot)
    {
      hide ValidPool, KeepsEnds, Put, Live, Synced, NextScore, ConsecutiveFailures, ThreeFailed, ScoresIn;
      if endpointId !in proxiesById.entries {
        return Raised("KeyError");
      }
      var proxy := proxiesById.entries[endpointId];
      var event := HealthEvent(endpointId, now, success, latencyMs, reason);
      EndsAfterEvent(healthHistory, fullHistory, endpointId, event);
      PoolAfterScore(proxiesById, endpointId, NextScore(proxy.healthScore, success, latencyMs));
      healthHistory := healthHistory[endpointId := Cut(healthHistory, endpointId, event)];
      fullHistory := Extended(fullHistory, endpointId, event);
      var updatedProxy := proxy.(healthScore := NextScore(proxy.healthScore, success, latencyMs));
      proxiesById := Put(proxiesById, endpointId, updatedProxy);
      if !success && ConsecutiveFailures(healthHistory[endpointId]) >= 3 {
        var quarantined := QuarantineProxy(endpointId, quarantineWindowSeconds, now);
        if quarantined.Raised? {
          return Raised("duration_seconds must be positive");
        }
      }
      PersistPool();
      r := Ok(updatedProxy);
    }
  }

  // ---------- restart and refinement ----------

  /** Scores and weights computed from the kept histories are those of the full histories. */
  lemma KeptHistoriesGiveFullWeights(
      kept: map<string, seq<HealthEvent>>, full: map<string, seq<HealthEvent>>, regionWeights: map<string, real>,
      preferredRegion: string, proxy: Proxy)
    requires KeepsEnds(kept, full)
    ensures Weight(View(kept, regionWeights, preferredRegion), proxy)
            == Weight(View(full, regionWeights, preferredRegion), proxy)
  {
    hide FailureRate, IsEnd;
    EndRate(History(kept, proxy.endpointId), History(full, proxy.endpointId));
  }

  lemma EndRate(kept: seq<HealthEvent>, full: seq<HealthEvent>)
    requires IsEnd(kept, full)
    ensures FailureRate(kept) == FailureRate(full)
  {
    hide Suffix, IsEnd;
    EndDecides(kept, full, 10);
  }

  /**
   In every reachable state with scores in [0, 1] and non-negative region weights a
   proxy can be picked as long as one is not excluded; so allocating never fails, and
   the pool of near-best proxies is never empty.
   */
  lemma AlwaysPicks(a: IdentityAllocator, preferredRegion: string, exclude: set<string>, now: real)
    requires a.Invariant() && a.SoundWeights()
    ensures a.CanPick(preferredRegion, exclude, now) <==> exists id | id in a.proxiesById.entries :: id !in exclude
  {
    hide Weight, Standing, MayBePicked, Candidates, KeepsEnds;
    var choices, view := a.Choices(now, exclude), a.PoolView(preferredRegion);
    ChoicesNotEmpty(a.proxiesById, a.quarantinedUntil, now, exclude);
    ChoicesExplained(view, Values(a.proxiesById), a.quarantinedUntil, now, exclude);
    forall p | p in choices ensures Weight(view, p) >= 0.0 {
      ValuesMember(a.proxiesById, EndpointId, p);
      WeightNonNegative(view, p);
    }
    assert choices != [] ==> choices[0] in choices;
  }

  lemma ChoicesNotEmpty(pool: Dict<string, Proxy>, until: map<string, real>, now: real, exclude: set<string>)
    requires ValidPool(pool)
    ensures Candidates(Values(pool), until, now, exclude) != [] <==> exists id | id in pool.entries :: id !in exclude
    ensures forall p | p in Candidates(Values(pool), until, now, exclude) :: p in Values(pool)
  {
    if id :| id in pool.entries && id !in exclude {
      var p := pool.entries[id];
      ValuesMember(pool, EndpointId, p);
      assert p in Filter(NotExcluded(exclude), Values(pool));
    }
    var candidates := Candidates(Values(pool), until, now, exclude);
    if candidates != [] {
      assert candidates[0] in candidates;
      ValuesMember(pool, EndpointId, candidates[0]);
    }
  }

  lemma FirstKey(pool: Dict<string, Proxy>)
    requires ValidPool(pool)
    ensures exists id | id in pool.entries :: id !in {}
  {
    assert pool.order[0] in (set k | k in pool.order);
    assert pool.order[0] in pool.entries && pool.order[0] !in {};
  }

  /**
   Restart: an allocator built over the store of a synced one has the same pool,
   histories and quarantines, and hence the same candidates and weights.
   */
  method Restart(allocator: IdentityAllocator, proxies: seq<Proxy>) returns (rebuilt: IdentityAllocator)
    requires allocator.Invariant() && allocator.store != null && allocator.Synced() && proxies != []
    modifies allocator.store
    ensures rebuilt.Invariant() && rebuilt.Synced() && fresh(rebuilt) && rebuilt.store == allocator.store
    ensures rebuilt.proxiesById == allocator.proxiesById
    ensures forall preferredRegion :: rebuilt.PoolView(preferredRegion) == allocator.PoolView(preferredRegion)
    ensures forall now, exclude :: rebuilt.Choices(now, exclude) == allocator.Choices(now, exclude)
    ensures rebuilt.store.snapshot == old(allocator.store.snapshot)
  {
    RebuiltPool(allocator.proxiesById);
    rebuilt := new IdentityAllocator(proxies, allocator.store, allocator.regionWeights, allocator.stickyWindowSeconds,
                                     allocator.quarantineWindowSeconds, allocator.fullHistory);
  }
}
