/** The active-active control plane: regions, health, and weighted routing. */
module MultiRegion {
  import opened Seqs
  import opened Dicts
  import opened WeightedPick

  datatype Region = Region(
    regionId: string, endpoint: string, trafficWeight: real, writeEnabled: bool, readEnabled: bool,
    priority: int, healthy: bool, healthReason: string)

  datatype RoutePayload = RoutePayload(tenantId: string, operation: string, selectedRegion: string, endpoint: string, reason: string)

  /** The size of the ticket space: twelve hexadecimal digits of a digest. */
  const TICKETS := 0x1_0000_0000_0000

  type Ticket = t: nat | t < TICKETS

  function RegionId(region: Region): string {
    region.regionId
  }

  /** What `upsert_region` and `update_health` keep true of the region dictionary. */
  ghost predicate ValidRegions(regions: Dict<string, Region>) {
    && Valid(regions) && Keyed(regions, RegionId)
    && forall id | id in regions.entries ::
         && id != "" && regions.entries[id].endpoint != ""
         && regions.entries[id].trafficWeight > 0.0 && regions.entries[id].priority >= 0
  }

  function Serves(operation: string): Region -> bool {
    (region: Region) => region.healthy && (if operation == "read" then region.readEnabled else region.writeEnabled)
  }

  /** The eligible regions, in the order of their ids. */
  function Eligible(regions: Dict<string, Region>, operation: string): seq<Region>
    requires Valid(regions)
  {
    Filter(Serves(operation), SortedValues(regions, StringLe))
  }

  lemma EligibleMember(regions: Dict<string, Region>, operation: string, region: Region)
    requires ValidRegions(regions)
    ensures region in Eligible(regions, operation) <==>
            && region.regionId in regions.entries && regions.entries[region.regionId] == region
            && region.healthy && (if operation == "read" then region.readEnabled else region.writeEnabled)
  {
    SortedValuesMember(regions, StringLe, RegionId, region);
  }

  predicate ById(a: Region, b: Region) {
    StringLe(a.regionId, b.regionId)
  }

  function Weights(candidates: seq<Region>): (r: seq<real>)
    ensures |r| == |candidates|
  {
    seq(|candidates|, i requires 0 <= i < |candidates| => candidates[i].trafficWeight)
  }

  lemma {:induction false} PositiveTotal(candidates: seq<Region>, i: nat)
    requires forall region | region in candidates :: region.trafficWeight > 0.0
    requires i <= |candidates|
    ensures i > 0 ==> Partial(Weights(candidates), i) > 0.0
  {
    if i > 0 {
      PositiveTotal(candidates, i - 1);
      assert candidates[i - 1] in candidates;
    }
  }

  /** The traffic weights of these regions together; a negative one counts as nothing. */
  function WeightSum(regions: seq<Region>): real {
    if regions == [] then 0.0
    else
      var w := regions[|regions| - 1].trafficWeight;
      WeightSum(regions[..|regions| - 1]) + (if w > 0.0 then w else 0.0)
  }

  /** The weights of the first `k` regions reach the ticket's share of all their weights. */
  predicate ReachedBy(ordered: seq<Region>, ticket: Ticket, k: nat)
    requires k <= |ordered|
  {
    ticket as real * WeightSum(ordered) <= WeightSum(ordered[..k]) * 0x1_0000_0000_0000 as real
  }

  /**
   The choice of `_weighted_pick`: among the candidates by id, the first one at which
   the weights so far reach the ticket's share of all weights.
   */
  ghost predicate WeightedChoice(candidates: seq<Region>, ticket: Ticket, choice: Region) {
    var ordered := Sort(ById, candidates);
    if WeightSum(ordered) <= 0.0 then ordered != [] && choice == ordered[0]
    else exists i | 0 <= i < |ordered| :: ordered[i] == choice && ChosenAt(ordered, ticket, i)
  }

  predicate ChosenAt(ordered: seq<Region>, ticket: Ticket, i: nat)
    requires i < |ordered|
  {
    ReachedBy(ordered, ticket, i + 1) && forall k | 0 < k <= i :: !ReachedBy(ordered, ticket, k)
  }

  lemma {:induction false} PartialIsWeightSum(regions: seq<Region>, i: nat)
    requires i <= |regions|
    ensures Partial(Weights(regions), i) == WeightSum(regions[..i])
  {
    if i > 0 {
      PartialIsWeightSum(regions, i - 1);
      TakeSnoc(regions, i - 1);
    }
  }

  lemma TotalIsWeightSum(regions: seq<Region>)
    ensures TotalWeight(Weights(regions)) == WeightSum(regions)
  {
    PartialIsWeightSum(regions, |regions|);
    TakeEnds(regions);
  }

  lemma ReachedExplained(ordered: seq<Region>, ticket: Ticket, k: nat)
    requires k <= |ordered| && TotalWeight(Weights(ordered)) > 0.0
    ensures ReachedBy(ordered, ticket, k) <==> TicketAt(ticket, TICKETS) <= Threshold(Weights(ordered), k)
  {
    hide TotalWeight, Threshold, WeightSum, Partial, Weights;
    TotalIsWeightSum(ordered);
    PartialIsWeightSum(ordered, k);
    ThresholdIsShareOfTotal(Weights(ordered), k);
    ShareReached(ticket, TICKETS, Threshold(Weights(ordered), k), WeightSum(ordered));
  }

  lemma ShareReached(t: nat, n: nat, threshold: real, total: real)
    requires n > 0 && total > 0.0
    ensures TicketAt(t, n) <= threshold <==> t as real * total <= threshold * total * n as real
  {
    Scale(TicketAt(t, n), threshold, n as real);
    assert TicketAt(t, n) * n as real == t as real;
    Scale(t as real, threshold * n as real, total);
    assert threshold * n as real * total == threshold * total * n as real;
  }

  /** The loop's stopping point is the choice. */
  lemma StopsExplained(ordered: seq<Region>, ticket: Ticket, i: nat)
    requires i < |ordered| && TotalWeight(Weights(ordered)) > 0.0
    ensures StopsAt(Weights(ordered), TicketAt(ticket, TICKETS), i) <==> ChosenAt(ordered, ticket, i)
  {
    hide TotalWeight, Threshold, WeightSum, ReachedBy, TicketAt, Weights;
    forall k: nat | 0 < k <= i + 1
      ensures ReachedBy(ordered, ticket, k) <==> TicketAt(ticket, TICKETS) <= Threshold(Weights(ordered), k)
    {
      ReachedExplained(ordered, ticket, k);
    }
  }

  /** The candidates are asked in the order of their ids. */
  lemma OrderedById(candidates: seq<Region>)
    ensures var ordered := Sort(ById, candidates);
      && multiset(ordered) == multiset(candidates)
      && forall i, j | 0 <= i < j < |ordered| :: StringLe(ordered[i].regionId, ordered[j].regionId)
  {
    StringLeTotalPreorder();
    assert TotalPreorder(ById);
    SortSorts(ById, candidates);
    hide Sort;
    forall i, j | 0 <= i < j < |Sort(ById, candidates)|
      ensures StringLe(Sort(ById, candidates)[i].regionId, Sort(ById, candidates)[j].regionId)
    {
      assert ById(Sort(ById, candidates)[i], Sort(ById, candidates)[j]);
    }
  }

  predicate ByPriority(a: Region, b: Region) {
    a.priority < b.priority || (a.priority == b.priority && StringLe(a.regionId, b.regionId))
  }

  /** The healthy writable region of least priority, ties by id; none if there is none. */
  predicate IsPrimary(regions: seq<Region>, primary: Option<string>) {
    if primary.None? then forall r | r in regions :: !(r.healthy && r.writeEnabled)
    else exists w | w in regions ::
           && w.healthy && w.writeEnabled && w.regionId == primary.value
           && forall r | r in regions && r.healthy && r.writeEnabled ::
                w.priority < r.priority || (w.priority == r.priority && StringLe(w.regionId, r.regionId))
  }

  predicate CanServe(regions: Dict<string, Region>, id: string, operation: string) {
    && id in regions.entries && regions.entries[id].healthy
    && (if operation == "read" then regions.entries[id].readEnabled else regions.entries[id].writeEnabled)
  }

  function RouteReason(regions: Dict<string, Region>, operation: string, preferredRegion: string): string {
    if CanServe(regions, preferredRegion, operation) then "preferred_region_selected"
    else if preferredRegion == "" then "weighted_active_active_routing"
    else "preferred_region_unavailable_fallback"
  }

  lemma IndexInRange(weights: seq<real>, ticket: real, i: nat)
    requires TotalWeight(weights) > 0.0 && StopsAt(weights, ticket, i)
    ensures i < |weights|
  {
  }

  lemma EligibleById(regions: Dict<string, Region>, operation: string, id: string)
    requires ValidRegions(regions)
    ensures CanServe(regions, id, operation) <==> First(HasId(id), Eligible(regions, operation)).Some?
  {
    if CanServe(regions, id, operation) {
      EligibleMember(regions, operation, regions.entries[id]);
      assert HasId(id)(regions.entries[id]);
    }
    var first := First(HasId(id), Eligible(regions, operation));
    if first.Some? {
      EligibleMember(regions, operation, first.value);
    }
  }

  class MultiRegionControlPlane {
    var regions: Dict<string, Region>
    // The first twelve hexadecimal digits of the SHA-256 of a route key.
    const digest: string -> Ticket

    constructor (digest: string -> Ticket)
      ensures regions == Empty() && this.digest == digest && ValidRegions(regions)
    {
      regions := Empty();
      this.digest := digest;
    }

    method UpsertRegion(
        regionId: string, endpoint: string, trafficWeight: real, writeEnabled: bool, readEnabled: bool, priority: int)
      returns (r: Result<Region>)
      requires ValidRegions(regions)
      modifies this`regions
      ensures ValidRegions(regions)
      ensures r.Ok? <==> regionId != "" && endpoint != "" && trafficWeight > 0.0 && priority >= 0
      ensures r.Raised? ==> regions == old(regions)
      ensures r.Ok? ==>
                && regions == Put(old(regions), regionId, r.value)
                && r.value.(healthy := true, healthReason := "") ==
                   Region(regionId, endpoint, trafficWeight, writeEnabled, readEnabled, priority, true, "")
                // a re-upsert does not reset the health
                && (if regionId in old(regions).entries
                    then r.value.healthy == old(regions).entries[regionId].healthy
                         && r.value.healthReason == old(regions).entries[regionId].healthReason
                    else r.value.healthy && r.value.healthReason == "")
    {
      if regionId == "" {
        return Raised("region_id must not be empty");
      }
      if endpoint == "" {
        return Raised("endpoint must not be empty");
      }
      if trafficWeight <= 0.0 {
        return Raised("traffic_weight must be greater than zero");
      }
      if priority < 0 {
        return Raised("priority must be non-negative");
      }
      var healthy, healthReason := true, "";
      if regionId in regions.entries {
        healthy, healthReason := regions.entries[regionId].healthy, regions.entries[regionId].healthReason;
      }
      var region := Region(regionId, endpoint, trafficWeight, writeEnabled, readEnabled, priority, healthy, healthReason);
      regions := Put(regions, regionId, region);
      r := Ok(region);
    }

    method UpdateHealth(regionId: string, healthy: bool, reason: string) returns (r: Result<Region>)
      requires ValidRegions(regions)
      modifies this`regions
      ensures ValidRegions(regions)
      ensures r.Ok? <==> regionId in old(regions).entries
      ensures r.Raised? ==> regions == old(regions)
      ensures r.Ok? ==> r.value == old(regions).entries[regionId].(healthy := healthy, healthReason := reason)
                        && regions == Put(old(regions), regionId, r.value)
    {
      if regionId !in regions.entries {
        return Raised("KeyError");
      }
      var region := regions.entries[regionId].(healthy := healthy, healthReason := reason);
      regions := Put(regions, regionId, region);
      r := Ok(region);
    }

    method WeightedPick(candidates: seq<Region>, routeKey: string) returns (choice: Region)
      requires candidates != []
      ensures choice in candidates
      ensures WeightedChoice(candidates, digest(routeKey), choice)
    {
      hide Sort, TotalWeight, WeightSum, ChosenAt, StopsAt;
      var ordered := Sort(ById, candidates);
      var weights := Weights(ordered);
      TotalIsWeightSum(ordered);
      if TotalWeight(weights) <= 0.0 {
        return ordered[0];
      }
      var ticket := TicketAt(digest(routeKey), TICKETS);
      var i := PickIndex(weights, ticket);
      IndexInRange(weights, ticket, i);
      StopsExplained(ordered, digest(routeKey), i);
      choice := ordered[i];
    }

    method Route(tenantId: string, operation: string, preferredRegion: string) returns (r: Result<RoutePayload>)
      requires ValidRegions(regions)
      ensures r.Ok? <==> tenantId != "" && operation in {"read", "write"} && Eligible(regions, operation) != []
      // Whatever is selected is stored, healthy and enabled for the operation.
      ensures r.Ok? ==>
                && r.value.tenantId == tenantId && r.value.operation == operation
                && CanServe(regions, r.value.selectedRegion, operation)
                && r.value.endpoint == regions.entries[r.value.selectedRegion].endpoint
                && r.value.reason == RouteReason(regions, operation, preferredRegion)
      // A preferred region that can serve is taken; otherwise the weights decide.
      ensures r.Ok? ==>
                if CanServe(regions, preferredRegion, operation) then r.value.selectedRegion == preferredRegion
                else WeightedChoice(Eligible(regions, operation), digest(tenantId + ":" + operation),
                                    regions.entries[r.value.selectedRegion])
    {
      if tenantId == "" {
        return Raised("tenant_id must not be empty");
      }
      if operation !in {"read", "write"} {
        return Raised("operation must be either 'read' or 'write'");
      }
      var candidates := Eligible(regions, operation);
      if candidates == [] {
        return Raised("no healthy regions available for operation");
      }
      EligibleById(regions, operation, preferredRegion);
      var reason := "weighted_active_active_routing";
      if preferredRegion != "" {
        var preferred := First(HasId(preferredRegion), candidates);
        if preferred.Some? {
          EligibleMember(regions, operation, preferred.value);
          return Ok(RoutePayload(tenantId, operation, preferred.value.regionId, preferred.value.endpoint,
                                 "preferred_region_selected"));
        }
        reason := "preferred_region_unavailable_fallback";
      }
      var selected := WeightedPick(candidates, tenantId + ":" + operation);
      EligibleMember(regions, operation, selected);
      r := Ok(RoutePayload(tenantId, operation, selected.regionId, selected.endpoint, reason));
    }
  }

  function HasId(id: string): Region -> bool {
    (region: Region) => region.regionId == id
  }

  lemma PriorityTotalPreorder()
    ensures TotalPreorder(ByPriority)
  {
    StringLeTotalPreorder();
  }

  /** `min` over the healthy writable regions of a region list. */
  method SelectPrimaryRegion(regions: seq<Region>) returns (primary: Option<string>)
    ensures IsPrimary(regions, primary)
  {
    hide Filter;
    var writable := Filter(Serves("write"), regions);
    if writable == [] {
      return None;
    }
    PriorityTotalPreorder();
    var winner := writable[0];
    for i := 1 to |writable|
      invariant winner in writable
      invariant forall k | 0 <= k < i :: ByPriority(winner, writable[k])
    {
      if !ByPriority(winner, writable[i]) {
        winner := writable[i];
      }
    }
    primary := Some(winner.regionId);
  }

  /** There is a primary region exactly when a write can be routed. */
  lemma PrimaryIffWritesServed(regions: Dict<string, Region>, primary: Option<string>)
    requires ValidRegions(regions) && IsPrimary(SortedValues(regions, StringLe), primary)
    ensures primary.Some? <==> Eligible(regions, "write") != []
    ensures primary.Some? ==> CanServe(regions, primary.value, "write")
  {
    hide Filter, SortedValues;
    var all := SortedValues(regions, StringLe);
    if primary.None? {
      FilterNone(Serves("write"), all);
    } else {
      var w :| w in all && w.healthy && w.writeEnabled && w.regionId == primary.value;
      SortedValuesMember(regions, StringLe, RegionId, w);
      EligibleMember(regions, "write", w);
    }
  }

  // ---------- the share of a region ----------

  lemma {:induction false} WeightSumOfInserted(regions: seq<Region>, region: Region)
    ensures WeightSum(Insert(ById, regions, region)) == WeightSum(regions + [region])
  {
    assert (regions + [region])[..|regions|] == regions;
    if regions != [] && !ById(regions[|regions| - 1], region) {
      var front, last := regions[..|regions| - 1], regions[|regions| - 1];
      WeightSumOfInserted(front, region);
      assert (front + [region])[..|front|] == front;
      var r := Insert(ById, front, region);
      assert (r + [last])[..|r|] == r;
    }
  }

  lemma {:induction false} WeightSumOfSorted(regions: seq<Region>)
    ensures WeightSum(Sort(ById, regions)) == WeightSum(regions)
  {
    if regions != [] {
      var front, last := regions[..|regions| - 1], regions[|regions| - 1];
      WeightSumOfSorted(front);
      WeightSumOfInserted(Sort(ById, front), last);
      assert (Sort(ById, front) + [last])[..|front|] == Sort(ById, front);
    }
  }

  /** How many of the first `upto` tickets select the region. */
  ghost function TicketsFor(candidates: seq<Region>, region: Region, upto: nat): nat
    requires upto <= TICKETS
  {
    if upto == 0 then 0
    else TicketsFor(candidates, region, upto - 1) + (if WeightedChoice(candidates, upto - 1, region) then 1 else 0)
  }

  lemma ChoiceIsStop(candidates: seq<Region>, ticket: Ticket, i: nat)
    requires Distinct(Sort(ById, candidates)) && i < |candidates|
    requires TotalWeight(Weights(Sort(ById, candidates))) > 0.0
    ensures var ordered := Sort(ById, candidates);
            WeightedChoice(candidates, ticket, ordered[i]) <==> StopsAt(Weights(ordered), TicketAt(ticket, TICKETS), i)
  {
    hide *;
    var ordered := Sort(ById, candidates);
    TotalIsWeightSum(ordered);
    ChoiceAt(candidates, ticket, i);
    StopsExplained(ordered, ticket, i);
  }

  lemma ChoiceAt(candidates: seq<Region>, ticket: Ticket, i: nat)
    requires Distinct(Sort(ById, candidates)) && i < |candidates| && WeightSum(Sort(ById, candidates)) > 0.0
    ensures WeightedChoice(candidates, ticket, Sort(ById, candidates)[i]) <==> ChosenAt(Sort(ById, candidates), ticket, i)
  {
    hide Sort, WeightSum, ChosenAt;
    var ordered := Sort(ById, candidates);
    assert forall j | 0 <= j < |ordered| && ordered[j] == ordered[i] :: j == i;
  }

  lemma {:induction false} TicketsAreShare(candidates: seq<Region>, i: nat, upto: nat)
    requires Distinct(Sort(ById, candidates)) && i < |candidates| && upto <= TICKETS
    requires TotalWeight(Weights(Sort(ById, candidates))) > 0.0
    ensures TicketsFor(candidates, Sort(ById, candidates)[i], upto)
            == Share(Weights(Sort(ById, candidates)), TICKETS, i, upto)
  {
    hide Sort, TotalWeight, WeightedChoice, StopsAt, Weights, TicketAt, Distinct;
    if upto > 0 {
      TicketsAreShare(candidates, i, upto - 1);
      ChoiceIsStop(candidates, upto - 1, i);
    }
  }

  /**
   Fair routing in every reachable state: of all 16^12 tickets the number that select
   an eligible region is within one of its traffic weight's share of the traffic
   weights of all eligible regions.
   */
  lemma RoutingIsFair(regions: Dict<string, Region>, operation: string, region: Region)
    requires ValidRegions(regions) && region in Eligible(regions, operation)
    ensures var eligible := Eligible(regions, operation);
      && WeightSum(eligible) > 0.0
      && -1.0 <= TicketsFor(eligible, region, 0x1_0000_0000_0000) as real
                 - region.trafficWeight * 0x1_0000_0000_0000 as real / WeightSum(eligible) <= 1.0
  {
    hide Sort, Eligible, TotalWeight, WeightSum, Share, TicketsFor, Distinct;
    var eligible := Eligible(regions, operation);
    var ordered := Sort(ById, eligible);
    var i :| 0 <= i < |ordered| && ordered[i] == region;
    EligibleWeights(regions, operation);
    TicketsAreShare(eligible, i, TICKETS);
    ApportionmentWithinOne(Weights(ordered), TICKETS, i);
    WeightAt(ordered, i);
    ShareOf(region.trafficWeight, WeightSum(eligible), TICKETS as real);
  }

  lemma WeightAt(ordered: seq<Region>, i: nat)
    requires i < |ordered|
    ensures Weights(ordered)[i] == ordered[i].trafficWeight
  {
  }

  lemma ShareOf(w: real, total: real, n: real)
    requires total > 0.0
    ensures w / total * n == w * n / total
  {
  }

  lemma EligibleWeights(regions: Dict<string, Region>, operation: string)
    requires ValidRegions(regions) && Eligible(regions, operation) != []
    ensures var eligible := Eligible(regions, operation);
      && TotalWeight(Weights(Sort(ById, eligible))) == WeightSum(eligible) > 0.0
      && Distinct(Sort(ById, eligible))
      && forall region | region in eligible :: region.trafficWeight > 0.0
  {
    hide Sort, Filter, Distinct;
    var eligible := Eligible(regions, operation);
    forall region | region in eligible ensures region.trafficWeight > 0.0 {
      EligibleMember(regions, operation, region);
    }
    PositiveTotal(Sort(ById, eligible), |eligible|);
    TotalIsWeightSum(Sort(ById, eligible));
    WeightSumOfSorted(eligible);
    SortedValuesDistinct(regions, StringLe, RegionId);
    FilterDistinct(Serves(operation), SortedValues(regions, StringLe));
    SortDistinct(ById, eligible);
  }

  /** Every ticket selects an eligible region, which by `ChoiceIsUnique` is the only one. */
  lemma EveryTicketRouted(candidates: seq<Region>, ticket: Ticket) returns (region: Region)
    requires candidates != []
    ensures region in candidates && WeightedChoice(candidates, ticket, region)
  {
    var ordered := Sort(ById, candidates);
    if WeightSum(ordered) <= 0.0 {
      region := ordered[0];
    } else {
      TakeEnds(ordered);
      hide Sort, WeightSum;
      assert WeightSum(ordered) > 0.0;
      LastReaches(ordered, ticket);
      var i := FirstReached(ordered, ticket, |ordered|);
      region := ordered[i];
    }
  }

  lemma LastReaches(ordered: seq<Region>, ticket: Ticket)
    requires WeightSum(ordered) > 0.0
    ensures ReachedBy(ordered, ticket, |ordered|)
  {
    hide WeightSum;
    TakeEnds(ordered);
    Scale(ticket as real, 0x1_0000_0000_0000 as real, WeightSum(ordered));
  }

  lemma {:induction false} FirstReached(ordered: seq<Region>, ticket: Ticket, n: nat) returns (i: nat)
    requires 0 < n <= |ordered| && ReachedBy(ordered, ticket, n)
    ensures i < n && ChosenAt(ordered, ticket, i)
  {
    hide ReachedBy;
    if k: nat :| 0 < k < n && ReachedBy(ordered, ticket, k) {
      i := FirstReached(ordered, ticket, k);
    } else {
      i := n - 1;
    }
  }

  /** A ticket selects one region only. */
  lemma ChoiceIsUnique(candidates: seq<Region>, ticket: Ticket, a: Region, b: Region)
    requires WeightedChoice(candidates, ticket, a) && WeightedChoice(candidates, ticket, b)
    ensures a == b
  {
    hide Sort, WeightSum, ReachedBy;
  }
}
