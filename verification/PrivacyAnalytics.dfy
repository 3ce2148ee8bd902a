/** Privacy-preserving reports: events grouped by dimensions, cut, suppressed and noised. */
module PrivacyAnalytics {
  import opened Seqs
  import opened Dicts

  type Group = map<string, string>

  datatype Event = Event(
    eventId: string, tenantId: string, metricName: string, value: real, dimensions: map<string, string>, observedAt: real)

  datatype Policy = Policy(
    epsilon: real, minGroupSize: int, maxGroups: int, redactKeys: set<string>, noiseSeed: string)

  datatype Tally = Tally(group: Group, count: nat, trueSum: real)

  datatype Visible = Visible(
    group: Group, count: nat, trueSum: real, noisySum: real, average: real, noisyAverage: real, noise: real)

  // ---------- which events count, and for which group ----------

  datatype Query = Query(
    tenantId: string, metricName: string, startTime: Option<real>, endTime: Option<real>, groupBy: seq<string>)

  predicate Matches(query: Query, event: Event) {
    && event.tenantId == query.tenantId
    && (query.metricName == "" || event.metricName == query.metricName)
    && (query.startTime.None? || event.observedAt >= query.startTime.value)
    && (query.endTime.None? || event.observedAt <= query.endTime.value)
  }

  function Matching(query: Query): Event -> bool {
    (event: Event) => Matches(query, event)
  }

  /** The group of an event: its value for every key, "unknown" where it has none. */
  function GroupOf(query: Query, event: Event): Group {
    map key | key in query.groupBy :: if key in event.dimensions then event.dimensions[key] else "unknown"
  }

  function InGroup(query: Query, group: Group): Event -> bool {
    (event: Event) => Matches(query, event) && GroupOf(query, event) == group
  }

  function Sum(events: seq<Event>): real {
    if events == [] then 0.0 else Sum(events[..|events| - 1]) + events[|events| - 1].value
  }

  /** The tally of a group over a list of events. */
  function TallyOf(query: Query, events: seq<Event>, group: Group): Tally {
    var members := Filter(InGroup(query, group), events);
    Tally(group, |members|, Sum(members))
  }

  function GroupKey(tally: Tally): Group {
    tally.group
  }

  /** The tallies are those of exactly the groups that occur, each over all its events. */
  ghost predicate Tallied(query: Query, events: seq<Event>, tallies: Dict<Group, Tally>) {
    && Valid(tallies) && Keyed(tallies, GroupKey)
    && forall group ::
         (group in tallies.entries <==> Filter(InGroup(query, group), events) != [])
         && (group in tallies.entries ==> tallies.entries[group] == TallyOf(query, events, group))
  }

  /** The groups of the matching events, event by event. */
  function GroupsSeen(query: Query, events: seq<Event>): seq<Group> {
    if events == [] then []
    else
      var last := events[|events| - 1];
      GroupsSeen(query, events[..|events| - 1]) + (if Matches(query, last) then [GroupOf(query, last)] else [])
  }

  /** The groups are listed in the order in which they first appear, which decides ties at the cut. */
  ghost predicate InOrderSeen(query: Query, events: seq<Event>, tallies: Dict<Group, Tally>) {
    Valid(tallies) && tallies.order == Unique(GroupsSeen(query, events))
  }

  lemma InOrderSeenStep(query: Query, events: seq<Event>, tallies: Dict<Group, Tally>, event: Event)
    requires InOrderSeen(query, events, tallies)
    ensures InOrderSeen(query, events + [event], Counted(query, tallies, event))
  {
    hide Matches, GroupOf, Unique, GroupsSeen, Distinct;
    GroupsSeenStep(query, events, event);
    if Matches(query, event) {
      var group := GroupOf(query, event);
      UniqueSnoc(GroupsSeen(query, events), group);
      assert group in tallies.entries <==> group in (set k | k in tallies.order);
    }
  }

  lemma GroupsSeenStep(query: Query, events: seq<Event>, event: Event)
    ensures GroupsSeen(query, events + [event]) ==
            if Matches(query, event) then GroupsSeen(query, events) + [GroupOf(query, event)] else GroupsSeen(query, events)
  {
    hide Matches, GroupOf;
    assert (events + [event])[..|events|] == events;
  }

  lemma {:induction false} SumSnoc(events: seq<Event>, event: Event)
    ensures Sum(events + [event]) == Sum(events) + event.value
  {
  }

  /** One more event changes one tally at most. */
  lemma TallyStep(query: Query, events: seq<Event>, event: Event, group: Group)
    ensures TallyOf(query, events + [event], group) ==
            if InGroup(query, group)(event)
            then Tally(group, TallyOf(query, events, group).count + 1, TallyOf(query, events, group).trueSum + event.value)
            else TallyOf(query, events, group)
    ensures Filter(InGroup(query, group), events + [event]) != [] <==>
            Filter(InGroup(query, group), events) != [] || InGroup(query, group)(event)
  {
  }

  function Counted(query: Query, tallies: Dict<Group, Tally>, event: Event): Dict<Group, Tally> {
    if !Matches(query, event) then tallies
    else
      var group := GroupOf(query, event);
      var existing := if group in tallies.entries then tallies.entries[group] else Tally(group, 0, 0.0);
      Put(tallies, group, Tally(group, existing.count + 1, existing.trueSum + event.value))
  }

  lemma TalliedStep(query: Query, events: seq<Event>, tallies: Dict<Group, Tally>, event: Event)
    requires Tallied(query, events, tallies)
    ensures Tallied(query, events + [event], Counted(query, tallies, event))
  {
    var after := Counted(query, tallies, event);
    forall group
      ensures (group in after.entries <==> Filter(InGroup(query, group), events + [event]) != [])
              && (group in after.entries ==> after.entries[group] == TallyOf(query, events + [event], group))
    {
      TallyStep(query, events, event, group);
    }
  }

  // ---------- conservation ----------

  function TotalCount(tallies: seq<Tally>): nat {
    if tallies == [] then 0 else TotalCount(tallies[..|tallies| - 1]) + tallies[|tallies| - 1].count
  }

  function TotalSum(tallies: seq<Tally>): real {
    if tallies == [] then 0.0 else TotalSum(tallies[..|tallies| - 1]) + tallies[|tallies| - 1].trueSum
  }

  lemma {:induction false} TotalsSnoc(tallies: seq<Tally>, t: Tally)
    ensures TotalCount(tallies + [t]) == TotalCount(tallies) + t.count
    ensures TotalSum(tallies + [t]) == TotalSum(tallies) + t.trueSum
  {
  }

  lemma {:induction false} TotalsUpdate(tallies: seq<Tally>, i: nat, t: Tally)
    requires i < |tallies|
    ensures TotalCount(tallies[i := t]) == TotalCount(tallies) - tallies[i].count + t.count
    ensures TotalSum(tallies[i := t]) == TotalSum(tallies) - tallies[i].trueSum + t.trueSum
  {
    var front, last := tallies[..|tallies| - 1], tallies[|tallies| - 1];
    if i == |tallies| - 1 {
      assert tallies[i := t] == front + [t];
      TotalsSnoc(front, t);
    } else {
      assert tallies[i := t] == front[i := t] + [last];
      TotalsUpdate(front, i, t);
      TotalsSnoc(front[i := t], last);
    }
  }

  /** The groups account for all matching events: their number and their total value. */
  ghost predicate Conserved(query: Query, events: seq<Event>, tallies: Dict<Group, Tally>)
    requires Valid(tallies)
  {
    && TotalCount(Values(tallies)) == |Filter(Matching(query), events)|
    && TotalSum(Values(tallies)) == Sum(Filter(Matching(query), events))
  }

  lemma ConservedStep(query: Query, events: seq<Event>, tallies: Dict<Group, Tally>, event: Event)
    requires Valid(tallies) && Conserved(query, events, tallies)
    ensures Conserved(query, events + [event], Counted(query, tallies, event))
  {
    hide Matches, GroupOf, Filter, Sum, TotalCount, TotalSum, Values, Put, Valid;
    FilterSnoc(Matching(query), events, event);
    if Matches(query, event) {
      SumSnoc(Filter(Matching(query), events), event);
      CountedTotals(query, tallies, event);
    } else {
      assert Filter(Matching(query), events) + [] == Filter(Matching(query), events);
    }
  }

  lemma CountedTotals(query: Query, tallies: Dict<Group, Tally>, event: Event)
    requires Valid(tallies) && Matches(query, event)
    ensures TotalCount(Values(Counted(query, tallies, event))) == TotalCount(Values(tallies)) + 1
    ensures TotalSum(Values(Counted(query, tallies, event))) == TotalSum(Values(tallies)) + event.value
  {
    hide GroupOf, TotalCount, TotalSum;
    var group := GroupOf(query, event);
    var tally := Counted(query, tallies, event).entries[group];
    if group in tallies.entries {
      assert group in (set k | k in tallies.order);
      var i :| 0 <= i < |tallies.order| && tallies.order[i] == group;
      ValuesPutOld(tallies, i, tally);
      TotalsUpdate(Values(tallies), i, tally);
    } else {
      ValuesPutNew(tallies, group, tally);
      TotalsSnoc(Values(tallies), tally);
    }
  }

  /** The groups after all events. */
  function TallyAll(query: Query, events: seq<Event>): (tallies: Dict<Group, Tally>)
    ensures Valid(tallies)
  {
    if events == [] then Empty()
    else Counted(query, TallyAll(query, events[..|events| - 1]), events[|events| - 1])
  }

  /** Counting event by event gives the tallies of exactly the groups that occur, and conserves number and value. */
  lemma {:induction false} TallyAllIsExact(query: Query, events: seq<Event>)
    ensures Tallied(query, events, TallyAll(query, events))
    ensures Conserved(query, events, TallyAll(query, events))
    ensures InOrderSeen(query, events, TallyAll(query, events))
  {
    if events != [] {
      hide Tallied, Conserved, InOrderSeen, Counted;
      var front, last := events[..|events| - 1], events[|events| - 1];
      assert events == front + [last];
      TallyAllIsExact(query, front);
      TalliedStep(query, front, TallyAll(query, front), last);
      ConservedStep(query, front, TallyAll(query, front), last);
      InOrderSeenStep(query, front, TallyAll(query, front), last);
    }
  }

  /** The grouping loop. */
  method TallyEvents(query: Query, events: seq<Event>) returns (tallies: Dict<Group, Tally>, totalEvents: nat)
    ensures tallies == TallyAll(query, events)
    ensures Tallied(query, events, tallies) && Conserved(query, events, tallies) && InOrderSeen(query, events, tallies)
    ensures totalEvents == |Filter(Matching(query), events)|
  {
    tallies, totalEvents := Empty(), 0;
    for i := 0 to |events|
      invariant tallies == TallyAll(query, events[..i])
      invariant totalEvents == |Filter(Matching(query), events[..i])|
    {
      TakeSnoc(events, i);
      FilterSnoc(Matching(query), events[..i], events[i]);
      if !Matches(query, events[i]) {
        continue;
      }
      tallies := Counted(query, tallies, events[i]);
      totalEvents := totalEvents + 1;
    }
    TakeEnds(events);
    TallyAllIsExact(query, events);
  }

  // ---------- the cut and the noise ----------

  predicate LargestFirst(a: Tally, b: Tally) {
    a.count >= b.count
  }

  /** The largest `maxGroups` groups. */
  function CutGroups(tallies: seq<Tally>, maxGroups: nat): seq<Tally> {
    var grouped := Sort(LargestFirst, tallies);
    if maxGroups <= |grouped| then grouped[..maxGroups] else grouped
  }

  function DroppedGroups(tallies: seq<Tally>, maxGroups: nat): seq<Tally> {
    var grouped := Sort(LargestFirst, tallies);
    if maxGroups <= |grouped| then grouped[maxGroups..] else []
  }

  /** The cut loses no group but the dropped ones, and none of these is larger than a kept one. */
  lemma CutKeepsLargest(tallies: seq<Tally>, maxGroups: nat, i: nat, j: nat)
    ensures multiset(CutGroups(tallies, maxGroups)) + multiset(DroppedGroups(tallies, maxGroups)) == multiset(tallies)
    ensures |CutGroups(tallies, maxGroups)| == if |tallies| <= maxGroups then |tallies| else maxGroups
    ensures i < |CutGroups(tallies, maxGroups)| && j < |DroppedGroups(tallies, maxGroups)| ==>
              CutGroups(tallies, maxGroups)[i].count >= DroppedGroups(tallies, maxGroups)[j].count
  {
    hide Sort;
    var grouped := Sort(LargestFirst, tallies);
    SortSorts(LargestFirst, tallies);
    assert grouped == CutGroups(tallies, maxGroups) + DroppedGroups(tallies, maxGroups);
    if i < |CutGroups(tallies, maxGroups)| && j < |DroppedGroups(tallies, maxGroups)| {
      assert LargestFirst(grouped[i], grouped[maxGroups + j]);
    }
  }

  lemma CutGroupsMember(tallies: seq<Tally>, maxGroups: nat, t: Tally)
    requires t in CutGroups(tallies, maxGroups)
    ensures t in tallies
  {
    assert t in Sort(LargestFirst, tallies);
  }

  type Bucket = b: nat | b <= 2000

  function Abs(x: real): real {
    if x < 0.0 then -x else x
  }

  /** `centered / max(epsilon, 1e-6)`, with `centered` between -1 and 1. */
  function Noise(bucket: Bucket, epsilon: real): real {
    (bucket as real - 1000.0) / 1000.0 / (if epsilon >= 0.000001 then epsilon else 0.000001)
  }

  function NoisySum(trueSum: real, noise: real): real {
    if trueSum + noise >= 0.0 then trueSum + noise else 0.0
  }

  /** The published sum is a sum of non-negative values and within one over epsilon of the true one. */
  lemma NoiseBounded(trueSum: real, bucket: Bucket, epsilon: real)
    requires trueSum >= 0.0 && epsilon > 0.0
    ensures NoisySum(trueSum, Noise(bucket, epsilon)) >= 0.0
    ensures Abs(NoisySum(trueSum, Noise(bucket, epsilon)) - trueSum) <= 1.0 / epsilon
  {
    var centered := (bucket as real - 1000.0) / 1000.0;
    var scale := if epsilon >= 0.000001 then epsilon else 0.000001;
    ScaleDown(centered, scale, epsilon);
  }

  lemma ScaleDown(centered: real, scale: real, epsilon: real)
    requires -1.0 <= centered <= 1.0 && 0.0 < epsilon <= scale
    ensures -(1.0 / epsilon) <= centered / scale <= 1.0 / epsilon
  {
    var x, bound := centered / scale, 1.0 / epsilon;
    assert x * scale == centered && bound * epsilon == 1.0;
    assert bound * scale >= bound * epsilon;
    var above, below := (x - bound) * scale, (x + bound) * scale;
    assert above == centered - bound * scale <= 0.0;
    assert below == centered + bound * scale >= 0.0;
    assert x > bound ==> above > 0.0;
    assert x < -bound ==> below < 0.0;
  }

  // ---------- the report ----------

  /** Redaction hides values, never keys. */
  function Redact(policy: Policy, group: Group): (shown: Group)
    ensures shown.Keys == group.Keys
    ensures forall key | key in group :: shown[key] in {"[redacted]", group[key]}
  {
    map key | key in group :: if key in policy.redactKeys then "[redacted]" else group[key]
  }

  function Average(sum: real, count: nat): real {
    if count > 0 then sum / count as real else 0.0
  }

  /** Averaging shrinks the noise: the error of the average is that of the sum divided by the count. */
  lemma AverageBounded(trueSum: real, noisySum: real, count: nat, bound: real)
    requires count > 0 && noisySum >= 0.0 && Abs(noisySum - trueSum) <= bound
    ensures Average(noisySum, count) >= 0.0
    ensures Abs(Average(noisySum, count) - Average(trueSum, count)) <= bound / count as real
  {
    var n := count as real;
    QuotientMonotone(0.0, noisySum, n);
    QuotientMonotone(noisySum - trueSum, bound, n);
    QuotientMonotone(trueSum - noisySum, bound, n);
    QuotientDifference(noisySum, trueSum, n);
    QuotientDifference(trueSum, noisySum, n);
  }

  lemma QuotientMonotone(a: real, b: real, n: real)
    requires n > 0.0 && a <= b
    ensures a / n <= b / n
  {
  }

  lemma QuotientDifference(a: real, b: real, n: real)
    requires n > 0.0
    ensures (a - b) / n == a / n - b / n
  {
  }

  /** The bucket drawn for a group: a digest of the seed, the query, the group shown and its count. */
  type NoiseSource = (string, Query, Group, nat) -> Bucket

  function Publish(policy: Policy, query: Query, draw: NoiseSource, tally: Tally): Visible {
    var group := Redact(policy, tally.group);
    var noise := Noise(draw(policy.noiseSeed, query, group, tally.count), policy.epsilon);
    var noisySum := NoisySum(tally.trueSum, noise);
    Visible(group, tally.count, tally.trueSum, noisySum, Average(tally.trueSum, tally.count),
            Average(noisySum, tally.count), noise)
  }

  function LargeEnough(policy: Policy): Tally -> bool {
    (tally: Tally) => tally.count >= policy.minGroupSize
  }

  function PublishAll(policy: Policy, query: Query, draw: NoiseSource, tallies: seq<Tally>): (r: seq<Visible>)
    ensures |r| == |tallies|
  {
    seq(|tallies|, i requires 0 <= i < |tallies| => Publish(policy, query, draw, tallies[i]))
  }

  lemma PublishStep(policy: Policy, query: Query, draw: NoiseSource, grouped: seq<Tally>, i: nat)
    requires i < |grouped|
    ensures PublishAll(policy, query, draw, Filter(LargeEnough(policy), grouped[..i + 1])) ==
            PublishAll(policy, query, draw, Filter(LargeEnough(policy), grouped[..i]))
            + (if grouped[i].count >= policy.minGroupSize then [Publish(policy, query, draw, grouped[i])] else [])
    ensures |PublishAll(policy, query, draw, Filter(LargeEnough(policy), grouped[..i]))| <= i
  {
    hide Publish;
    TakeSnoc(grouped, i);
    FilterSnoc(LargeEnough(policy), grouped[..i], grouped[i]);
  }

  /** The suppression loop over the groups that survived the cut. */
  method PublishGroups(policy: Policy, query: Query, draw: NoiseSource, grouped: seq<Tally>)
    returns (visible: seq<Visible>, suppressed: nat)
    ensures visible == PublishAll(policy, query, draw, Filter(LargeEnough(policy), grouped))
    ensures |visible| + suppressed == |grouped|
  {
    hide Publish, Filter;
    visible, suppressed := [], 0;
    for i := 0 to |grouped|
      invariant visible == PublishAll(policy, query, draw, Filter(LargeEnough(policy), grouped[..i]))
      invariant |visible| + suppressed == i
    {
      PublishStep(policy, query, draw, grouped, i);
      if grouped[i].count < policy.minGroupSize {
        suppressed := suppressed + 1;
        continue;
      }
      visible := visible + [Publish(policy, query, draw, grouped[i])];
    }
    TakeEnds(grouped);
  }

  datatype Report = Report(
    reportId: string, generatedAt: real, tenantId: string, totalEvents: nat, visibleGroups: nat, suppressedGroups: nat, epsilon: real, minGroupSize: int,
    groups: seq<Visible>)

  /** What `upsert_policy` accepts, and the policy of a tenant that has none. */
  predicate ValidPolicy(policy: Policy) {
    policy.epsilon > 0.0 && policy.minGroupSize > 0 && policy.maxGroups > 0
  }

  const EVENT_LIMIT := 20000

  const REPORT_LIMIT := 2000

  function EventId(event: Event): string {
    event.eventId
  }

  function ReportId(report: Report): string {
    report.reportId
  }

  predicate LaterEvent(a: Event, b: Event) {
    a.observedAt >= b.observedAt
  }

  predicate LaterReport(a: Report, b: Report) {
    a.generatedAt >= b.generatedAt
  }

  /** The kept events: at most `EVENT_LIMIT`, each under its id, none of negative value. */
  ghost predicate ValidEvents(events: Dict<string, Event>) {
    && Valid(events) && Keyed(events, EventId) && |events.order| <= EVENT_LIMIT
    && forall id | id in events.entries :: events.entries[id].value >= 0.0
  }

  function Ingested(events: Dict<string, Event>, event: Event): Dict<string, Event>
    requires Valid(events)
  {
    TrimToNewest(Put(events, event.eventId, event), LaterEvent, EventId, EVENT_LIMIT)
  }

  /** An event more: appended while there is room, otherwise the earliest observation is dropped. */
  lemma IngestedKeepsLatest(events: Dict<string, Event>, event: Event)
    requires ValidEvents(events) && event.eventId !in events.entries && event.value >= 0.0
    ensures ValidEvents(Ingested(events, event))
    ensures Values(Ingested(events, event)) ==
            if |events.order| < 20000 then Values(events) + [event]
            else Sort(LaterEvent, Values(events) + [event])[..20000]
    ensures var all := Put(events, event.eventId, event);
      forall kept, dropped |
        && kept in Ingested(events, event).entries
        && dropped in all.entries && dropped !in Ingested(events, event).entries ::
        all.entries[kept].observedAt >= all.entries[dropped].observedAt
  {
    hide Values, Valid, KeepNewest, TrimToNewest, Sort, LaterEvent;
    var all := Put(events, event.eventId, event);
    ValuesPutNew(events, event.eventId, event);
    TrimmedValues(all, LaterEvent, EventId, EVENT_LIMIT);
    TrimmedEntries(all, LaterEvent, EventId, EVENT_LIMIT);
    forall kept, dropped |
      kept in Ingested(events, event).entries && dropped in all.entries && dropped !in Ingested(events, event).entries
      ensures all.entries[kept].observedAt >= all.entries[dropped].observedAt
    {
      LatestKept(events, event, kept, dropped);
    }
    assert |Values(all)| == |all.order| && |Values(events)| == |events.order|;
  }

  lemma LatestKept(events: Dict<string, Event>, event: Event, kept: string, dropped: string)
    requires ValidEvents(events)
    requires kept in Ingested(events, event).entries
    requires dropped in Put(events, event.eventId, event).entries && dropped !in Ingested(events, event).entries
    ensures Put(events, event.eventId, event).entries[kept].observedAt
            >= Put(events, event.eventId, event).entries[dropped].observedAt
  {
    hide KeepNewest, Values;
    KeepNewestKeepsNewest(Put(events, event.eventId, event), LaterEvent, EventId, EVENT_LIMIT, kept, dropped);
  }

  ghost predicate ValidReports(reports: Dict<string, Report>) {
    Valid(reports) && Keyed(reports, ReportId) && |reports.order| <= REPORT_LIMIT
  }

  function Stored(reports: Dict<string, Report>, report: Report): Dict<string, Report>
    requires Valid(reports)
  {
    TrimToNewest(Put(reports, report.reportId, report), LaterReport, ReportId, REPORT_LIMIT)
  }

  lemma StoredKeepsLatest(reports: Dict<string, Report>, report: Report)
    requires ValidReports(reports)
    ensures ValidReports(Stored(reports, report))
    ensures var all := Put(reports, report.reportId, report);
      |Stored(reports, report).order| == if |all.order| <= 2000 then |all.order| else 2000
    ensures forall kept, dropped |
              && kept in Stored(reports, report).entries
              && dropped in Put(reports, report.reportId, report).entries
              && dropped !in Stored(reports, report).entries ::
              Put(reports, report.reportId, report).entries[kept].generatedAt
              >= Put(reports, report.reportId, report).entries[dropped].generatedAt
  {
    var all := Put(reports, report.reportId, report);
    TrimmedValues(all, LaterReport, ReportId, REPORT_LIMIT);
    hide KeepNewest, Values;
    forall kept, dropped |
      kept in Stored(reports, report).entries && dropped in all.entries && dropped !in Stored(reports, report).entries
      ensures all.entries[kept].generatedAt >= all.entries[dropped].generatedAt
    {
      KeepNewestKeepsNewest(all, LaterReport, ReportId, REPORT_LIMIT, kept, dropped);
    }
  }

  /** What `generate_report` reports about a list of events. */
  function ReportOf(
      policy: Policy, query: Query, draw: NoiseSource, events: seq<Event>, reportId: string, now: real): Report
    requires ValidPolicy(policy)
  {
    var grouped := CutGroups(Values(TallyAll(query, events)), policy.maxGroups);
    var visible := PublishAll(policy, query, draw, Filter(LargeEnough(policy), grouped));
    Report(reportId, now, query.tenantId, |Filter(Matching(query), events)|, |visible|, |grouped| - |visible|,
           policy.epsilon, policy.minGroupSize, visible)
  }

  /** The report accounts for every matching event and for every group up to the limit. */
  lemma ReportAccounts(policy: Policy, query: Query, draw: NoiseSource, events: seq<Event>, reportId: string, now: real)
    requires ValidPolicy(policy)
    ensures var report, tallies := ReportOf(policy, query, draw, events, reportId, now), TallyAll(query, events);
      && report.totalEvents == TotalCount(Values(tallies)) == |Filter((event: Event) => Answers(query, event), events)|
      && TotalSum(Values(tallies)) == Sum(Filter((event: Event) => Answers(query, event), events))
      && report.visibleGroups == |report.groups|
      && report.visibleGroups + report.suppressedGroups
         == (if |tallies.order| <= policy.maxGroups then |tallies.order| else policy.maxGroups)
  {
    hide PublishAll, Tallied, TotalCount, TotalSum, Sum, Filter;
    TallyAllIsExact(query, events);
    AnswersExact(query, events);
  }

  function DefaultPolicy(tenantId: string): Policy {
    Policy(1.0, 3, 200, {}, tenantId)
  }

  class PrivacyAnalyticsService {
    var policies: map<string, Policy>
    var events: Dict<string, Event>
    var reports: Dict<string, Report>
    const draw: NoiseSource

    ghost predicate Invariant()
      reads this
    {
      && (forall tenant | tenant in policies :: ValidPolicy(policies[tenant]))
      && ValidEvents(events) && ValidReports(reports)
    }

    constructor (draw: NoiseSource)
      ensures Invariant() && policies == map[] && events == Empty() && reports == Empty() && this.draw == draw
    {
      policies, events, reports := map[], Empty(), Empty();
      this.draw := draw;
    }

    method UpsertPolicy(tenantId: string, policy: Policy) returns (r: Result<Policy>)
      requires Invariant()
      modifies this`policies
      ensures Invariant()
      ensures r.Ok? <==> tenantId != "" && ValidPolicy(policy)
      ensures r.Ok? ==> r.value == policy.(noiseSeed := if policy.noiseSeed == "" then tenantId else policy.noiseSeed)
      ensures policies == if r.Ok? then old(policies)[tenantId := r.value] else old(policies)
    {
      if tenantId == "" {
        return Raised("tenant_id must not be empty");
      }
      if policy.epsilon <= 0.0 {
        return Raised("epsilon must be > 0");
      }
      if policy.minGroupSize <= 0 {
        return Raised("min_group_size must be > 0");
      }
      if policy.maxGroups <= 0 {
        return Raised("max_groups must be > 0");
      }
      var stored := policy.(noiseSeed := if policy.noiseSeed == "" then tenantId else policy.noiseSeed);
      policies := policies[tenantId := stored];
      r := Ok(stored);
    }

    method IngestEvent(event: Event) returns (r: Result<Event>)
      requires Invariant() && event.eventId !in events.entries
      modifies this`events
      ensures Invariant()
      ensures r.Ok? <==> event.tenantId != "" && event.metricName != "" && event.value >= 0.0
      ensures r.Ok? ==> r.value == event
      ensures events == if r.Ok? then Ingested(old(events), event) else old(events)
    {
      hide ValidPolicy, ValidReports, Ingested, Put, Keyed, Valid;
      if event.tenantId == "" {
        return Raised("tenant_id must not be empty");
      }
      if event.metricName == "" {
        return Raised("metric_name must not be empty");
      }
      if event.value < 0.0 {
        return Raised("value must be >= 0");
      }
      IngestedKeepsLatest(events, event);
      events := Ingested(events, event);
      r := Ok(event);
    }

    function PolicyOf(tenantId: string): Policy
      reads this`policies
    {
      if tenantId in policies then policies[tenantId] else DefaultPolicy(tenantId)
    }

    /** `reportId` is the fresh id, `now` the clock. */
    method GenerateReport(query: Query, reportId: string, now: real) returns (r: Result<Report>)
      requires Invariant()
      modifies this`reports
      ensures Invariant()
      ensures r == if query.tenantId == "" then Raised("tenant_id must not be empty")
                   else Ok(ReportOf(PolicyOf(query.tenantId), query, draw, Values(events), reportId, now))
      ensures r.Ok? ==>
                && r.value.reportId == reportId && r.value.generatedAt == now && r.value.tenantId == query.tenantId
                // without a policy of its own a tenant has epsilon 1 and groups of at least 3, at most 200 of them
                && (if query.tenantId in policies
                    then r.value.epsilon == policies[query.tenantId].epsilon
                         && r.value.minGroupSize == policies[query.tenantId].minGroupSize
                    else r.value.epsilon == 1.0 && r.value.minGroupSize == 3
                         && PolicyOf(query.tenantId) == Policy(1.0, 3, 200, {}, query.tenantId))
      ensures reports == if r.Ok? then Stored(old(reports), r.value) else old(reports)
    {
      hide PublishAll, Tallied, Conserved, InOrderSeen, TallyAll, Filter, Stored, Put, Keyed, Valid, CutGroups, Values;
      if query.tenantId == "" {
        return Raised("tenant_id must not be empty");
      }
      var policy := PolicyOf(query.tenantId);
      var reportGroups, totalEvents := TallyEvents(query, Values(events));
      var grouped := CutGroups(Values(reportGroups), policy.maxGroups);
      var visible, suppressed := PublishGroups(policy, query, draw, grouped);
      var report := Report(reportId, now, query.tenantId, totalEvents, |visible|, suppressed,
                           policy.epsilon, policy.minGroupSize, visible);
      StoredKeepsLatest(reports, report);
      reports := Stored(reports, report);
      r := Ok(report);
    }
  }

  /** Every published group is large enough, keeps its keys, and has an honest noisy sum. */
  lemma PublishedGroup(policy: Policy, query: Query, draw: NoiseSource, tallies: seq<Tally>, i: nat) returns (t: Tally)
    requires ValidPolicy(policy)
    requires forall t | t in tallies :: t.trueSum >= 0.0
    requires i < |Filter(LargeEnough(policy), tallies)|
    ensures var shown := PublishAll(policy, query, draw, Filter(LargeEnough(policy), tallies))[i];
      && t in tallies && shown.count == t.count >= policy.minGroupSize && shown.trueSum == t.trueSum
      && shown.noisySum >= 0.0 && Abs(shown.noisySum - shown.trueSum) <= 1.0 / policy.epsilon
      && HonestAverages(policy, shown)
      && Redacted(policy, t.group, shown.group)
      && Noised(policy, query, draw, shown)
  {
    hide Abs;
    t := Filter(LargeEnough(policy), tallies)[i];
    assert t in Filter(LargeEnough(policy), tallies);
    var bucket := draw(policy.noiseSeed, query, Redact(policy, t.group), t.count);
    NoiseBounded(t.trueSum, bucket, policy.epsilon);
    var shown := Publish(policy, query, draw, t);
    AverageBounded(shown.trueSum, shown.noisySum, shown.count, 1.0 / policy.epsilon);
    NoiseExact(bucket, policy.epsilon);
  }

  /** The keys to hide show "[redacted]", the others their own value. */
  predicate Redacted(policy: Policy, group: Group, shown: Group) {
    && shown.Keys == group.Keys
    && forall key | key in group :: shown[key] == if key in policy.redactKeys then "[redacted]" else group[key]
  }

  /** The noise is drawn for the group shown, between -1 and 1 over epsilon, and the noisy sum is not negative. */
  predicate Noised(policy: Policy, query: Query, draw: NoiseSource, shown: Visible) {
    var bucket := draw(policy.noiseSeed, query, shown.group, shown.count);
    && (policy.epsilon >= 0.000001 ==> 1000.0 * shown.noise * policy.epsilon == bucket as real - 1000.0)
    && (policy.epsilon < 0.000001 ==> shown.noise == 1000.0 * (bucket as real - 1000.0))
    && (shown.trueSum + shown.noise >= 0.0 ==> shown.noisySum == shown.trueSum + shown.noise)
    && (shown.trueSum + shown.noise < 0.0 ==> shown.noisySum == 0.0)
  }

  lemma NoiseExact(bucket: Bucket, epsilon: real)
    ensures epsilon >= 0.000001 ==> 1000.0 * Noise(bucket, epsilon) * epsilon == bucket as real - 1000.0
    ensures epsilon < 0.000001 ==> Noise(bucket, epsilon) == 1000.0 * (bucket as real - 1000.0)
  {
    var centered := (bucket as real - 1000.0) / 1000.0;
    if epsilon >= 0.000001 {
      assert centered / epsilon * epsilon == centered;
    }
  }

  /** The true average, and a noisy one within one over epsilon and the count. */
  predicate HonestAverages(policy: Policy, shown: Visible)
    requires policy.epsilon > 0.0
  {
    && shown.count > 0 && shown.average == shown.trueSum / shown.count as real
    && shown.noisyAverage >= 0.0
    && Abs(shown.noisyAverage - shown.average) <= 1.0 / policy.epsilon / shown.count as real
  }

  /** Sums of events with non-negative values are non-negative. */
  lemma {:induction false} SumNonNegative(events: seq<Event>)
    requires forall e | e in events :: e.value >= 0.0
    ensures Sum(events) >= 0.0
  {
    if events != [] {
      SumNonNegative(events[..|events| - 1]);
      assert events[|events| - 1] in events;
    }
  }

  lemma TalliesNonNegative(query: Query, events: seq<Event>, tallies: Dict<Group, Tally>, t: Tally)
    requires Tallied(query, events, tallies) && t in Values(tallies)
    requires forall e | e in events :: e.value >= 0.0
    ensures t.trueSum >= 0.0
  {
    ValuesMember(tallies, GroupKey, t);
    SumNonNegative(Filter(InGroup(query, t.group), events));
  }

  /** The event answers the query. */
  predicate Answers(query: Query, event: Event) {
    && event.tenantId == query.tenantId
    && (query.metricName != "" ==> event.metricName == query.metricName)
    && (query.startTime.Some? ==> query.startTime.value <= event.observedAt)
    && (query.endTime.Some? ==> event.observedAt <= query.endTime.value)
  }

  /** The event has the group's value for every key, where "unknown" stands for a missing one. */
  predicate Belongs(query: Query, group: Group, event: Event) {
    && Answers(query, event)
    && group.Keys == (set key | key in query.groupBy)
    && forall key | key in group ::
         group[key] == if key in event.dimensions then event.dimensions[key] else "unknown"
  }

  function MembersOf(query: Query, group: Group, events: seq<Event>): seq<Event> {
    Filter((event: Event) => Belongs(query, group, event), events)
  }

  lemma MembersExact(query: Query, group: Group, events: seq<Event>)
    ensures Filter(InGroup(query, group), events) == MembersOf(query, group, events)
  {
    hide Filter;
    forall event ensures InGroup(query, group)(event) == Belongs(query, group, event) {
      if Matches(query, event) && Belongs(query, group, event) {
        assert GroupOf(query, event).Keys == group.Keys;
      }
    }
    FilterAgree(InGroup(query, group), (event: Event) => Belongs(query, group, event), events);
  }

  lemma AnswersExact(query: Query, events: seq<Event>)
    ensures Filter(Matching(query), events) == Filter((event: Event) => Answers(query, event), events)
  {
    FilterAgree(Matching(query), (event: Event) => Answers(query, event), events);
  }

  /** What the report shows of a group of the events. */
  predicate Shows(policy: Policy, query: Query, draw: NoiseSource, events: seq<Event>, shown: Visible, group: Group)
    requires policy.epsilon > 0.0
  {
    && shown.count == |MembersOf(query, group, events)|
    && shown.trueSum == Sum(MembersOf(query, group, events))
    && shown.noisySum >= 0.0 && Abs(shown.noisySum - shown.trueSum) <= 1.0 / policy.epsilon
    && HonestAverages(policy, shown)
    && Redacted(policy, group, shown.group)
    && Noised(policy, query, draw, shown)
  }

  /**
   Every group that a report shows is one of the groups of the events, with its true
   number and sum, large enough, with the keys to hide redacted and no others, and with
   a noisy sum within one over epsilon.
   */
  lemma ReportIsHonest(
      policy: Policy, query: Query, draw: NoiseSource, events: seq<Event>, reportId: string, now: real, i: nat)
      returns (group: Group)
    requires ValidPolicy(policy) && forall e | e in events :: e.value >= 0.0
    requires i < |ReportOf(policy, query, draw, events, reportId, now).groups|
    ensures var shown := ReportOf(policy, query, draw, events, reportId, now).groups[i];
      Shows(policy, query, draw, events, shown, group) && shown.count >= policy.minGroupSize
  {
    hide PublishAll, HonestAverages, Redacted, Noised, Tallied, Conserved, InOrderSeen, TallyAll, Filter, Sum, CutGroups,
      Values, Valid, Abs, MembersOf;
    var tallies := TallyAll(query, events);
    var grouped := CutGroups(Values(tallies), policy.maxGroups);
    TallyAllIsExact(query, events);
    CutNonNegative(query, events, tallies, policy.maxGroups);
    var t := PublishedGroup(policy, query, draw, grouped, i);
    group := t.group;
    CutGroupsMember(Values(tallies), policy.maxGroups, t);
    TallyIsExact(query, events, tallies, t);
    MembersExact(query, group, events);
  }

  lemma CutNonNegative(query: Query, events: seq<Event>, tallies: Dict<Group, Tally>, maxGroups: nat)
    requires Tallied(query, events, tallies) && forall e | e in events :: e.value >= 0.0
    ensures forall t | t in CutGroups(Values(tallies), maxGroups) :: t in Values(tallies) && t.trueSum >= 0.0
  {
    hide CutGroups, Values;
    forall t | t in CutGroups(Values(tallies), maxGroups) ensures t in Values(tallies) && t.trueSum >= 0.0 {
      CutGroupsMember(Values(tallies), maxGroups, t);
      TalliesNonNegative(query, events, tallies, t);
    }
  }

  /**
   No group is withheld without a reason: a group of the events that is large enough is
   shown, unless the report has as many groups as allowed and none of these is smaller.
   */
  lemma ReportIsComplete(
      policy: Policy, query: Query, draw: NoiseSource, events: seq<Event>, reportId: string, now: real, group: Group)
    requires ValidPolicy(policy) && forall e | e in events :: e.value >= 0.0
    requires |MembersOf(query, group, events)| >= policy.minGroupSize
    ensures var report := ReportOf(policy, query, draw, events, reportId, now);
      || (exists i | 0 <= i < |report.groups| :: Shows(policy, query, draw, events, report.groups[i], group))
      || (&& report.visibleGroups + report.suppressedGroups == policy.maxGroups
          && forall i | 0 <= i < |report.groups| :: report.groups[i].count >= |MembersOf(query, group, events)|)
  {
    hide Publish, Tallied, Conserved, InOrderSeen, TallyAll, Filter, Sum, CutGroups, Values, Valid, MembersOf, Shows;
    var tallies := TallyAll(query, events);
    var all, large := Values(tallies), LargeEnough(policy);
    var grouped := CutGroups(all, policy.maxGroups);
    TallyAllIsExact(query, events);
    MembersExact(query, group, events);
    var t := TallyListed(query, events, tallies, group);
    CutDecides(all, policy.maxGroups, t);
    var report := ReportOf(policy, query, draw, events, reportId, now);
    if t in grouped {
      assert t in Filter(large, grouped);
      var i :| 0 <= i < |Filter(large, grouped)| && Filter(large, grouped)[i] == t;
      GroupShown(policy, query, draw, events, t);
      assert report.groups[i] == Publish(policy, query, draw, t);
    } else {
      forall i | 0 <= i < |report.groups| ensures report.groups[i].count >= t.count {
        var u := ShownFrom(policy, query, draw, grouped, i);
      }
    }
  }

  lemma ShownFrom(policy: Policy, query: Query, draw: NoiseSource, grouped: seq<Tally>, i: nat) returns (u: Tally)
    requires i < |Filter(LargeEnough(policy), grouped)|
    ensures u in grouped && u.count == PublishAll(policy, query, draw, Filter(LargeEnough(policy), grouped))[i].count
  {
    hide Filter;
    u := Filter(LargeEnough(policy), grouped)[i];
    assert u in Filter(LargeEnough(policy), grouped);
  }

  lemma GroupShown(policy: Policy, query: Query, draw: NoiseSource, events: seq<Event>, t: Tally)
    requires ValidPolicy(policy) && t.count >= policy.minGroupSize
    requires forall e | e in events :: e.value >= 0.0
    requires t.count == |MembersOf(query, t.group, events)| && t.trueSum == Sum(MembersOf(query, t.group, events))
    ensures Shows(policy, query, draw, events, Publish(policy, query, draw, t), t.group)
  {
    hide Filter, Sum, Publish, HonestAverages, Redacted, Noised, Abs;
    SumNonNegative(MembersOf(query, t.group, events));
    LoneGroup(policy, t);
    var u := PublishedGroup(policy, query, draw, [t], 0);
  }

  lemma LoneGroup(policy: Policy, t: Tally)
    requires t.count >= policy.minGroupSize
    ensures Filter(LargeEnough(policy), [t]) == [t]
  {
    FilterAll(LargeEnough(policy), [t]);
  }

  lemma TallyListed(query: Query, events: seq<Event>, tallies: Dict<Group, Tally>, group: Group) returns (t: Tally)
    requires Tallied(query, events, tallies) && Filter(InGroup(query, group), events) != []
    ensures t in Values(tallies) && t.group == group
    ensures t.count == |Filter(InGroup(query, group), events)| && t.trueSum == Sum(Filter(InGroup(query, group), events))
  {
    t := tallies.entries[group];
    ValuesMember(tallies, GroupKey, t);
  }

  /** A group is cut only when the limit is used up by groups that are no smaller. */
  lemma CutDecides(tallies: seq<Tally>, maxGroups: nat, t: Tally)
    requires t in tallies
    ensures || t in CutGroups(tallies, maxGroups)
            || (&& |CutGroups(tallies, maxGroups)| == maxGroups
                && forall u | u in CutGroups(tallies, maxGroups) :: u.count >= t.count)
  {
    hide CutGroups, DroppedGroups;
    var cut, dropped := CutGroups(tallies, maxGroups), DroppedGroups(tallies, maxGroups);
    CutKeepsLargest(tallies, maxGroups, 0, 0);
    assert t in multiset(tallies);
    if t !in cut {
      assert t in multiset(dropped);
      var j :| 0 <= j < |dropped| && dropped[j] == t;
      CutAll(tallies, maxGroups);
      forall u | u in cut ensures u.count >= t.count {
        var i :| 0 <= i < |cut| && cut[i] == u;
        CutKeepsLargest(tallies, maxGroups, i, j);
      }
    }
  }

  lemma CutAll(tallies: seq<Tally>, maxGroups: nat)
    ensures |tallies| <= maxGroups ==> DroppedGroups(tallies, maxGroups) == []
  {
  }

  lemma TallyIsExact(query: Query, events: seq<Event>, tallies: Dict<Group, Tally>, t: Tally)
    requires Tallied(query, events, tallies) && t in Values(tallies)
    ensures t.count == |Filter(InGroup(query, t.group), events)| && t.trueSum == Sum(Filter(InGroup(query, t.group), events))
  {
    ValuesMember(tallies, GroupKey, t);
  }
}
