/** What a retention sweep leaves: a function of the records, the policy and the clock. */
module Retention {
  import opened Seqs
  import opened ArtifactIndexing

  datatype RetentionPolicy = RetentionPolicy(
    maxAgeSeconds: int, maxArtifactsPerSession: int, holdKey: string, caseKey: string)

  predicate IsLegalHold(record: Record, key: string, caseKey: string) {
    || (key in record.metadata && record.metadata[key] in {"1", "true", "yes", "on"})
    || (caseKey in record.metadata && record.metadata[caseKey] != "")
  }

  predicate Held(policy: RetentionPolicy, record: Record) {
    IsLegalHold(record, policy.holdKey, policy.caseKey)
  }

  function Unheld(policy: RetentionPolicy): Record -> bool {
    (record: Record) => !Held(policy, record)
  }

  predicate TooOld(policy: RetentionPolicy, now: real, record: Record) {
    now - record.createdAt > policy.maxAgeSeconds as real
  }

  predicate NewestFirst(a: Record, b: Record) {
    a.createdAt >= b.createdAt
  }

  predicate OldestFirst(a: Record, b: Record) {
    a.createdAt <= b.createdAt
  }

  // ---------- the two passes ----------

  predicate Expired(policy: RetentionPolicy, now: real, record: Record) {
    !Held(policy, record) && TooOld(policy, now, record)
  }

  function NotExpired(policy: RetentionPolicy, now: real): Record -> bool {
    (record: Record) => !Expired(policy, now, record)
  }

  function UnheldCount(policy: RetentionPolicy, items: seq<Record>): nat {
    |Filter(Unheld(policy), items)|
  }

  /** The unheld items seen after the first `maxArtifactsPerSession` unheld ones. */
  function Overflow(policy: RetentionPolicy, items: seq<Record>): seq<Record> {
    if items == [] then []
    else
      var front, last := items[..|items| - 1], items[|items| - 1];
      Overflow(policy, front)
      + (if !Held(policy, last) && UnheldCount(policy, items) > policy.maxArtifactsPerSession then [last] else [])
  }

  function SessionItems(records: seq<Record>, session: string): seq<Record> {
    Sort(NewestFirst, Filter(OfSession(session), records))
  }

  predicate Overflows(policy: RetentionPolicy, records: seq<Record>, record: Record) {
    record in Overflow(policy, SessionItems(records, record.sessionId))
  }

  function Fitting(policy: RetentionPolicy, records: seq<Record>): Record -> bool {
    (record: Record) => !Overflows(policy, records, record)
  }

  function Young(policy: RetentionPolicy, now: real, records: seq<Record>): seq<Record> {
    Filter(NotExpired(policy, now), records)
  }

  /** What a sweep leaves, in the old order. */
  function Survivors(policy: RetentionPolicy, now: real, records: seq<Record>): seq<Record> {
    Filter(Fitting(policy, Young(policy, now, records)), Young(policy, now, records))
  }

  // ---------- the overflow of one session ----------

  /** An item overflows when it is unheld and its rank among the unheld exceeds the limit. */
  lemma {:induction false} OverflowByRank(policy: RetentionPolicy, items: seq<Record>, k: nat)
    requires Distinct(items) && k < |items|
    ensures items[k] in Overflow(policy, items) <==>
            !Held(policy, items[k]) && UnheldCount(policy, items[..k + 1]) > policy.maxArtifactsPerSession
  {
    var front, last := items[..|items| - 1], items[|items| - 1];
    assert items == front + [last];
    if k == |items| - 1 {
      assert items[..k + 1] == items;
      if last in Overflow(policy, front) {
        OverflowSubset(policy, front, last);
      }
    } else {
      OverflowByRank(policy, front, k);
      assert front[..k + 1] == items[..k + 1];
      assert items[k] != last;
    }
  }

  lemma {:induction false} OverflowSubset(policy: RetentionPolicy, items: seq<Record>, r: Record)
    requires r in Overflow(policy, items)
    ensures r in items && !Held(policy, r)
  {
    var front, last := items[..|items| - 1], items[|items| - 1];
    assert items == front + [last];
    if r in Overflow(policy, front) {
      OverflowSubset(policy, front, r);
    }
  }

  lemma {:induction false} UnheldCountMonotone(policy: RetentionPolicy, items: seq<Record>, i: nat, j: nat)
    requires i <= j <= |items|
    ensures UnheldCount(policy, items[..i]) <= UnheldCount(policy, items[..j])
    ensures i < j && !Held(policy, items[j - 1]) ==>
              UnheldCount(policy, items[..i]) < UnheldCount(policy, items[..j])
  {
    if i < j {
      UnheldCountMonotone(policy, items, i, j - 1);
      assert items[..j] == items[..j - 1] + [items[j - 1]];
      FilterSnoc(Unheld(policy), items[..j - 1], items[j - 1]);
    }
  }

  function Limit(policy: RetentionPolicy): nat {
    if policy.maxArtifactsPerSession < 0 then 0 else policy.maxArtifactsPerSession
  }

  function Min(a: nat, b: nat): nat {
    if a <= b then a else b
  }

  function UnheldNotIn(policy: RetentionPolicy, overflow: seq<Record>): Record -> bool {
    (record: Record) => !Held(policy, record) && record !in overflow
  }

  lemma {:induction false} KeptCount(policy: RetentionPolicy, items: seq<Record>, i: nat)
    requires Distinct(items) && i <= |items|
    ensures |Filter(UnheldNotIn(policy, Overflow(policy, items)), items[..i])|
            == Min(UnheldCount(policy, items[..i]), Limit(policy))
  {
    if i > 0 {
      var kept, last := UnheldNotIn(policy, Overflow(policy, items)), items[i - 1];
      KeptCount(policy, items, i - 1);
      OverflowByRank(policy, items, i - 1);
      TakeSnoc(items, i - 1);
      FilterSnoc(kept, items[..i - 1], last);
      FilterSnoc(Unheld(policy), items[..i - 1], last);
      assert kept(last) <==> !Held(policy, last) && UnheldCount(policy, items[..i]) <= policy.maxArtifactsPerSession;
      hide Overflow, Held, Filter;
    }
  }

  lemma {:induction false} NoOverflowWithinLimit(policy: RetentionPolicy, items: seq<Record>)
    requires UnheldCount(policy, items) <= Limit(policy)
    ensures Overflow(policy, items) == []
  {
    if items != [] {
      var front, last := items[..|items| - 1], items[|items| - 1];
      assert items == front + [last];
      FilterSnoc(Unheld(policy), front, last);
      NoOverflowWithinLimit(policy, front);
    }
  }

  // ---------- what a sweep guarantees ----------

  lemma SessionItemsDistinct(records: seq<Record>, session: string)
    requires Distinct(records)
    ensures Distinct(SessionItems(records, session))
    ensures SortedBy(NewestFirst, SessionItems(records, session))
  {
    FilterDistinct(OfSession(session), records);
    SortDistinct(NewestFirst, Filter(OfSession(session), records));
    SortSorts(NewestFirst, Filter(OfSession(session), records));
  }

  /** Legal holds are never swept, and expired records always are. */
  lemma HeldSurviveExpiredDoNot(policy: RetentionPolicy, now: real, records: seq<Record>, r: Record)
    requires r in records
    ensures Held(policy, r) ==> r in Survivors(policy, now, records)
    ensures Expired(policy, now, r) ==> r !in Survivors(policy, now, records)
  {
    if Held(policy, r) && Overflows(policy, Young(policy, now, records), r) {
      OverflowSubset(policy, SessionItems(Young(policy, now, records), r.sessionId), r);
    }
  }

  function UnheldOf(policy: RetentionPolicy, session: string): Record -> bool {
    (record: Record) => !Held(policy, record) && record.sessionId == session
  }

  /** Each session keeps as many unheld unexpired records as it has, up to the limit. */
  lemma SessionKeepsUpToLimit(policy: RetentionPolicy, now: real, records: seq<Record>, session: string)
    requires Distinct(records)
    ensures |Filter(UnheldOf(policy, session), Survivors(policy, now, records))|
            == Min(|Filter(UnheldOf(policy, session), Young(policy, now, records))|, Limit(policy))
  {
    var young := Young(policy, now, records);
    FilterDistinct(NotExpired(policy, now), records);
    var items := SessionItems(young, session);
    SessionItemsDistinct(young, session);
    var kept := UnheldNotIn(policy, Overflow(policy, items));
    KeptCount(policy, items, |items|);
    assert items[..|items|] == items;

    var ofSession := Filter(OfSession(session), young);
    FilterCountPermuted(kept, items, ofSession);
    FilterCountPermuted(Unheld(policy), items, ofSession);
    var both := (r: Record) => r.sessionId == session && kept(r);
    FilterTwice(OfSession(session), kept, both, young);
    FilterTwice(Fitting(policy, young), UnheldOf(policy, session), both, young);
    FilterTwice(OfSession(session), Unheld(policy), UnheldOf(policy, session), young);
  }

  /** No unheld survivor is older than a removed unheld record of its session. */
  lemma SurvivorsAreNewest(policy: RetentionPolicy, now: real, records: seq<Record>, survivor: Record, removed: Record)
    requires Distinct(records) && survivor.sessionId == removed.sessionId
    requires survivor in Survivors(policy, now, records) && !Held(policy, survivor)
    requires removed in records && removed !in Survivors(policy, now, records)
    ensures survivor.createdAt >= removed.createdAt
  {
    var young := Young(policy, now, records);
    if removed in young {
      FilterDistinct(NotExpired(policy, now), records);
      SessionItemsDistinct(young, removed.sessionId);
      OverflowIsOldest(policy, SessionItems(young, removed.sessionId), survivor, removed);
    }
  }

  lemma OverflowIsOldest(policy: RetentionPolicy, items: seq<Record>, kept: Record, removed: Record)
    requires Distinct(items) && SortedBy(NewestFirst, items)
    requires kept in items && !Held(policy, kept) && kept !in Overflow(policy, items)
    requires removed in items && removed in Overflow(policy, items)
    ensures kept.createdAt >= removed.createdAt
  {
    hide Overflow, Held, UnheldCount;
    var i :| 0 <= i < |items| && items[i] == kept;
    var j :| 0 <= j < |items| && items[j] == removed;
    OverflowByRank(policy, items, i);
    OverflowByRank(policy, items, j);
    if j < i {
      UnheldCountMonotone(policy, items, j + 1, i + 1);
    } else {
      assert i < j ==> NewestFirst(items[i], items[j]);
    }
  }

  // ---------- survival without sorting ----------

  /** A hold in the policy's own terms: one of four values under one key, or any case under the other. */
  predicate OnHold(policy: RetentionPolicy, record: Record) {
    var hold := if policy.holdKey in record.metadata then record.metadata[policy.holdKey] else "";
    var holdingCase := if policy.caseKey in record.metadata then record.metadata[policy.caseKey] else "";
    hold == "1" || hold == "true" || hold == "yes" || hold == "on" || holdingCase != ""
  }

  /** Neither held nor past the maximum age. */
  predicate Competes(policy: RetentionPolicy, now: real, record: Record) {
    !OnHold(policy, record) && now <= record.createdAt + policy.maxAgeSeconds as real
  }

  /** The competing records of the session that are newer than record `i`, or as new and listed before it. */
  function Ahead(policy: RetentionPolicy, now: real, records: seq<Record>, i: nat): seq<Record>
    requires i < |records|
  {
    var r := records[i];
    Filter((other: Record) => Competes(policy, now, other) && other.sessionId == r.sessionId && other.createdAt > r.createdAt,
           records)
    + Filter((other: Record) => Competes(policy, now, other) && other.sessionId == r.sessionId && other.createdAt == r.createdAt,
             records[..i])
  }

  lemma HeldIsOnHold(policy: RetentionPolicy, record: Record)
    ensures Held(policy, record) == OnHold(policy, record)
  {
  }

  function NewerThan(c: real, policy: RetentionPolicy): Record -> bool {
    (r: Record) => !Held(policy, r) && r.createdAt > c
  }

  function AsNewAs(c: real): Record -> bool {
    (r: Record) => r.createdAt == c
  }

  function UnheldAsNew(c: real, policy: RetentionPolicy): Record -> bool {
    (r: Record) => !Held(policy, r) && r.createdAt == c
  }

  /** In a sorted session the unheld items before one are the newer ones and the equally new ones before it. */
  lemma BeforeInItems(policy: RetentionPolicy, items: seq<Record>, k: nat)
    requires SortedBy(NewestFirst, items) && k < |items|
    ensures var c := items[k].createdAt;
      UnheldCount(policy, items[..k])
      == |Filter(NewerThan(c, policy), items)| + |Filter(UnheldAsNew(c, policy), items[..k])|
  {
    hide Filter, Held;
    var c := items[k].createdAt;
    forall i | 0 <= i < |items| ensures (i < k ==> items[i].createdAt >= c) && (i >= k ==> items[i].createdAt <= c) {
      assert i < k ==> NewestFirst(items[i], items[k]);
      assert i > k ==> NewestFirst(items[k], items[i]);
    }
    FilterSplit(Unheld(policy), NewerThan(c, policy), UnheldAsNew(c, policy), items[..k]);
    assert items == items[..k] + items[k..];
    FilterConcat(NewerThan(c, policy), items[..k], items[k..]);
    FilterNone(NewerThan(c, policy), items[k..]);
  }

  lemma FilterAround(p: Record -> bool, s: seq<Record>, k: nat)
    requires k < |s| && p(s[k])
    ensures Filter(p, s) == Filter(p, s[..k]) + [s[k]] + Filter(p, s[k + 1..])
  {
    hide Filter;
    TakeSnoc(s, k);
    assert s == s[..k + 1] + s[k + 1..];
    FilterConcat(p, s[..k + 1], s[k + 1..]);
    FilterSnoc(p, s[..k], s[k]);
  }

  /** The unheld items before one in its sorted session are the records ahead of it. */
  lemma RankIsAhead(policy: RetentionPolicy, now: real, records: seq<Record>, i: nat, items: seq<Record>, k: nat)
    requires Distinct(records) && i < |records| && Competes(policy, now, records[i])
    requires items == SessionItems(Young(policy, now, records), records[i].sessionId)
    requires k < |items| && items[k] == records[i]
    ensures UnheldCount(policy, items[..k]) == |Ahead(policy, now, records, i)|
  {
    hide Filter, Sort, Held, OnHold, SortedBy, Distinct;
    var r, young := records[i], Young(policy, now, records);
    var c, session := r.createdAt, r.sessionId;
    FilterDistinct(NotExpired(policy, now), records);
    SessionItemsDistinct(young, session);
    BeforeInItems(policy, items, k);
    NewerCount(policy, now, records, session, c);
    TiedCount(policy, now, records, i, items, k);
  }

  lemma NewerCount(policy: RetentionPolicy, now: real, records: seq<Record>, session: string, c: real)
    ensures |Filter(NewerThan(c, policy), SessionItems(Young(policy, now, records), session))|
            == |Filter((other: Record) => Competes(policy, now, other) && other.sessionId == session && other.createdAt > c,
                       records)|
  {
    hide Filter, Sort, Held, OnHold;
    var young := Young(policy, now, records);
    FilterCountPermuted(NewerThan(c, policy), SessionItems(young, session), Filter(OfSession(session), young));
    var inSession := (r: Record) => r.sessionId == session && NewerThan(c, policy)(r);
    FilterTwice(OfSession(session), NewerThan(c, policy), inSession, young);
    var all := (other: Record) => Competes(policy, now, other) && other.sessionId == session && other.createdAt > c;
    forall other { HeldIsOnHold(policy, other); }
    FilterTwice(NotExpired(policy, now), inSession, all, records);
  }

  function YoungTied(policy: RetentionPolicy, now: real, session: string, c: real): Record -> bool {
    (r: Record) => !Expired(policy, now, r) && r.sessionId == session && r.createdAt == c
  }

  lemma TiedCount(policy: RetentionPolicy, now: real, records: seq<Record>, i: nat, items: seq<Record>, k: nat)
    requires Distinct(records) && i < |records| && Competes(policy, now, records[i])
    requires items == SessionItems(Young(policy, now, records), records[i].sessionId) && Distinct(items)
    requires k < |items| && items[k] == records[i]
    ensures var r := records[i];
      |Filter(UnheldAsNew(r.createdAt, policy), items[..k])|
      == |Filter((other: Record) => Competes(policy, now, other) && other.sessionId == r.sessionId
                                    && other.createdAt == r.createdAt, records[..i])|
  {
    hide Filter, Sort, Held, OnHold, Distinct;
    var r, young := records[i], Young(policy, now, records);
    var c, session := r.createdAt, r.sessionId;
    var tied := YoungTied(policy, now, session, c);
    forall other { HeldIsOnHold(policy, other); }
    SortStable(NewestFirst, AsNewAs(c), Filter(OfSession(session), young));
    YoungOfSessionTied(policy, now, session, c, records);
    YoungOfSessionTied(policy, now, session, c, records[..i]);
    FilterAround(AsNewAs(c), items, k);
    FilterAround(tied, records, i);
    OnlyOnce(records, i);
    OnlyOnce(items, k);
    SplitAtOnly(r, Filter(AsNewAs(c), items[..k]), Filter(AsNewAs(c), items[k + 1..]),
                Filter(tied, records[..i]), Filter(tied, records[i + 1..]));
    var all := (other: Record) => Competes(policy, now, other) && other.sessionId == r.sessionId && other.createdAt == r.createdAt;
    FilterTwice(AsNewAs(c), Unheld(policy), UnheldAsNew(c, policy), items[..k]);
    FilterTwice(tied, Unheld(policy), all, records[..i]);
  }

  lemma OnlyOnce(records: seq<Record>, i: nat)
    requires Distinct(records) && i < |records|
    ensures records[i] !in records[..i]
  {
  }

  lemma YoungOfSessionTied(policy: RetentionPolicy, now: real, session: string, c: real, records: seq<Record>)
    ensures Filter(AsNewAs(c), Filter(OfSession(session), Young(policy, now, records)))
            == Filter(YoungTied(policy, now, session, c), records)
  {
    hide Filter, Held, Expired;
    var young := Young(policy, now, records);
    var both := (r: Record) => r.sessionId == session && r.createdAt == c;
    FilterTwice(OfSession(session), AsNewAs(c), both, young);
    FilterTwice(NotExpired(policy, now), both, YoungTied(policy, now, session, c), records);
  }

  /**
   Survival without sorting: a record survives if and only if it is on hold, or it is
   young enough and fewer records of its session than the limit are ahead of it.
   */
  lemma SurvivalExact(policy: RetentionPolicy, now: real, records: seq<Record>, i: nat)
    requires Distinct(records) && i < |records|
    ensures records[i] in Survivors(policy, now, records) <==>
            || OnHold(policy, records[i])
            || (Competes(policy, now, records[i])
                && |Ahead(policy, now, records, i)| < policy.maxArtifactsPerSession)
  {
    var r, young := records[i], Young(policy, now, records);
    hide Filter, Sort, OnHold, Distinct, Ahead, Overflow, Held;
    HeldIsOnHold(policy, r);
    HeldSurviveExpiredDoNot(policy, now, records, r);
    if !Held(policy, r) && !TooOld(policy, now, r) {
      var items := SessionItems(young, r.sessionId);
      FilterDistinct(NotExpired(policy, now), records);
      SessionItemsDistinct(young, r.sessionId);
      assert r in items;
      var k :| 0 <= k < |items| && items[k] == r;
      OverflowByRank(policy, items, k);
      TakeSnoc(items, k);
      FilterSnoc(Unheld(policy), items[..k], r);
      RankIsAhead(policy, now, records, i, items, k);
    }
  }

  /** What a sweep will remove, decided on the records before it. */
  predicate WillGo(policy: RetentionPolicy, now: real, records: seq<Record>, record: Record) {
    Expired(policy, now, record) || Overflows(policy, Young(policy, now, records), record)
  }

  lemma SurvivorsExact(policy: RetentionPolicy, now: real, records: seq<Record>, r: Record)
    requires r in records
    ensures r in Survivors(policy, now, records) <==> !WillGo(policy, now, records, r)
    ensures WillGo(policy, now, records, r) ==> !Held(policy, r)
  {
    if Overflows(policy, Young(policy, now, records), r) {
      OverflowSubset(policy, SessionItems(Young(policy, now, records), r.sessionId), r);
    }
  }

  /** No survivor of the session is older than a record of it that was removed. */
  predicate NewestLeft(policy: RetentionPolicy, now: real, records: seq<Record>, session: string) {
    forall s, d |
      && s in Survivors(policy, now, records) && s.sessionId == session
      && d in records && d !in Survivors(policy, now, records) && d.sessionId == session ::
      s.createdAt >= d.createdAt
  }

  /** No held record of the session is older than a record of it that will be removed. */
  predicate NoOlderHold(policy: RetentionPolicy, now: real, records: seq<Record>, session: string) {
    forall h, d |
      && h in records && h.sessionId == session && Held(policy, h)
      && d in records && d.sessionId == session && WillGo(policy, now, records, d) ::
      h.createdAt >= d.createdAt
  }

  /** The exact condition under which a sweep leaves the newest records of a session. */
  lemma NewestLeftExact(policy: RetentionPolicy, now: real, records: seq<Record>, session: string)
    requires Distinct(records)
    ensures NewestLeft(policy, now, records, session) <==> NoOlderHold(policy, now, records, session)
  {
    hide Survivors, WillGo, Held, Distinct;
    forall r | r in records
      ensures r in Survivors(policy, now, records) <==> !WillGo(policy, now, records, r)
      ensures Held(policy, r) ==> r in Survivors(policy, now, records)
    {
      SurvivorsExact(policy, now, records, r);
    }
    if NoOlderHold(policy, now, records, session) {
      forall s, d |
        && s in Survivors(policy, now, records) && s.sessionId == session
        && d in records && d !in Survivors(policy, now, records) && d.sessionId == session
        ensures s.createdAt >= d.createdAt
      {
        SurvivorOfRecords(policy, now, records, s);
        if !Held(policy, s) {
          SurvivorsAreNewest(policy, now, records, s, d);
        }
      }
    }
  }

  lemma SurvivorOfRecords(policy: RetentionPolicy, now: real, records: seq<Record>, s: Record)
    requires s in Survivors(policy, now, records)
    ensures s in records && !Expired(policy, now, s)
  {
  }

  /** For every policy and limit the condition can fail: a held record outlives a younger one that is too old. */
  lemma HeldSurvivorMayBeOlder(policy: RetentionPolicy, now: real, held: Record, younger: Record)
    requires Held(policy, held) && !Held(policy, younger) && TooOld(policy, now, younger)
    requires held.sessionId == younger.sessionId && held.createdAt < younger.createdAt
    ensures !NewestLeft(policy, now, [held, younger], held.sessionId)
  {
    var records := [held, younger];
    HeldSurviveExpiredDoNot(policy, now, records, held);
    HeldSurviveExpiredDoNot(policy, now, records, younger);
    assert younger in records;
  }

  /**
   It also fails through the limit, whatever it is: a held record outlives a younger
   one that as many newer unheld records as the limit allows push out.
   */
  lemma HeldSurvivorOutlivesOverflow(
      policy: RetentionPolicy, now: real, held: Record, younger: Record, newer: seq<Record>)
    requires Held(policy, held) && |newer| == Limit(policy) && Distinct([held, younger] + newer)
    requires held.createdAt < younger.createdAt && held.sessionId == younger.sessionId
    requires forall r | r in [younger] + newer ::
               !Held(policy, r) && !TooOld(policy, now, r) && r.sessionId == held.sessionId
    requires forall r | r in newer :: younger.createdAt < r.createdAt
    ensures held in Survivors(policy, now, [held, younger] + newer)
    ensures younger !in Survivors(policy, now, [held, younger] + newer)
  {
    var records, session := [held, younger] + newer, held.sessionId;
    hide Survivors, Held, Distinct, Filter, TooOld;
    HeldSurviveExpiredDoNot(policy, now, records, held);
    SessionKeepsUpToLimit(policy, now, records, session);
    FilterAll(NotExpired(policy, now), records);
    FilterConcat(UnheldOf(policy, session), [held], [younger] + newer);
    assert records == [held] + ([younger] + newer);
    FilterNone(UnheldOf(policy, session), [held]);
    FilterAll(UnheldOf(policy, session), [younger] + newer);
    var unheld := Filter(UnheldOf(policy, session), records);
    assert |unheld| == Limit(policy) + 1;
    if younger in Survivors(policy, now, records) {
      if removed :| removed in unheld && removed !in Survivors(policy, now, records) {
        SurvivorsAreNewest(policy, now, records, younger, removed);
        assert false;
      }
      AllUnheldSurvive(policy, now, records, session);
    }
  }

  lemma AllUnheldSurvive(policy: RetentionPolicy, now: real, records: seq<Record>, session: string)
    requires Distinct(records)
    requires forall r | r in records && UnheldOf(policy, session)(r) :: r in Survivors(policy, now, records)
    ensures |Filter(UnheldOf(policy, session), Survivors(policy, now, records))|
            == |Filter(UnheldOf(policy, session), records)|
  {
    hide Survivors, Held, Filter, Distinct;
    SurvivorsFiltered(policy, now, records);
    var kept := (r: Record) => r in Survivors(policy, now, records);
    var both := (r: Record) => UnheldOf(policy, session)(r) && kept(r);
    FilterTwice(kept, UnheldOf(policy, session), both, records);
    FilterAgree(both, UnheldOf(policy, session), records);
  }

  /** The survivors keep their order. */
  lemma SurvivorsFiltered(policy: RetentionPolicy, now: real, records: seq<Record>)
    ensures Survivors(policy, now, records) == Filter((r: Record) => r in Survivors(policy, now, records), records)
  {
    var kept := (r: Record) => r in Survivors(policy, now, records);
    FilterTwice(NotExpired(policy, now), Fitting(policy, Young(policy, now, records)), kept, records);
  }

  /** Sweeping again at the same time removes nothing. */
  lemma SweepIdempotent(policy: RetentionPolicy, now: real, records: seq<Record>)
    requires Distinct(records)
    ensures Survivors(policy, now, Survivors(policy, now, records)) == Survivors(policy, now, records)
  {
    var once := Survivors(policy, now, records);
    FilterAll(NotExpired(policy, now), once);
    forall r | r in once ensures Fitting(policy, once)(r) {
      SessionKeepsUpToLimit(policy, now, records, r.sessionId);
      var items := SessionItems(once, r.sessionId);
      FilterTwice(OfSession(r.sessionId), Unheld(policy), UnheldOf(policy, r.sessionId), once);
      FilterCountPermuted(Unheld(policy), items, Filter(OfSession(r.sessionId), once));
      NoOverflowWithinLimit(policy, items);
    }
    FilterAll(Fitting(policy, once), once);
  }
}
