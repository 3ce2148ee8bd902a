/**
 Per-tenant request limits: a counter per tenant and minute, a counter per tenant
 and day, stale counters dropped. The counters are compared with the full log.
 */
module TenantLimits {
  import opened Seqs

  datatype Verdict = Admitted | RateLimited | QuotaExceeded

  datatype Entry = Entry(tenantId: string, second: nat, verdict: Verdict)

  /** The response to a rejected request, all with status 429. */
  datatype Rejection = Rejection(code: string, message: string, retryAfter: Option<int>)

  function ResponseTo(verdict: Verdict): (r: Option<Rejection>)
    ensures r.None? <==> verdict == Admitted
  {
    match verdict
    case Admitted => None
    case RateLimited => Some(Rejection("RATE_LIMITED", "tenant rate limit exceeded", Some(60)))
    case QuotaExceeded => Some(Rejection("QUOTA_EXCEEDED", "tenant daily quota exceeded", None))
  }

  datatype Limits = Limits(ratePerMinute: int, dailyQuota: int)

  function Minute(second: nat): nat { second / 60 }

  function Day(second: nat): nat { second / 86400 }

  // ---------- the log ----------

  /** Every request of the tenant in the minute, whatever its verdict. */
  function InMinute(tenantId: string, minute: nat): Entry -> bool {
    (e: Entry) => e.tenantId == tenantId && e.second / 60 == minute
  }

  /** The requests that reached the daily check. */
  function ChargedToDay(tenantId: string, day: nat): Entry -> bool {
    (e: Entry) => e.tenantId == tenantId && e.second / 86400 == day && e.verdict != RateLimited
  }

  function MinuteRequests(log: seq<Entry>, tenantId: string, minute: nat): nat {
    |Filter(InMinute(tenantId, minute), log)|
  }

  function DayCharges(log: seq<Entry>, tenantId: string, day: nat): nat {
    |Filter(ChargedToDay(tenantId, day), log)|
  }

  /** The verdict as a function of everything that happened before. */
  function VerdictFor(limits: Limits, log: seq<Entry>, tenantId: string, second: nat): Verdict {
    if limits.ratePerMinute > 0 && MinuteRequests(log, tenantId, Minute(second)) >= limits.ratePerMinute then RateLimited
    else if limits.dailyQuota > 0 && DayCharges(log, tenantId, Day(second)) >= limits.dailyQuota then QuotaExceeded
    else Admitted
  }

  /** Every request got the verdict that the requests before it demand. */
  ghost predicate Lawful(limits: Limits, log: seq<Entry>) {
    log == [] ||
    var front, last := log[..|log| - 1], log[|log| - 1];
    Lawful(limits, front) && last.verdict == VerdictFor(limits, front, last.tenantId, last.second)
  }

  function AdmittedInMinute(tenantId: string, minute: nat): Entry -> bool {
    (e: Entry) => e.tenantId == tenantId && e.second / 60 == minute && e.verdict == Admitted
  }

  function AdmittedInDay(tenantId: string, day: nat): Entry -> bool {
    (e: Entry) => e.tenantId == tenantId && e.second / 86400 == day && e.verdict == Admitted
  }

  lemma NothingLogged(tenantId: string, bucket: nat)
    ensures MinuteRequests([], tenantId, bucket) == DayCharges([], tenantId, bucket) == 0
    ensures Filter(AdmittedInMinute(tenantId, bucket), []) == Filter(AdmittedInDay(tenantId, bucket), []) == []
  {
  }

  /** No tenant is admitted more often in a minute than the limit allows. */
  lemma {:induction false} MinuteLimitHolds(limits: Limits, log: seq<Entry>, tenantId: string, minute: nat)
    requires Lawful(limits, log) && limits.ratePerMinute > 0
    ensures |Filter(AdmittedInMinute(tenantId, minute), log)| <= limits.ratePerMinute
    ensures |Filter(AdmittedInMinute(tenantId, minute), log)| <= MinuteRequests(log, tenantId, minute)
  {
    hide Filter;
    if log == [] {
      NothingLogged(tenantId, minute);
    } else {
      var front, last := log[..|log| - 1], log[|log| - 1];
      assert log == front + [last];
      MinuteLimitHolds(limits, front, tenantId, minute);
      FilterSnoc(AdmittedInMinute(tenantId, minute), front, last);
      FilterSnoc(InMinute(tenantId, minute), front, last);
    }
  }

  /** No tenant is admitted more often in a day than its quota, and only admitted requests use it up. */
  lemma {:induction false} DailyQuotaHolds(limits: Limits, log: seq<Entry>, tenantId: string, day: nat)
    requires Lawful(limits, log) && limits.dailyQuota > 0
    ensures |Filter(AdmittedInDay(tenantId, day), log)| ==
            if DayCharges(log, tenantId, day) <= limits.dailyQuota then DayCharges(log, tenantId, day) else limits.dailyQuota
  {
    hide Filter;
    if log == [] {
      NothingLogged(tenantId, day);
    } else {
      var front, last := log[..|log| - 1], log[|log| - 1];
      assert log == front + [last];
      DailyQuotaHolds(limits, front, tenantId, day);
      FilterSnoc(AdmittedInDay(tenantId, day), front, last);
      FilterSnoc(ChargedToDay(tenantId, day), front, last);
    }
  }

  /**
   When a request is admitted, in terms of the log alone: the tenant's requests of the
   minute and its admissions of the day are below the limits that are on.
   */
  lemma AdmittedExactly(limits: Limits, log: seq<Entry>, tenantId: string, second: nat)
    requires Lawful(limits, log)
    ensures VerdictFor(limits, log, tenantId, second) == Admitted <==>
            && (limits.ratePerMinute > 0 ==>
                  |Filter((e: Entry) => e.tenantId == tenantId && e.second / 60 == second / 60, log)| < limits.ratePerMinute)
            && (limits.dailyQuota > 0 ==>
                  |Filter((e: Entry) => e.tenantId == tenantId && e.second / 86400 == second / 86400
                                        && e.verdict == Admitted, log)| < limits.dailyQuota)
    ensures VerdictFor(limits, log, tenantId, second) == RateLimited <==>
            && limits.ratePerMinute > 0
            && |Filter((e: Entry) => e.tenantId == tenantId && e.second / 60 == second / 60, log)| >= limits.ratePerMinute
  {
    hide Filter;
    FilterAgree(InMinute(tenantId, Minute(second)),
                (e: Entry) => e.tenantId == tenantId && e.second / 60 == second / 60, log);
    if limits.dailyQuota > 0 {
      FilterAgree(AdmittedInDay(tenantId, Day(second)),
                  (e: Entry) => e.tenantId == tenantId && e.second / 86400 == second / 86400 && e.verdict == Admitted, log);
      DailyQuotaHolds(limits, log, tenantId, Day(second));
    }
  }

  // ---------- the counters ----------

  type Counters = map<(string, nat), nat>

  function Count(counters: Counters, tenantId: string, bucket: nat): nat {
    if (tenantId, bucket) in counters then counters[(tenantId, bucket)] else 0
  }

  /** Dropping the keys of buckets before `oldest`. */
  function Fresh(counters: Counters, oldest: int): Counters {
    map key | key in counters && key.1 >= oldest :: counters[key]
  }

  /** From bucket `oldest` on the counters are the counts over the whole log. */
  ghost predicate CountsMinutes(counters: Counters, log: seq<Entry>, oldest: int) {
    forall tenantId, b: nat | b >= oldest :: Count(counters, tenantId, b) == MinuteRequests(log, tenantId, b)
  }

  ghost predicate CountsDays(counters: Counters, log: seq<Entry>, oldest: int) {
    forall tenantId, b: nat | b >= oldest :: Count(counters, tenantId, b) == DayCharges(log, tenantId, b)
  }

  lemma MinutesStep(counters: Counters, log: seq<Entry>, oldest: int, next: int, e: Entry)
    requires CountsMinutes(counters, log, oldest) && oldest <= next <= Minute(e.second)
    ensures var kept, key := Fresh(counters, next), (e.tenantId, Minute(e.second));
            && Count(kept, key.0, key.1) == MinuteRequests(log, key.0, key.1)
            && CountsMinutes(kept[key := Count(kept, key.0, key.1) + 1], log + [e], next)
  {
    var kept, key := Fresh(counters, next), (e.tenantId, Minute(e.second));
    forall tenantId, b: nat | b >= next
      ensures Count(kept[key := Count(kept, key.0, key.1) + 1], tenantId, b) == MinuteRequests(log + [e], tenantId, b)
    {
      assert Count(counters, tenantId, b) == MinuteRequests(log, tenantId, b);
      FilterSnoc(InMinute(tenantId, b), log, e);
    }
  }

  lemma DaysStep(counters: Counters, log: seq<Entry>, oldest: int, next: int, e: Entry)
    requires CountsDays(counters, log, oldest) && oldest <= next <= Day(e.second) && e.verdict != RateLimited
    ensures var kept, key := Fresh(counters, next), (e.tenantId, Day(e.second));
            && Count(kept, key.0, key.1) == DayCharges(log, key.0, key.1)
            && CountsDays(kept[key := Count(kept, key.0, key.1) + 1], log + [e], next)
  {
    var kept, key := Fresh(counters, next), (e.tenantId, Day(e.second));
    forall tenantId, b: nat | b >= next
      ensures Count(kept[key := Count(kept, key.0, key.1) + 1], tenantId, b) == DayCharges(log + [e], tenantId, b)
    {
      assert Count(counters, tenantId, b) == DayCharges(log, tenantId, b);
      FilterSnoc(ChargedToDay(tenantId, b), log, e);
    }
  }

  /** A request rejected by the minute limit is charged to no day. */
  lemma UnchargedStep(counters: Counters, log: seq<Entry>, oldest: int, next: int, e: Entry)
    requires CountsDays(counters, log, oldest) && oldest <= next && e.verdict == RateLimited
    ensures CountsDays(counters, log + [e], next)
  {
  }

  class TenantLimiter {
    const limits: Limits
    var minuteCounters: Counters
    var dailyCounters: Counters
    ghost var log: seq<Entry>
    ghost var clock: nat

    ghost predicate Invariant()
      reads this
    {
      && Lawful(limits, log)
      && (limits.ratePerMinute > 0 ==> CountsMinutes(minuteCounters, log, Minute(clock) - 1))
      && (limits.dailyQuota > 0 ==> CountsDays(dailyCounters, log, Day(clock)))
    }

    constructor (limits: Limits)
      ensures Invariant() && log == [] && clock == 0 && this.limits == limits
    {
      this.limits := limits;
      minuteCounters, dailyCounters, log, clock := map[], map[], [], 0;
    }

    /** The clock never runs backwards; the verdict is the one that the full log demands. */
    method EnforceTenantLimits(tenantId: string, epochSeconds: nat) returns (response: Option<Rejection>)
      requires Invariant() && epochSeconds >= clock
      modifies this
      ensures Invariant() && clock == epochSeconds
      ensures response == ResponseTo(VerdictFor(limits, old(log), tenantId, epochSeconds))
      ensures log == old(log) + [Entry(tenantId, epochSeconds, VerdictFor(limits, old(log), tenantId, epochSeconds))]
    {
      hide Minute, Day, CountsMinutes, CountsDays, MinuteRequests, DayCharges, Lawful, Fresh;
      BucketsMonotone(clock, epochSeconds);
      ghost var expected := VerdictFor(limits, log, tenantId, epochSeconds);
      ghost var entry := Entry(tenantId, epochSeconds, expected);
      LawfulStep(limits, log, entry);
      response := None;
      if limits.ratePerMinute > 0 {
        var minute := Minute(epochSeconds);
        MinutesStep(minuteCounters, log, Minute(clock) - 1, minute as int - 1, entry);
        minuteCounters := Fresh(minuteCounters, minute as int - 1);
        minuteCounters := minuteCounters[(tenantId, minute) := Count(minuteCounters, tenantId, minute) + 1];
        if minuteCounters[(tenantId, minute)] > limits.ratePerMinute {
          response := Some(Rejection("RATE_LIMITED", "tenant rate limit exceeded", Some(60)));
        }
      }
      if response.None? && limits.dailyQuota > 0 {
        var day := Day(epochSeconds);
        DaysStep(dailyCounters, log, Day(clock), day, entry);
        dailyCounters := Fresh(dailyCounters, day);
        dailyCounters := dailyCounters[(tenantId, day) := Count(dailyCounters, tenantId, day) + 1];
        if dailyCounters[(tenantId, day)] > limits.dailyQuota {
          response := Some(Rejection("QUOTA_EXCEEDED", "tenant daily quota exceeded", None));
        }
      } else if limits.dailyQuota > 0 {
        UnchargedStep(dailyCounters, log, Day(clock), Day(epochSeconds), entry);
      }
      log, clock := log + [entry], epochSeconds;
    }
  }

  lemma BucketsMonotone(a: nat, b: nat)
    requires a <= b
    ensures Minute(a) <= Minute(b) && Day(a) <= Day(b)
  {
  }

  lemma LawfulStep(limits: Limits, log: seq<Entry>, e: Entry)
    requires Lawful(limits, log) && e.verdict == VerdictFor(limits, log, e.tenantId, e.second)
    ensures Lawful(limits, log + [e])
  {
  }
}
