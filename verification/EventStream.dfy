/**
 The event broker: a bounded window on an unbounded log, and a consumer that
 follows the log with a cursor.
 */
module EventStream {
  import opened Seqs

  datatype Event = Event(sequence: nat, eventId: string, eventType: string, tenantId: string, payload: string)

  /** Event `i` of the log carries sequence number `i + 1`. */
  ghost predicate Numbered(log: seq<Event>) {
    forall i | 0 <= i < |log| :: log[i].sequence == i + 1
  }

  predicate Relevant(tenantId: string, eventType: string, event: Event) {
    event.tenantId == tenantId && (eventType == "" || event.eventType == eventType)
  }

  /** The events that a reader with this cursor still waits for. */
  function Unread(afterId: int, tenantId: string, eventType: string): Event -> bool {
    (event: Event) => event.sequence > afterId && Relevant(tenantId, eventType, event)
  }

  function Take<T(!new)>(s: seq<T>, n: int): seq<T> {
    if n <= 0 then [] else if n <= |s| then s[..n] else s
  }

  /** What the first unread events are. */
  lemma UnreadMeans(events: seq<Event>, afterId: int, tenantId: string, eventType: string, limit: int)
    ensures forall e | e in Take(Filter(Unread(afterId, tenantId, eventType), events), limit) ::
              e in events && e.sequence > afterId && e.tenantId == tenantId && (eventType == "" || e.eventType == eventType)
    ensures |Take(Filter(Unread(afterId, tenantId, eventType), events), limit)| < limit ==>
              forall e | e in events && e.sequence > afterId && e.tenantId == tenantId
                         && (eventType == "" || e.eventType == eventType) ::
                e in Take(Filter(Unread(afterId, tenantId, eventType), events), limit)
  {
  }

  lemma UnreadStart(events: seq<Event>, afterId: int, tenantId: string, eventType: string)
    ensures Filter(Unread(afterId, tenantId, eventType), events[..0]) == []
  {
  }

  lemma UnreadStep(events: seq<Event>, i: nat, afterId: int, tenantId: string, eventType: string)
    requires i < |events|
    ensures Filter(Unread(afterId, tenantId, eventType), events[..i + 1]) ==
            if events[i].sequence > afterId && Relevant(tenantId, eventType, events[i])
            then Filter(Unread(afterId, tenantId, eventType), events[..i]) + [events[i]]
            else Filter(Unread(afterId, tenantId, eventType), events[..i])
  {
    TakeSnoc(events, i);
    FilterSnoc(Unread(afterId, tenantId, eventType), events[..i], events[i]);
  }

  lemma PrefixOfFilter<T(!new)>(p: T -> bool, s: seq<T>, i: nat)
    requires i <= |s|
    ensures Filter(p, s[..i]) <= Filter(p, s)
  {
    hide Filter;
    assert s == s[..i] + s[i..];
    FilterConcat(p, s[..i], s[i..]);
  }

  class EventStreamBroker {
    const maxEvents: nat
    var events: seq<Event>
    var nextSequence: nat
    ghost var log: seq<Event>

    /** The window holds exactly the newest events of everything ever published. */
    ghost predicate Invariant()
      reads this
    {
      && maxEvents > 0
      && Numbered(log) && nextSequence == |log|
      && events == Suffix(log, maxEvents)
    }

    constructor (maxEvents: nat)
      requires maxEvents > 0
      ensures Invariant() && log == [] && this.maxEvents == maxEvents
    {
      this.maxEvents := maxEvents;
      events, nextSequence, log := [], 0, [];
    }

    method Publish(eventId: string, eventType: string, tenantId: string, payload: string) returns (event: Event)
      requires Invariant()
      modifies this
      ensures Invariant()
      ensures event == Event(old(|log|) + 1, eventId, eventType, tenantId, payload)
      ensures log == old(log) + [event]
    {
      nextSequence := nextSequence + 1;
      event := Event(nextSequence, eventId, eventType, tenantId, payload);
      SuffixAppend(log, event, maxEvents);
      events := Suffix(events + [event], maxEvents);
      log := log + [event];
    }

    /** The first unread events of the window, oldest first; an empty type selects all types. */
    method ListEvents(afterId: int, tenantId: string, limit: int, eventType: string) returns (filtered: seq<Event>)
      requires Invariant()
      ensures filtered == Take(Filter(Unread(afterId, tenantId, eventType), events), limit)
      // Nothing but unread events of the tenant and the type, and all of them if there is room.
      ensures forall e | e in filtered ::
                e in events && e.sequence > afterId && e.tenantId == tenantId && (eventType == "" || e.eventType == eventType)
      ensures |filtered| < limit ==> forall e | e in events && e.sequence > afterId && e.tenantId == tenantId
                                                && (eventType == "" || e.eventType == eventType) :: e in filtered
    {
      hide Filter, Unread, Suffix;
      UnreadMeans(events, afterId, tenantId, eventType, limit);
      if limit <= 0 {
        return [];
      }
      filtered := [];
      UnreadStart(events, afterId, tenantId, eventType);
      for i := 0 to |events|
        invariant filtered == Filter(Unread(afterId, tenantId, eventType), events[..i])
        invariant |filtered| < limit
      {
        UnreadStep(events, i, afterId, tenantId, eventType);
        if events[i].sequence <= afterId {
          continue;
        }
        if events[i].tenantId != tenantId {
          continue;
        }
        if eventType != "" && events[i].eventType != eventType {
          continue;
        }
        filtered := filtered + [events[i]];
        if |filtered| >= limit {
          PrefixOfFilter(Unread(afterId, tenantId, eventType), events, i + 1);
          return;
        }
      }
      TakeEnds(events);
    }

    method LatestSequence() returns (latest: nat)
      requires Invariant()
      ensures latest == |log|
    {
      latest := nextSequence;
    }
  }

  // ---------- following the log with a cursor ----------

  /** A step of a run: something is published, or the consumer reads at most `limit` events. */
  datatype Step = Publish(eventId: string, eventType: string, tenantId: string, payload: string) | Poll(limit: int)

  datatype Run = Run(log: seq<Event>, cursor: nat, delivered: seq<Event>)

  /** What the consumer receives: the broker's answer for its cursor. */
  function Answer(maxEvents: nat, tenantId: string, eventType: string, limit: int, run: Run): seq<Event> {
    Take(Filter(Unread(run.cursor, tenantId, eventType), Suffix(run.log, maxEvents)), limit)
  }

  function After(maxEvents: nat, tenantId: string, eventType: string, step: Step, run: Run): Run {
    match step
    case Publish(id, t, tenant, payload) =>
      run.(log := run.log + [Event(|run.log| + 1, id, t, tenant, payload)])
    case Poll(limit) =>
      var answer := Answer(maxEvents, tenantId, eventType, limit, run);
      if answer == [] then run
      else Run(run.log, answer[|answer| - 1].sequence, run.delivered + answer)
  }

  function RunSteps(maxEvents: nat, tenantId: string, eventType: string, steps: seq<Step>): Run {
    if steps == [] then Run([], 0, [])
    else After(maxEvents, tenantId, eventType, steps[|steps| - 1],
               RunSteps(maxEvents, tenantId, eventType, steps[..|steps| - 1]))
  }

  /** An unread relevant event has fallen out of the window. */
  ghost predicate EvictedUnread(maxEvents: nat, tenantId: string, eventType: string, run: Run) {
    exists i :: 0 <= i < |run.log| - |Suffix(run.log, maxEvents)| && Unread(run.cursor, tenantId, eventType)(run.log[i])
  }

  /** Some poll answered with events although an older unread one was already evicted. */
  ghost predicate Skipped(maxEvents: nat, tenantId: string, eventType: string, steps: seq<Step>) {
    steps != [] &&
    var before := RunSteps(maxEvents, tenantId, eventType, steps[..|steps| - 1]);
    var last := steps[|steps| - 1];
    || Skipped(maxEvents, tenantId, eventType, steps[..|steps| - 1])
    || (last.Poll? && Answer(maxEvents, tenantId, eventType, last.limit, before) != []
        && EvictedUnread(maxEvents, tenantId, eventType, before))
  }

  function RelevantTo(tenantId: string, eventType: string): Event -> bool {
    (event: Event) => Relevant(tenantId, eventType, event)
  }

  /** Where the answer starts in the log: behind the cursor and inside the window. */
  function From(maxEvents: nat, run: Run): (m: nat)
    requires run.cursor <= |run.log|
    ensures run.cursor <= m <= |run.log|
  {
    var evicted := |run.log| - |Suffix(run.log, maxEvents)|;
    if run.cursor <= evicted then evicted else run.cursor
  }

  /** In a numbered log, what is unread behind the cursor is what is relevant. */
  lemma UnreadInSlice(log: seq<Event>, cursor: nat, w: nat, m: nat, tenantId: string, eventType: string)
    requires Numbered(log) && w <= m <= |log| && (m <= cursor || m == w) && cursor <= m
    ensures Filter(Unread(cursor, tenantId, eventType), log[w..])
            == Filter(RelevantTo(tenantId, eventType), log[m..])
  {
    var unread := Unread(cursor, tenantId, eventType);
    assert log[w..] == log[w..m] + log[m..];
    FilterConcat(unread, log[w..m], log[m..]);
    FilterNone(unread, log[w..m]);
    forall e | e in log[m..] ensures unread(e) == RelevantTo(tenantId, eventType)(e) {
      var i :| 0 <= i < |log| - m && log[m..][i] == e;
    }
    FilterAgree(unread, RelevantTo(tenantId, eventType), log[m..]);
  }

  /** The first `k` matches are the matches up to the k-th one. */
  lemma {:induction false} FirstMatches<T(!new)>(p: T -> bool, s: seq<T>, k: nat) returns (j: nat)
    requires 0 < k <= |Filter(p, s)|
    ensures 0 < j <= |s| && Filter(p, s[..j]) == Filter(p, s)[..k] && s[j - 1] == Filter(p, s)[k - 1]
  {
    hide Filter;
    var n := |s| - 1;
    TakeEnds(s);
    TakeSnoc(s, n);
    FilterSnoc(p, s[..n], s[n]);
    if k == |Filter(p, s)| && p(s[n]) {
      j := n + 1;
      TakeEnds(Filter(p, s));
    } else {
      j := FirstMatches(p, s[..n], k);
      assert s[..n][..j] == s[..j];
      PrefixOfFilter(p, s, n);
    }
  }

  lemma AnswerIsPrefix(maxEvents: nat, tenantId: string, eventType: string, limit: int, run: Run)
    requires Numbered(run.log) && run.cursor <= |run.log|
    ensures Answer(maxEvents, tenantId, eventType, limit, run)
            == Take(Filter(RelevantTo(tenantId, eventType), run.log[From(maxEvents, run)..]), limit)
  {
    var evicted := |run.log| - |Suffix(run.log, maxEvents)|;
    assert Suffix(run.log, maxEvents) == run.log[evicted..];
    UnreadInSlice(run.log, run.cursor, evicted, From(maxEvents, run), tenantId, eventType);
  }

  /** A non-empty answer: the relevant events from `From` up to the new cursor. */
  lemma AnswerIsSlice(maxEvents: nat, tenantId: string, eventType: string, limit: int, run: Run) returns (next: nat)
    requires Numbered(run.log) && run.cursor <= |run.log|
    requires Answer(maxEvents, tenantId, eventType, limit, run) != []
    ensures var answer := Answer(maxEvents, tenantId, eventType, limit, run);
            var m := From(maxEvents, run);
            && next == answer[|answer| - 1].sequence && m < next <= |run.log|
            && answer == Filter(RelevantTo(tenantId, eventType), run.log[m..next])
  {
    hide Answer, From, RelevantTo, Filter, Take, Suffix, Numbered;
    var log, m, p := run.log, From(maxEvents, run), RelevantTo(tenantId, eventType);
    AnswerIsPrefix(maxEvents, tenantId, eventType, limit, run);
    var j := TakenMatches(p, log[m..], limit);
    next := m + j;
    SliceAt(log, m, j);
    NumberAt(log, next - 1);
  }

  lemma SliceAt<T>(s: seq<T>, m: nat, j: nat)
    requires 0 < j && m + j <= |s|
    ensures s[m..][..j] == s[m..m + j] && s[m..][j - 1] == s[m + j - 1]
  {
  }

  lemma TakenMatches<T(!new)>(p: T -> bool, s: seq<T>, limit: int) returns (j: nat)
    requires Take(Filter(p, s), limit) != []
    ensures var taken := Take(Filter(p, s), limit);
            0 < j <= |s| && taken == Filter(p, s[..j]) && s[j - 1] == taken[|taken| - 1]
  {
    var taken := Take(Filter(p, s), limit);
    assert taken == Filter(p, s)[..|taken|];
    j := FirstMatches(p, s, |taken|);
  }

  lemma NumberAt(log: seq<Event>, i: nat)
    requires Numbered(log) && i < |log|
    ensures log[i].sequence == i + 1
  {
  }

  lemma EvictedIsGap(maxEvents: nat, tenantId: string, eventType: string, run: Run)
    requires Numbered(run.log) && run.cursor <= |run.log|
    ensures EvictedUnread(maxEvents, tenantId, eventType, run) <==>
            Filter(RelevantTo(tenantId, eventType), run.log[run.cursor..From(maxEvents, run)]) != []
  {
    var m := From(maxEvents, run);
    var gap, p := run.log[run.cursor..m], RelevantTo(tenantId, eventType);
    if EvictedUnread(maxEvents, tenantId, eventType, run) {
      var i :| 0 <= i < |run.log| - |Suffix(run.log, maxEvents)| && Unread(run.cursor, tenantId, eventType)(run.log[i]);
      assert gap[i - run.cursor] == run.log[i] && p(run.log[i]);
      FilterFinds(p, gap, i - run.cursor);
    } else {
      forall e | e in gap ensures !p(e) {
        var i :| 0 <= i < |gap| && gap[i] == e;
        assert !Unread(run.cursor, tenantId, eventType)(run.log[run.cursor + i]);
      }
      FilterNone(p, gap);
    }
  }

  lemma FilterFinds<T(!new)>(p: T -> bool, s: seq<T>, i: nat)
    requires i < |s| && p(s[i])
    ensures Filter(p, s) != []
  {
  }

  /** A poll appends one slice of the relevant events and skips the gap before it. */
  lemma PollStep(maxEvents: nat, tenantId: string, eventType: string, limit: int, run: Run)
      returns (gap: seq<Event>, slice: seq<Event>)
    requires Numbered(run.log) && run.cursor <= |run.log|
    requires Answer(maxEvents, tenantId, eventType, limit, run) != []
    ensures var next := After(maxEvents, tenantId, eventType, Poll(limit), run);
      && next.log == run.log && run.cursor < next.cursor <= |run.log|
      && next.delivered == run.delivered + slice
      && Filter(RelevantTo(tenantId, eventType), run.log[..next.cursor])
         == Filter(RelevantTo(tenantId, eventType), run.log[..run.cursor]) + gap + slice
    ensures gap != [] <==> EvictedUnread(maxEvents, tenantId, eventType, run)
  {
    hide Answer, From, RelevantTo, Filter, EvictedUnread, Numbered;
    var p, c, m := RelevantTo(tenantId, eventType), run.cursor, From(maxEvents, run);
    var next := AnswerIsSlice(maxEvents, tenantId, eventType, limit, run);
    EvictedIsGap(maxEvents, tenantId, eventType, run);
    gap, slice := Filter(p, run.log[c..m]), Filter(p, run.log[m..next]);
    assert run.log[..next] == (run.log[..c] + run.log[c..m]) + run.log[m..next];
    FilterConcat(p, run.log[..c] + run.log[c..m], run.log[m..next]);
    FilterConcat(p, run.log[..c], run.log[c..m]);
  }

  /** The run has delivered every relevant event up to its cursor, once and in order. */
  predicate Complete(tenantId: string, eventType: string, run: Run)
    requires run.cursor <= |run.log|
  {
    run.delivered == Filter(RelevantTo(tenantId, eventType), run.log[..run.cursor])
  }

  /**
   Exactly once, in order: for every interleaving of publishes and polls the delivery
   is complete if and only if no poll skipped an evicted unread event.
   */
  lemma {:induction false} DeliveryExact(maxEvents: nat, tenantId: string, eventType: string, steps: seq<Step>)
    ensures var run := RunSteps(maxEvents, tenantId, eventType, steps);
      && Numbered(run.log) && run.cursor <= |run.log|
      && |run.delivered| <= |Filter(RelevantTo(tenantId, eventType), run.log[..run.cursor])|
      && (|run.delivered| == |Filter(RelevantTo(tenantId, eventType), run.log[..run.cursor])| ==>
            Complete(tenantId, eventType, run))
      && (Complete(tenantId, eventType, run) <==> !Skipped(maxEvents, tenantId, eventType, steps))
  {
    hide Answer, RelevantTo, Filter, EvictedUnread;
    NoEvents(tenantId, eventType);
    if steps != [] {
      var front, last := steps[..|steps| - 1], steps[|steps| - 1];
      DeliveryExact(maxEvents, tenantId, eventType, front);
      var before := RunSteps(maxEvents, tenantId, eventType, front);
      var run := RunSteps(maxEvents, tenantId, eventType, steps);
      assert run == After(maxEvents, tenantId, eventType, last, before);
      if last.Publish? {
        assert run.log[..run.cursor] == before.log[..before.cursor];
      } else if Answer(maxEvents, tenantId, eventType, last.limit, before) != [] {
        var gap, slice := PollStep(maxEvents, tenantId, eventType, last.limit, before);
        Deficit(before.delivered, Filter(RelevantTo(tenantId, eventType), before.log[..before.cursor]), gap, slice);
      }
    }
  }

  /** Delivered are exactly the relevant events up to the cursor. */
  lemma DeliveredMeans(tenantId: string, eventType: string, run: Run, e: Event)
    requires run.cursor <= |run.log| && Complete(tenantId, eventType, run)
    ensures e in run.delivered <==>
            e in run.log[..run.cursor] && e.tenantId == tenantId && (eventType == "" || e.eventType == eventType)
  {
  }

  // ---------- progress ----------

  /** The run has delivered every relevant event that was ever published, once and in order. */
  predicate AllDelivered(tenantId: string, eventType: string, run: Run) {
    run.delivered == Filter(RelevantTo(tenantId, eventType), run.log)
  }

  /** When a poll with a positive limit finds nothing, what is unread is at most what was evicted. */
  lemma NothingFound(maxEvents: nat, tenantId: string, eventType: string, limit: int, run: Run)
    requires Numbered(run.log) && run.cursor <= |run.log| && limit > 0
    requires Answer(maxEvents, tenantId, eventType, limit, run) == []
    ensures Filter(RelevantTo(tenantId, eventType), run.log[run.cursor..]) == [] <==>
            !EvictedUnread(maxEvents, tenantId, eventType, run)
  {
    hide Answer, From, RelevantTo, Filter, EvictedUnread, Numbered;
    var p, m := RelevantTo(tenantId, eventType), From(maxEvents, run);
    AnswerIsPrefix(maxEvents, tenantId, eventType, limit, run);
    assert Filter(p, run.log[m..]) == [];
    EvictedIsGap(maxEvents, tenantId, eventType, run);
    assert run.log[run.cursor..] == run.log[run.cursor..m] + run.log[m..];
    FilterConcat(p, run.log[run.cursor..m], run.log[m..]);
  }

  /**
   A reader whose poll finds nothing more has received exactly the relevant events of
   the whole log if and only if nothing was skipped and nothing unread is evicted.
   */
  lemma CaughtUpExact(maxEvents: nat, tenantId: string, eventType: string, limit: int, steps: seq<Step>)
    requires limit > 0
    requires Answer(maxEvents, tenantId, eventType, limit, RunSteps(maxEvents, tenantId, eventType, steps)) == []
    ensures var run := RunSteps(maxEvents, tenantId, eventType, steps);
            AllDelivered(tenantId, eventType, run) <==>
            !Skipped(maxEvents, tenantId, eventType, steps) && !EvictedUnread(maxEvents, tenantId, eventType, run)
  {
    hide Answer, RelevantTo, Filter, EvictedUnread, Skipped, RunSteps;
    var run, p := RunSteps(maxEvents, tenantId, eventType, steps), RelevantTo(tenantId, eventType);
    DeliveryExact(maxEvents, tenantId, eventType, steps);
    NothingFound(maxEvents, tenantId, eventType, limit, run);
    assert run.log == run.log[..run.cursor] + run.log[run.cursor..];
    FilterConcat(p, run.log[..run.cursor], run.log[run.cursor..]);
  }

  function Polls(limit: int, n: nat): seq<Step> {
    seq(n, i => Poll(limit))
  }

  /** One more step of a run. */
  lemma StepRun(maxEvents: nat, tenantId: string, eventType: string, steps: seq<Step>, step: Step)
    ensures RunSteps(maxEvents, tenantId, eventType, steps + [step])
            == After(maxEvents, tenantId, eventType, step, RunSteps(maxEvents, tenantId, eventType, steps))
    ensures Skipped(maxEvents, tenantId, eventType, steps + [step]) <==>
            || Skipped(maxEvents, tenantId, eventType, steps)
            || (step.Poll?
                && Answer(maxEvents, tenantId, eventType, step.limit, RunSteps(maxEvents, tenantId, eventType, steps)) != []
                && EvictedUnread(maxEvents, tenantId, eventType, RunSteps(maxEvents, tenantId, eventType, steps)))
  {
    hide After, Answer, EvictedUnread;
    assert (steps + [step])[..|steps|] == steps;
  }

  /** Nothing unread is evicted right after a poll that answered. */
  lemma NothingEvictedAfterAnswer(maxEvents: nat, tenantId: string, eventType: string, limit: int, run: Run)
    requires Numbered(run.log) && run.cursor <= |run.log|
    requires Answer(maxEvents, tenantId, eventType, limit, run) != []
    ensures var next := After(maxEvents, tenantId, eventType, Poll(limit), run);
            next.log == run.log && run.cursor < next.cursor <= |run.log|
            && !EvictedUnread(maxEvents, tenantId, eventType, next)
  {
    var next := AnswerIsSlice(maxEvents, tenantId, eventType, limit, run);
    hide Answer, RelevantTo, Filter;
  }

  /**
   Reading to the end: as many polls as there are sequence numbers ahead leave nothing
   to find, and the reader then has exactly the relevant events of the whole log, each
   once and in order, if and only if nothing was skipped before and nothing unread had
   been evicted when the polling began.
   */
  lemma {:induction false} PollingCatchesUp(
      maxEvents: nat, tenantId: string, eventType: string, limit: int, steps: seq<Step>, n: nat)
    requires limit > 0
    requires n >= |RunSteps(maxEvents, tenantId, eventType, steps).log| - RunSteps(maxEvents, tenantId, eventType, steps).cursor
    ensures var run, end := RunSteps(maxEvents, tenantId, eventType, steps),
                            RunSteps(maxEvents, tenantId, eventType, steps + Polls(limit, n));
      && end.log == run.log && Answer(maxEvents, tenantId, eventType, limit, end) == []
      && (AllDelivered(tenantId, eventType, end) <==>
            !Skipped(maxEvents, tenantId, eventType, steps) && !EvictedUnread(maxEvents, tenantId, eventType, run))
    decreases n
  {
    hide Answer, RelevantTo, Filter, EvictedUnread, Skipped, RunSteps;
    var run := RunSteps(maxEvents, tenantId, eventType, steps);
    DeliveryExact(maxEvents, tenantId, eventType, steps);
    if n == 0 {
      assert steps + Polls(limit, n) == steps;
      NothingAhead(maxEvents, tenantId, eventType, limit, run);
      CaughtUpExact(maxEvents, tenantId, eventType, limit, steps);
    } else {
      StepRun(maxEvents, tenantId, eventType, steps, Poll(limit));
      assert steps + Polls(limit, n) == (steps + [Poll(limit)]) + Polls(limit, n - 1);
      if Answer(maxEvents, tenantId, eventType, limit, run) == [] {
        PollsFindNothing(maxEvents, tenantId, eventType, limit, steps, n);
        CaughtUpExact(maxEvents, tenantId, eventType, limit, steps);
      } else {
        NothingEvictedAfterAnswer(maxEvents, tenantId, eventType, limit, run);
        PollingCatchesUp(maxEvents, tenantId, eventType, limit, steps + [Poll(limit)], n - 1);
      }
    }
  }

  lemma NothingAhead(maxEvents: nat, tenantId: string, eventType: string, limit: int, run: Run)
    requires Numbered(run.log) && run.cursor == |run.log|
    ensures Answer(maxEvents, tenantId, eventType, limit, run) == []
  {
    AnswerIsPrefix(maxEvents, tenantId, eventType, limit, run);
    assert run.log[From(maxEvents, run)..] == [];
  }

  lemma {:induction false} PollsFindNothing(
      maxEvents: nat, tenantId: string, eventType: string, limit: int, steps: seq<Step>, n: nat)
    requires Answer(maxEvents, tenantId, eventType, limit, RunSteps(maxEvents, tenantId, eventType, steps)) == []
    ensures RunSteps(maxEvents, tenantId, eventType, steps + Polls(limit, n)) == RunSteps(maxEvents, tenantId, eventType, steps)
  {
    hide Answer, RunSteps;
    if n == 0 {
      assert steps + Polls(limit, n) == steps;
    } else {
      PollsFindNothing(maxEvents, tenantId, eventType, limit, steps, n - 1);
      StepRun(maxEvents, tenantId, eventType, steps + Polls(limit, n - 1), Poll(limit));
      assert steps + Polls(limit, n) == (steps + Polls(limit, n - 1)) + [Poll(limit)];
    }
  }

  lemma NoEvents(tenantId: string, eventType: string)
    ensures Filter(RelevantTo(tenantId, eventType), []) == []
  {
  }

  /** A delivery that is short stays short. */
  lemma Deficit(delivered: seq<Event>, expected: seq<Event>, gap: seq<Event>, slice: seq<Event>)
    requires |delivered| <= |expected| && (|delivered| == |expected| ==> delivered == expected)
    ensures |delivered + slice| <= |expected + gap + slice|
    ensures |delivered + slice| == |expected + gap + slice| ==> delivered + slice == expected + gap + slice
    ensures delivered + slice == expected + gap + slice <==> delivered == expected && gap == []
  {
  }
}
