/**
 Weighted choice by cumulative thresholds: which index a ticket selects, and how
 the whole ticket space is apportioned. Weights are exact reals.
 */
module WeightedPick {

  function NonNegative(w: real): real {
    if w >= 0.0 then w else 0.0
  }

  /** The sum of the first `i` weights, negative ones counting as zero. */
  function Partial(weights: seq<real>, i: nat): (r: real)
    requires i <= |weights|
    ensures r >= 0.0
  {
    if i == 0 then 0.0 else Partial(weights, i - 1) + NonNegative(weights[i - 1])
  }

  function TotalWeight(weights: seq<real>): real {
    Partial(weights, |weights|)
  }

  /** The accumulated threshold after `i` candidates. */
  function Threshold(weights: seq<real>, i: nat): real
    requires i <= |weights| && TotalWeight(weights) > 0.0
  {
    if i == 0 then 0.0
    else Threshold(weights, i - 1) + NonNegative(weights[i - 1]) / TotalWeight(weights)
  }

  lemma {:induction false} ThresholdIsShareOfTotal(weights: seq<real>, i: nat)
    requires i <= |weights| && TotalWeight(weights) > 0.0
    ensures Threshold(weights, i) * TotalWeight(weights) == Partial(weights, i)
  {
    hide TotalWeight, NonNegative;
    if i > 0 {
      ThresholdIsShareOfTotal(weights, i - 1);
      AddShare(Threshold(weights, i - 1), NonNegative(weights[i - 1]), TotalWeight(weights), Partial(weights, i - 1));
    }
  }

  lemma AddShare(before: real, w: real, total: real, partial: real)
    requires total > 0.0 && before * total == partial
    ensures (before + w / total) * total == partial + w
  {
  }

  lemma {:induction false} ThresholdMonotone(weights: seq<real>, i: nat, j: nat)
    requires i <= j <= |weights| && TotalWeight(weights) > 0.0
    ensures Threshold(weights, i) <= Threshold(weights, j)
  {
    if i < j {
      ThresholdMonotone(weights, i, j - 1);
      assert NonNegative(weights[j - 1]) / TotalWeight(weights) >= 0.0;
    }
  }

  /** The thresholds run from nothing up to exactly one. */
  lemma LastThresholdIsOne(weights: seq<real>)
    requires TotalWeight(weights) > 0.0
    ensures Threshold(weights, |weights|) == 1.0
  {
    ThresholdIsShareOfTotal(weights, |weights|);
    var t, total := Threshold(weights, |weights|), TotalWeight(weights);
    assert t * total == total;
    assert (t - 1.0) * total == 0.0;
  }

  /** The index `i` at which the loop stops for the ticket. */
  ghost predicate StopsAt(weights: seq<real>, ticket: real, i: nat)
    requires TotalWeight(weights) > 0.0
  {
    && i < |weights|
    && ticket <= Threshold(weights, i + 1)
    && forall k: nat | 0 < k <= i :: Threshold(weights, k) < ticket
  }

  /** The loop of `_weighted_pick`: the return after the loop is never reached. */
  method PickIndex(weights: seq<real>, ticket: real) returns (index: nat)
    requires TotalWeight(weights) > 0.0 && 0.0 <= ticket < 1.0
    ensures StopsAt(weights, ticket, index)
  {
    var threshold := 0.0;
    index := 0;
    LastThresholdIsOne(weights);
    for i := 0 to |weights|
      invariant threshold == Threshold(weights, i)
      invariant forall k: nat | 0 < k <= i :: Threshold(weights, k) < ticket
    {
      threshold := threshold + NonNegative(weights[i]) / TotalWeight(weights);
      if ticket <= threshold {
        return i;
      }
    }
    assert false;
  }

  /** A ticket stops at one index only. */
  lemma StopsOnce(weights: seq<real>, ticket: real, i: nat, j: nat)
    requires TotalWeight(weights) > 0.0
    requires StopsAt(weights, ticket, i) && StopsAt(weights, ticket, j)
    ensures i == j
  {
  }

  // ---------- apportionment of the ticket space ----------

  /** Ticket `t` of `n`. */
  function TicketAt(t: nat, n: nat): real
    requires n > 0
  {
    t as real / n as real
  }

  /** Among the first `upto` tickets of `n`, how many stop at index `i`. */
  ghost function Share(weights: seq<real>, n: nat, i: nat, upto: nat): (r: nat)
    requires n > 0 && TotalWeight(weights) > 0.0
    ensures r <= upto
  {
    if upto == 0 then 0
    else Share(weights, n, i, upto - 1) + (if StopsAt(weights, TicketAt(upto - 1, n), i) then 1 else 0)
  }

  /** Among the first `upto` tickets of `n`, how many stop before index `i`. */
  ghost function SharesBefore(weights: seq<real>, n: nat, i: nat, upto: nat): nat
    requires n > 0 && TotalWeight(weights) > 0.0
  {
    if i == 0 then 0 else SharesBefore(weights, n, i - 1, upto) + Share(weights, n, i - 1, upto)
  }

  /** Tickets stopping before `i` are those not above threshold `i`. */
  lemma {:induction false} SharesBeforeStep(weights: seq<real>, n: nat, i: nat, upto: nat)
    requires n > 0 && TotalWeight(weights) > 0.0 && i <= |weights|
    ensures SharesBefore(weights, n, i, upto + 1) ==
            SharesBefore(weights, n, i, upto)
            + (if i > 0 && TicketAt(upto, n) <= Threshold(weights, i) then 1 else 0)
  {
    if i > 0 {
      var ticket := TicketAt(upto, n);
      SharesBeforeStep(weights, n, i - 1, upto);
      if i > 1 {
        ThresholdMonotone(weights, i - 1, i);
      }
      assert StopsAt(weights, ticket, i - 1) <==>
             ticket <= Threshold(weights, i) && !(i > 1 && ticket <= Threshold(weights, i - 1)) by {
        forall k: nat | 0 < k <= i - 1 ensures Threshold(weights, k) <= Threshold(weights, i - 1) {
          ThresholdMonotone(weights, k, i - 1);
        }
      }
    }
  }

  /** The number of tickets below `upto` that stop before `i`, in closed form. */
  lemma {:induction false} SharesBeforeClosed(weights: seq<real>, n: nat, i: nat, upto: nat, cut: nat)
    requires n > 0 && TotalWeight(weights) > 0.0 && 0 < i <= |weights|
    requires forall t: nat :: TicketAt(t, n) <= Threshold(weights, i) <==> t < cut
    ensures SharesBefore(weights, n, i, upto) == if upto <= cut then upto else cut
  {
    if upto == 0 {
      NoTicketsNoShares(weights, n, i);
    } else {
      SharesBeforeClosed(weights, n, i, upto - 1, cut);
      SharesBeforeStep(weights, n, i, upto - 1);
    }
  }

  lemma {:induction false} NoTicketsNoShares(weights: seq<real>, n: nat, i: nat)
    requires n > 0 && TotalWeight(weights) > 0.0
    ensures SharesBefore(weights, n, i, 0) == 0
  {
    if i > 0 {
      NoTicketsNoShares(weights, n, i - 1);
    }
  }

  /** The tickets not above a threshold: all that are at most the floor of `c * n`. */
  lemma TicketsUpTo(n: nat, c: real) returns (cut: nat)
    requires n > 0 && 0.0 <= c
    ensures forall t: nat :: TicketAt(t, n) <= c <==> t < cut
    ensures c * n as real < cut as real <= c * n as real + 1.0
  {
    assert c * n as real >= 0.0;
    cut := (c * n as real).Floor + 1;
    forall t: nat ensures TicketAt(t, n) <= c <==> t < cut {
      Scale(TicketAt(t, n), c, n as real);
      assert TicketAt(t, n) * n as real == t as real;
    }
  }

  lemma Scale(a: real, b: real, factor: real)
    requires factor > 0.0
    ensures a <= b <==> a * factor <= b * factor
  {
  }

  /** The exact quota of candidate `i`: its share of the total weight, of `n` tickets. */
  function Quota(weights: seq<real>, n: nat, i: nat): real
    requires TotalWeight(weights) > 0.0 && i < |weights|
  {
    NonNegative(weights[i]) / TotalWeight(weights) * n as real
  }

  function QuotaBefore(weights: seq<real>, n: nat, i: nat): real
    requires TotalWeight(weights) > 0.0 && i <= |weights|
  {
    if i == 0 then 0.0 else QuotaBefore(weights, n, i - 1) + Quota(weights, n, i - 1)
  }

  lemma {:induction false} QuotaBeforeIsThreshold(weights: seq<real>, n: nat, i: nat)
    requires TotalWeight(weights) > 0.0 && i <= |weights|
    ensures QuotaBefore(weights, n, i) == Threshold(weights, i) * n as real
  {
    hide TotalWeight, NonNegative;
    if i > 0 {
      QuotaBeforeIsThreshold(weights, n, i - 1);
      var before, share := Threshold(weights, i - 1), NonNegative(weights[i - 1]) / TotalWeight(weights);
      assert Threshold(weights, i) == before + share;
      Distribute(before, share, n as real);
    }
  }

  lemma Distribute(a: real, b: real, c: real)
    ensures (a + b) * c == a * c + b * c
  {
  }

  lemma QuotaCut(weights: seq<real>, n: nat, i: nat) returns (cut: nat)
    requires n > 0 && TotalWeight(weights) > 0.0 && 0 < i <= |weights|
    ensures forall t: nat :: TicketAt(t, n) <= Threshold(weights, i) <==> t < cut
    ensures QuotaBefore(weights, n, i) < cut as real <= QuotaBefore(weights, n, i) + 1.0
    ensures QuotaBefore(weights, n, i) <= n as real
  {
    hide *;
    ThresholdInUnit(weights, i);
    QuotaBeforeIsThreshold(weights, n, i);
    var c := Threshold(weights, i);
    Scale(c, 1.0, n as real);
    cut := TicketsUpTo(n, c);
    assert QuotaBefore(weights, n, i) == c * n as real <= 1.0 * n as real;
  }

  lemma ThresholdInUnit(weights: seq<real>, i: nat)
    requires i <= |weights| && TotalWeight(weights) > 0.0
    ensures 0.0 <= Threshold(weights, i) <= 1.0
  {
    ThresholdMonotone(weights, 0, i);
    ThresholdMonotone(weights, i, |weights|);
    LastThresholdIsOne(weights);
  }

  /** How far the tickets before `i` exceed their exact quota: by at most one. */
  lemma SharesBeforeDeviation(weights: seq<real>, n: nat, i: nat)
    requires n > 0 && TotalWeight(weights) > 0.0 && i <= |weights|
    ensures 0.0 <= SharesBefore(weights, n, i, n) as real - QuotaBefore(weights, n, i) <= 1.0
  {
    if i > 0 {
      var cut := QuotaCut(weights, n, i);
      SharesBeforeClosed(weights, n, i, n, cut);
    }
  }

  /**
   Fair apportionment: over all `n` tickets the number sent to candidate `i` differs
   from its exact quota, `n` times its share of the total weight, by at most one.
   */
  lemma ApportionmentWithinOne(weights: seq<real>, n: nat, i: nat)
    requires n > 0 && TotalWeight(weights) > 0.0 && i < |weights|
    ensures -1.0 <= Share(weights, n, i, n) as real - Quota(weights, n, i) <= 1.0
  {
    SharesBeforeDeviation(weights, n, i);
    SharesBeforeDeviation(weights, n, i + 1);
  }

  /** Every ticket goes to exactly one candidate. */
  lemma EveryTicketCounted(weights: seq<real>, n: nat)
    requires n > 0 && TotalWeight(weights) > 0.0
    ensures SharesBefore(weights, n, |weights|, n) == n
  {
    LastThresholdIsOne(weights);
    assert |weights| > 0;
    var cut := TicketsUpTo(n, 1.0);
    SharesBeforeClosed(weights, n, |weights|, n, cut);
  }
}
