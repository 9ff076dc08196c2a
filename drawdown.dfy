/** The drawdown detector: `s.pct_change(4) <= -0.10` on the series left
    after `dropna()`. The lookback counts observations, not calendar days. */
module Drawdown {
  import opened Prices

  /** `pct_change(4)`: each observation is compared with the one four
      observations earlier. */
  const Lookback: nat := 4

  /** A change of -10% or worse marks a drop. */
  const DropThreshold: real := -0.10

  /** `cur / prev - 1 <= -0.10`. A zero previous close divides by zero: the
      quotient is -inf (marked) only for a negative current close; +inf and
      NaN are never marked. */
  predicate Breaches(cur: real, prev: real) {
    if prev != 0.0 then cur / prev - 1.0 <= DropThreshold else cur < 0.0
  }

  /** Observation `i` is a drop date: its four-step change is defined (there
      are four observations before it) and is at most the threshold. */
  predicate IsDrop(s: seq<Obs>, i: int) {
    Lookback <= i < |s| && Breaches(s[i].close, s[i - Lookback].close)
  }

  /** The drop positions among the first `n` observations, in series order. */
  function DropsBelow(s: seq<Obs>, n: nat): (r: seq<nat>)
    requires n <= |s|
    ensures forall i: nat :: i in r <==> i < n && IsDrop(s, i)
    ensures forall a, b :: 0 <= a < b < |r| ==> r[a] < r[b]
    ensures forall k :: 0 <= k < |r| ==> r[k] < n
  {
    if n == 0 then []
    else
      var r := DropsBelow(s, n - 1);
      if IsDrop(s, n - 1) then r + [n - 1] else r
  }

  /** `pct4[pct4 <= -0.10].index`: every drop position of the series. */
  function DropIndices(s: seq<Obs>): (r: seq<nat>)
    ensures forall i: nat :: i in r <==> IsDrop(s, i)
    ensures forall a, b :: 0 <= a < b < |r| ==> r[a] < r[b]
  {
    DropsBelow(s, |s|)
  }

  /** `int((pct4 <= -0.10).sum())` over the first `n` observations: the
      number of true entries in the boolean mask. */
  function CountDropsBelow(s: seq<Obs>, n: nat): nat
    requires n <= |s|
  {
    if n == 0 then 0
    else CountDropsBelow(s, n - 1) + (if IsDrop(s, n - 1) then 1 else 0)
  }

  function DropCount(s: seq<Obs>): nat {
    CountDropsBelow(s, |s|)
  }

  /** Summing the mask counts exactly the drop dates the backtest iterates. */
  lemma {:induction false} DropCountIsNumberOfDropDates(s: seq<Obs>)
    ensures DropCount(s) == |DropIndices(s)|
  {
    CountMatchesDrops(s, |s|);
  }

  lemma {:induction false} CountMatchesDrops(s: seq<Obs>, n: nat)
    requires n <= |s|
    ensures CountDropsBelow(s, n) == |DropsBelow(s, n)|
  {
    if n > 0 {
      CountMatchesDrops(s, n - 1);
    }
  }

  /** The first four observations never carry a defined change, so a series
      of fewer than five observations has no drop date at all. */
  lemma ShortSeriesHasNoDrops(s: seq<Obs>)
    requires |s| <= Lookback
    ensures DropIndices(s) == []
  {
    WarmupHasNoDrops(s, |s|);
  }

  lemma {:induction false} WarmupHasNoDrops(s: seq<Obs>, n: nat)
    requires n <= |s| && n <= Lookback
    ensures DropsBelow(s, n) == []
  {
    if n > 0 {
      WarmupHasNoDrops(s, n - 1);
    }
  }

  /** At most one drop per observation after the first four: a series of
      `n > 4` observations has at most `n - 4` drop dates. */
  lemma DropCountBound(s: seq<Obs>)
    ensures |s| <= Lookback ==> DropCount(s) == 0
    ensures |s| > Lookback ==> DropCount(s) <= |s| - Lookback
  {
    CountBelowBound(s, |s|);
  }

  lemma {:induction false} CountBelowBound(s: seq<Obs>, n: nat)
    requires n <= |s|
    ensures n <= Lookback ==> CountDropsBelow(s, n) == 0
    ensures n > Lookback ==> CountDropsBelow(s, n) <= n - Lookback
  {
    if n > 0 {
      CountBelowBound(s, n - 1);
    }
  }

  /** With a positive earlier close, the threshold is a fall to at most 90%
      of that close. */
  lemma BreachesIffFallToNinetyPercent(cur: real, prev: real)
    requires prev > 0.0
    ensures Breaches(cur, prev) <==> cur <= 0.9 * prev
  {
    assert cur / prev * prev == cur;
    if cur <= 0.9 * prev {
      assert cur / prev <= 0.9;
    } else {
      assert cur / prev > 0.9;
    }
  }

  /** Closes 100, 95, 90, 85, 88 on consecutive trading days: 88/100 - 1 = -12%,
      so the fifth observation (index 4) is the only drop date. */
  lemma FiveClosesScenario()
    ensures DropIndices([Obs(0, 100.0), Obs(1, 95.0), Obs(2, 90.0), Obs(3, 85.0), Obs(4, 88.0)]) == [4]
  {
    var s := [Obs(0, 100.0), Obs(1, 95.0), Obs(2, 90.0), Obs(3, 85.0), Obs(4, 88.0)];
    assert IsDrop(s, 4);
    WarmupHasNoDrops(s, 4);
  }
}
