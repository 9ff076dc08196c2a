/** The outcome evaluator: the first close dated on or after the option's
    expiration decides whether a sold put would have expired worthless. */
module Outcome {
  import opened Common
  import opened Prices

  /** `s[s.index.date >= day].iloc[0]`, as a position: the first observation
      in series order dated on or after `day`, or none. */
  function FirstOnOrAfter(s: seq<Obs>, day: int): (r: Option<nat>)
    ensures r.Some? ==> r.value < |s| && day <= s[r.value].day
    ensures r.Some? ==> forall j :: 0 <= j < r.value ==> s[j].day < day
    ensures r.None? ==> forall j :: 0 <= j < |s| ==> s[j].day < day
  {
    if s == [] then None
    else if day <= s[0].day then Some(0)
    else match FirstOnOrAfter(s[1..], day)
      case None => None
      case Some(k) => Some(k + 1)
  }

  /** The trial is a success when that close is strictly above the strike; a
      trial with no such close is not a success. */
  predicate Succeeds(s: seq<Obs>, expDay: int, strike: real) {
    match FirstOnOrAfter(s, expDay)
    case None => false
    case Some(k) => s[k].close > strike
  }

  /** Success means: some close is dated on or after the expiration, and the
      first such close is strictly above the strike. */
  lemma SucceedsIff(s: seq<Obs>, expDay: int, strike: real)
    ensures Succeeds(s, expDay, strike) <==>
      exists k :: 0 <= k < |s| && expDay <= s[k].day && s[k].close > strike
                  && (forall j :: 0 <= j < k ==> s[j].day < expDay)
  {
    var r := FirstOnOrAfter(s, expDay);
    if r.Some? {
      var k := r.value;
      forall k' | 0 <= k' < |s| && expDay <= s[k'].day && (forall j :: 0 <= j < k' ==> s[j].day < expDay)
        ensures k' == k
      {
        assert expDay <= s[k].day && expDay <= s[k'].day;
      }
    }
  }

  /** On a date-sorted series the position found is the earliest date on or
      after the expiration. */
  lemma FirstOnOrAfterIsEarliestDate(s: seq<Obs>, day: int)
    requires Chronological(s)
    requires FirstOnOrAfter(s, day).Some?
    ensures forall j :: 0 <= j < |s| && day <= s[j].day ==>
      s[FirstOnOrAfter(s, day).value].day <= s[j].day
  {
  }
}
