/** `analyze_ticker`: for every drop date of a ticker's series, match a put
    contract, keep it when its implied volatility exceeds 60%, and count it as
    a trial and, when the stock later closes above the strike, a success. */
module Backtest {
  import opened Common
  import opened Prices
  import opened Drawdown
  import opened OptionChain
  import opened Outcome

  /** The `(trials, successes)` pair `analyze_ticker` returns. */
  datatype Tally = Tally(trials: nat, successes: nat)

  /** What one drop date does to the tally. */
  datatype Step = Discard | Trial(success: bool) | Abort(fault: Fault)

  /** The effect of the drop date at position `i` (main.py lines 110-150, in
      the source's order of decisions). `chainOn(d)` is the put map the
      provider returns for a trigger on day `d` (its request covers `d` to
      `d + 30`). */
  function TriggerStep(s: seq<Obs>, i: nat, chainOn: int -> PutMap, dayOf: string -> int): Step
    requires i < |s|
  {
    var m := chainOn(s[i].day);
    if m == [] then Discard
    else
      var e := NearestExpiration(m, s[i].day + HorizonDays, dayOf);
      if m[e].strikes == [] then Abort(NoStrikes)
      else
        var j := NearestStrike(m[e].strikes, s[i].close);
        match FirstContract(m, e, j)
        case Err(f) => Abort(f)
        case Ok(opt) =>
          if !VolatilityQualifies(opt.volatility) then Discard
          else Trial(Succeeds(s, ExpirationDay(m[e], dayOf), m[e].strikes[j].strike))
  }

  /** The same step, told through the matcher's selection. */
  lemma TriggerStepByMatch(s: seq<Obs>, i: nat, chainOn: int -> PutMap, dayOf: string -> int)
    requires i < |s|
    ensures var m := chainOn(s[i].day);
      TriggerStep(s, i, chainOn, dayOf) ==
        match MatchContract(m, s[i].day, s[i].close, dayOf)
        case NoChain => Discard
        case Strikeless(_) => Abort(NoStrikes)
        case Chosen(e, j) =>
          match FirstContract(m, e, j)
          case Err(f) => Abort(f)
          case Ok(opt) =>
            if !VolatilityQualifies(opt.volatility) then Discard
            else Trial(Succeeds(s, ExpirationDay(m[e], dayOf), m[e].strikes[j].strike))
  {
  }

  /** One iteration of the loop: a discarded trigger leaves the tally, a trial
      counts once (and once more as a success when it won), an exception ends
      the analysis. */
  function Apply(r: Result<Tally, Fault>, step: Step): Result<Tally, Fault> {
    match r
    case Err(f) => Err(f)
    case Ok(t) =>
      match step
      case Discard => Ok(t)
      case Abort(f) => Err(f)
      case Trial(won) => Ok(Tally(t.trials + 1, if won then t.successes + 1 else t.successes))
  }

  /** The tally after taking the first `n` of `steps` in order, from
      `(0, 0)`. */
  function Fold(steps: seq<Step>, n: nat): Result<Tally, Fault>
    requires n <= |steps|
  {
    if n == 0 then Ok(Tally(0, 0))
    else Apply(Fold(steps, n - 1), steps[n - 1])
  }

  predicate InSeries(s: seq<Obs>, drops: seq<nat>) {
    forall k :: 0 <= k < |drops| ==> drops[k] < |s|
  }

  /** The step of each drop date, in order. */
  function StepsOf(s: seq<Obs>, drops: seq<nat>, chainOn: int -> PutMap, dayOf: string -> int): (r: seq<Step>)
    requires InSeries(s, drops)
    ensures |r| == |drops|
  {
    if drops == [] then []
    else StepsOf(s, drops[..|drops| - 1], chainOn, dayOf) + [TriggerStep(s, drops[|drops| - 1], chainOn, dayOf)]
  }

  /** The `k`-th step is the effect of the `k`-th drop date. */
  lemma {:induction false} StepAt(s: seq<Obs>, drops: seq<nat>, k: nat, chainOn: int -> PutMap, dayOf: string -> int)
    requires InSeries(s, drops) && k < |drops|
    ensures StepsOf(s, drops, chainOn, dayOf)[k] == TriggerStep(s, drops[k], chainOn, dayOf)
  {
    if k < |drops| - 1 {
      StepAt(s, drops[..|drops| - 1], k, chainOn, dayOf);
    }
  }

  /** The tally after processing `drops` in order; the first exception ends
      the analysis. */
  function TallyOf(s: seq<Obs>, drops: seq<nat>, chainOn: int -> PutMap, dayOf: string -> int): Result<Tally, Fault>
    requires InSeries(s, drops)
  {
    Fold(StepsOf(s, drops, chainOn, dayOf), |drops|)
  }

  /** `analyze_ticker(client, closes)` as a value. */
  function Backtest(closes: seq<Cell>, chainOn: int -> PutMap, dayOf: string -> int): Result<Tally, Fault> {
    var s := DropMissing(closes);
    TallyOf(s, DropIndices(s), chainOn, dayOf)
  }

  /** `analyze_ticker` (main.py lines 103-152): drop the gaps, find the drop
      dates, then run the trigger loop over them. */
  method AnalyzeTicker(closes: seq<Cell>, chainOn: int -> PutMap, dayOf: string -> int)
    returns (r: Result<Tally, Fault>)
    ensures r == Backtest(closes, chainOn, dayOf)
    ensures r.Ok? ==> r.value.successes <= r.value.trials <= |DropIndices(DropMissing(closes))|
  {
    var s := DropMissing(closes);
    var dropDates := DropIndices(s);
    r := RunTriggers(s, dropDates, chainOn, dayOf);
  }

  /** The `for dt in drop_dates` loop: each drop date is evaluated, a
      discarded one is skipped (`continue`), a trial is counted, and an
      exception ends the analysis. */
  method RunTriggers(s: seq<Obs>, dropDates: seq<nat>, chainOn: int -> PutMap, dayOf: string -> int)
    returns (r: Result<Tally, Fault>)
    requires InSeries(s, dropDates)
    ensures r == TallyOf(s, dropDates, chainOn, dayOf)
    ensures r.Ok? ==> r.value.successes <= r.value.trials <= |dropDates|
  {
    ghost var steps := StepsOf(s, dropDates, chainOn, dayOf);
    var tally := Tally(0, 0);
    for k := 0 to |dropDates|
      invariant Fold(steps, k) == Ok(tally)
    {
      var step := EvaluateDropDate(s, dropDates, k, chainOn, dayOf);
      var next := CountStep(tally, step);
      if next.Err? {
        ErrPersists(steps, k + 1, |dropDates|);
        return next;
      }
      tally := next.value;
    }
    FoldBounds(steps, |dropDates|);
    return Ok(tally);
  }

  /** The counting at the end of the loop body: a discarded drop date is
      skipped, a trial adds one to `trials` and, when it succeeded, one to
      `successes`, and an exception ends the analysis. */
  method CountStep(tally: Tally, step: Step) returns (r: Result<Tally, Fault>)
    ensures r == Apply(Ok(tally), step)
  {
    match step
    case Discard => r := Ok(tally);
    case Abort(f) => r := Err(f);
    case Trial(won) =>
      var trials, successes := tally.trials + 1, tally.successes;
      if won {
        successes := successes + 1;
      }
      r := Ok(Tally(trials, successes));
  }

  /** The loop body for the `k`-th drop date: its step is the `k`-th of
      `StepsOf`. */
  method EvaluateDropDate(s: seq<Obs>, dropDates: seq<nat>, k: nat, chainOn: int -> PutMap, dayOf: string -> int)
    returns (step: Step)
    requires InSeries(s, dropDates) && k < |dropDates|
    ensures step == StepsOf(s, dropDates, chainOn, dayOf)[k]
  {
    step := EvaluateTrigger(s, dropDates[k], chainOn, dayOf);
    StepAt(s, dropDates, k, chainOn, dayOf);
  }

  /** The body of that loop for the drop date at position `i` (main.py lines
      110-150), in the source's order of decisions. */
  method EvaluateTrigger(s: seq<Obs>, i: nat, chainOn: int -> PutMap, dayOf: string -> int)
    returns (step: Step)
    requires i < |s|
    ensures step == TriggerStep(s, i, chainOn, dayOf)
  {
    var priceOnDt := s[i].close;
    var expTarget := s[i].day + HorizonDays;
    var putMap := chainOn(s[i].day);
    if putMap == [] {
      return Discard;
    }
    var best := NearestExpiration(putMap, expTarget, dayOf);
    var strikesMap := putMap[best].strikes;
    if strikesMap == [] {
      return Abort(NoStrikes);
    }
    var strike := NearestStrike(strikesMap, priceOnDt);
    if strikesMap[strike].contracts == [] {
      return Abort(NoContracts);
    }
    var iv := strikesMap[strike].contracts[0].volatility;
    if iv.None? || iv.value <= MinVolatility {
      return Discard;
    }
    var future := FirstOnOrAfter(s, ExpirationDay(putMap[best], dayOf));
    if future.None? {
      return Trial(false);
    }
    return Trial(s[future.value].close > strikesMap[strike].strike);
  }

  /** Once an exception is raised, later drop dates are never reached. */
  lemma {:induction false} ErrPersists(steps: seq<Step>, k: nat, n: nat)
    requires k <= n <= |steps|
    requires Fold(steps, k).Err?
    ensures Fold(steps, n) == Fold(steps, k)
    decreases n
  {
    if k < n {
      ErrPersists(steps, k, n - 1);
    }
  }

  /** Each step adds at most one trial, and a success only together with a
      trial: `0 <= successes <= trials <= number of steps`. */
  lemma {:induction false} FoldBounds(steps: seq<Step>, n: nat)
    requires n <= |steps|
    ensures Fold(steps, n).Ok? ==> Fold(steps, n).value.successes <= Fold(steps, n).value.trials <= n
  {
    if n > 0 {
      FoldBounds(steps, n - 1);
    }
  }

  /** The fold ends without an exception exactly when no step raises one. */
  lemma {:induction false} FoldOkIff(steps: seq<Step>, n: nat)
    requires n <= |steps|
    ensures Fold(steps, n).Ok? <==> forall k :: 0 <= k < n ==> !steps[k].Abort?
  {
    if n > 0 {
      FoldOkIff(steps, n - 1);
    }
  }

  /** The fold only looks at the steps it takes. */
  lemma {:induction false} FoldAgrees(a: seq<Step>, b: seq<Step>, n: nat)
    requires n <= |a| && n <= |b|
    requires forall k :: 0 <= k < n ==> a[k] == b[k]
    ensures Fold(a, n) == Fold(b, n)
  {
    if n > 0 {
      FoldAgrees(a, b, n - 1);
    }
  }

  /** Appending a drop date appends its step. */
  lemma AppendStep(s: seq<Obs>, drops: seq<nat>, i: nat, chainOn: int -> PutMap, dayOf: string -> int)
    requires InSeries(s, drops) && i < |s|
    ensures InSeries(s, drops + [i])
    ensures TallyOf(s, drops + [i], chainOn, dayOf)
         == Apply(TallyOf(s, drops, chainOn, dayOf), TriggerStep(s, i, chainOn, dayOf))
  {
    assert (drops + [i])[..|drops|] == drops;
    FoldAgrees(StepsOf(s, drops + [i], chainOn, dayOf), StepsOf(s, drops, chainOn, dayOf), |drops|);
  }

  /** The analysis finishes without an exception exactly when no drop date's
      nearest expiration lists no strike and no nearest strike lists no
      contract. */
  lemma TallyOkIff(s: seq<Obs>, drops: seq<nat>, chainOn: int -> PutMap, dayOf: string -> int)
    requires InSeries(s, drops)
    ensures TallyOf(s, drops, chainOn, dayOf).Ok? <==>
      forall k :: 0 <= k < |drops| ==> !TriggerStep(s, drops[k], chainOn, dayOf).Abort?
  {
    FoldOkIff(StepsOf(s, drops, chainOn, dayOf), |drops|);
    forall k | 0 <= k < |drops| {
      StepAt(s, drops, k, chainOn, dayOf);
    }
  }

  /** Each drop date adds at most one trial, and a success only together with
      a trial. */
  lemma TallyBounds(s: seq<Obs>, drops: seq<nat>, chainOn: int -> PutMap, dayOf: string -> int)
    requires InSeries(s, drops)
    ensures TallyOf(s, drops, chainOn, dayOf).Ok? ==>
      TallyOf(s, drops, chainOn, dayOf).value.successes <= TallyOf(s, drops, chainOn, dayOf).value.trials <= |drops|
  {
    FoldBounds(StepsOf(s, drops, chainOn, dayOf), |drops|);
  }

  /** A trigger for which the provider lists no put expiration changes
      neither counter. */
  lemma EmptyChainLeavesTally(s: seq<Obs>, drops: seq<nat>, i: nat, chainOn: int -> PutMap, dayOf: string -> int)
    requires InSeries(s, drops) && i < |s|
    requires chainOn(s[i].day) == []
    ensures TallyOf(s, drops + [i], chainOn, dayOf) == TallyOf(s, drops, chainOn, dayOf)
  {
    AppendStep(s, drops, i, chainOn, dayOf);
  }

  /** A trigger whose selected contract has no implied volatility, or one of
      at most 60%, changes neither counter. */
  lemma LowVolatilityLeavesTally(s: seq<Obs>, drops: seq<nat>, i: nat, chainOn: int -> PutMap, dayOf: string -> int,
                                 e: nat, j: nat)
    requires InSeries(s, drops) && i < |s|
    requires MatchContract(chainOn(s[i].day), s[i].day, s[i].close, dayOf) == Chosen(e, j)
    requires chainOn(s[i].day)[e].strikes[j].contracts != []
    requires !VolatilityQualifies(chainOn(s[i].day)[e].strikes[j].contracts[0].volatility)
    ensures TallyOf(s, drops + [i], chainOn, dayOf) == TallyOf(s, drops, chainOn, dayOf)
  {
    TriggerStepByMatch(s, i, chainOn, dayOf);
    AppendStep(s, drops, i, chainOn, dayOf);
  }

  /** A trigger whose selected contract's implied volatility is above 60%
      adds exactly one trial, and one success exactly when the trial succeeds
      (`SucceedsIff`: the first close dated on or after the expiration exists
      and is above the strike). */
  lemma QualifyingTriggerCountsOnce(s: seq<Obs>, drops: seq<nat>, i: nat, chainOn: int -> PutMap, dayOf: string -> int,
                                    t: Tally, e: nat, j: nat)
    requires InSeries(s, drops) && i < |s|
    requires TallyOf(s, drops, chainOn, dayOf) == Ok(t)
    requires MatchContract(chainOn(s[i].day), s[i].day, s[i].close, dayOf) == Chosen(e, j)
    requires chainOn(s[i].day)[e].strikes[j].contracts != []
    requires VolatilityQualifies(chainOn(s[i].day)[e].strikes[j].contracts[0].volatility)
    ensures var won := Succeeds(s, ExpirationDay(chainOn(s[i].day)[e], dayOf), chainOn(s[i].day)[e].strikes[j].strike);
      TallyOf(s, drops + [i], chainOn, dayOf) == Ok(Tally(t.trials + 1, if won then t.successes + 1 else t.successes))
  {
    var m := chainOn(s[i].day);
    var won := Succeeds(s, ExpirationDay(m[e], dayOf), m[e].strikes[j].strike);
    TriggerStepByMatch(s, i, chainOn, dayOf);
    assert TriggerStep(s, i, chainOn, dayOf) == Trial(won);
    AppendStep(s, drops, i, chainOn, dayOf);
    TrialCounts(t, won);
  }

  /** The `Trial` case of `Apply` on its own, outside the large context of
      the lemma above, where the solver finds it costly. */
  lemma TrialCounts(t: Tally, won: bool)
    ensures Apply(Ok(t), Trial(won)) == Ok(Tally(t.trials + 1, if won then t.successes + 1 else t.successes))
  {
  }

  /** The backtest never counts more trials than the series has drop dates
      (the number the drop-count report gives), nor more successes than
      trials. */
  lemma BacktestBounds(closes: seq<Cell>, chainOn: int -> PutMap, dayOf: string -> int)
    ensures Backtest(closes, chainOn, dayOf).Ok? ==>
      var t := Backtest(closes, chainOn, dayOf).value;
      t.successes <= t.trials <= DropCount(DropMissing(closes))
  {
    var s := DropMissing(closes);
    TallyBounds(s, DropIndices(s), chainOn, dayOf);
    DropCountIsNumberOfDropDates(s);
  }
}
