/** The option-chain matcher of the backtest: pick the put expiration nearest
    to thirty days after the trigger, the strike nearest to the trigger-day
    close, and read that contract's implied volatility. */
module OptionChain {
  import opened Common

  /** One contract variant listed under a strike; `volatility` is the
      provider's implied volatility, absent when the field is missing. */
  datatype Contract = Contract(volatility: Option<real>)

  /** A strike of one expiration and the contracts listed under it. */
  datatype StrikeEntry = StrikeEntry(strike: real, contracts: seq<Contract>)

  /** One entry of `putExpDateMap`: its key text (a date, then ':' and more)
      and its strikes, in the payload's order. */
  datatype Expiration = Expiration(key: string, strikes: seq<StrikeEntry>)

  /** `putExpDateMap` in the payload's key order (empty when the response has
      none). */
  type PutMap = seq<Expiration>

  /** The target expiration lies this many days after the trigger. */
  const HorizonDays: int := 30

  /** A contract qualifies only with an implied volatility above this. */
  const MinVolatility: real := 0.60

  /** The uncaught exceptions the matcher can raise: `min()` of an empty
      strike list, and `[0]` of an empty contract list. */
  datatype Fault = NoStrikes | NoContracts

  /** `k.split(":")[0]`: the text of a key before its first ':' (all of it
      when there is none). */
  function DatePart(key: string): (d: string)
    ensures d <= key
    ensures ':' !in d
    ensures |d| < |key| ==> key[|d|] == ':'
  {
    if key == [] || key[0] == ':' then []
    else [key[0]] + DatePart(key[1..])
  }

  /** `parse_key(k)`: the expiration's day number. The calendar conversion
      of the date text is the parameter `dayOf`. */
  function ExpirationDay(e: Expiration, dayOf: string -> int): int {
    dayOf(DatePart(e.key))
  }

  /** The key `min` ranks expirations by: days between the expiration and
      the target, for each entry of the put map in order. */
  function DayGaps(m: PutMap, target: int, dayOf: string -> int): (g: seq<real>)
    ensures |g| == |m|
    ensures forall k :: 0 <= k < |m| ==> g[k] == Abs(ExpirationDay(m[k], dayOf) - target) as real
  {
    if m == [] then [] else DayGaps(m[..|m| - 1], target, dayOf) + [Abs(ExpirationDay(m[|m| - 1], dayOf) - target) as real]
  }

  /** The key `min` ranks strikes by: distance from the trigger-day close. */
  function PriceGaps(strikes: seq<StrikeEntry>, price: real): (g: seq<real>)
    ensures |g| == |strikes|
    ensures forall k :: 0 <= k < |strikes| ==> g[k] == AbsReal(strikes[k].strike - price)
  {
    if strikes == [] then [] else PriceGaps(strikes[..|strikes| - 1], price) + [AbsReal(strikes[|strikes| - 1].strike - price)]
  }

  /** Entry `e` has the least day distance to `target`, and every entry
      listed before it is farther. */
  predicate IsNearestExpiration(m: PutMap, target: int, dayOf: string -> int, e: nat) {
    && e < |m|
    && (forall k :: 0 <= k < |m| ==>
          Abs(ExpirationDay(m[e], dayOf) - target) <= Abs(ExpirationDay(m[k], dayOf) - target))
    && (forall k :: 0 <= k < e ==>
          Abs(ExpirationDay(m[e], dayOf) - target) < Abs(ExpirationDay(m[k], dayOf) - target))
  }

  /** Strike `j` is the least distance from `price`, and every strike listed
      before it is farther. */
  predicate IsNearestStrike(strikes: seq<StrikeEntry>, price: real, j: nat) {
    && j < |strikes|
    && (forall k :: 0 <= k < |strikes| ==>
          AbsReal(strikes[j].strike - price) <= AbsReal(strikes[k].strike - price))
    && (forall k :: 0 <= k < j ==>
          AbsReal(strikes[j].strike - price) < AbsReal(strikes[k].strike - price))
  }

  /** `min(exp_keys, key=lambda k: abs((parse_key(k) - exp_target).days))`. */
  function NearestExpiration(m: PutMap, target: int, dayOf: string -> int): (e: nat)
    requires |m| > 0
    ensures IsNearestExpiration(m, target, dayOf, e)
  {
    FirstArgMin(DayGaps(m, target, dayOf))
  }

  /** `min(strikes, key=lambda x: abs(x - price_on_dt))`. */
  function NearestStrike(strikes: seq<StrikeEntry>, price: real): (j: nat)
    requires |strikes| > 0
    ensures IsNearestStrike(strikes, price, j)
  {
    FirstArgMin(PriceGaps(strikes, price))
  }

  /** Only one entry is the first-listed nearest expiration, and only one
      strike the first-listed nearest strike: matching the same payload twice
      selects the same contract. */
  lemma NearestIsUnique(m: PutMap, target: int, dayOf: string -> int, e1: nat, e2: nat,
                        price: real, j1: nat, j2: nat)
    requires IsNearestExpiration(m, target, dayOf, e1) && IsNearestExpiration(m, target, dayOf, e2)
    ensures e1 == e2
    ensures IsNearestStrike(m[e1].strikes, price, j1) && IsNearestStrike(m[e1].strikes, price, j2) ==> j1 == j2
  {
    var gaps := DayGaps(m, target, dayOf);
    assert IsFirstMin(gaps, e1) && IsFirstMin(gaps, e2);
    FirstMinIsUnique(gaps, e1, e2);
    if IsNearestStrike(m[e1].strikes, price, j1) && IsNearestStrike(m[e1].strikes, price, j2) {
      var pg := PriceGaps(m[e1].strikes, price);
      assert IsFirstMin(pg, j1) && IsFirstMin(pg, j2);
      FirstMinIsUnique(pg, j1, j2);
    }
  }

  /** What the matcher makes of one trigger's put map: nothing to match, a
      nearest expiration without strikes (where `min()` raises), or the
      expiration and strike it selected, by position. */
  datatype Selection = NoChain | Strikeless(exp: nat) | Chosen(exp: nat, strike: nat)

  /** main.py lines 121-134 for a trigger on `triggerDay` closing at `price`:
      an empty put map is skipped; otherwise the expiration nearest to thirty
      days out is taken, and within it the strike nearest to the close. */
  function MatchContract(m: PutMap, triggerDay: int, price: real, dayOf: string -> int): (sel: Selection)
    ensures sel.NoChain? <==> m == []
    ensures sel.Strikeless? ==> sel.exp < |m|
    ensures sel.Chosen? ==> sel.exp < |m| && sel.strike < |m[sel.exp].strikes|
    ensures sel.Strikeless? ==>
      IsNearestExpiration(m, triggerDay + HorizonDays, dayOf, sel.exp) && m[sel.exp].strikes == []
    ensures sel.Chosen? ==>
      && IsNearestExpiration(m, triggerDay + HorizonDays, dayOf, sel.exp)
      && IsNearestStrike(m[sel.exp].strikes, price, sel.strike)
  {
    if m == [] then NoChain
    else
      var e := NearestExpiration(m, triggerDay + HorizonDays, dayOf);
      if m[e].strikes == [] then Strikeless(e)
      else Chosen(e, NearestStrike(m[e].strikes, price))
  }

  /** The contract read for a selection: the first listed under the chosen
      strike, or the exception `[0]` raises on an empty list. */
  function FirstContract(m: PutMap, e: nat, j: nat): (r: Result<Contract, Fault>)
    requires e < |m| && j < |m[e].strikes|
    ensures r.Err? <==> m[e].strikes[j].contracts == []
    ensures r.Ok? ==> r.value == m[e].strikes[j].contracts[0]
  {
    var listed := m[e].strikes[j].contracts;
    if listed == [] then Err(NoContracts) else Ok(listed[0])
  }

  /** `iv is None or iv <= 0.60` discards the trigger. */
  predicate VolatilityQualifies(iv: Option<real>) {
    iv.Some? && iv.value > MinVolatility
  }

  /** A trigger on day 0 targets day 30. Of expirations 35 and 28 days out,
      the 28-day one is nearer and wins although it is listed second. */
  lemma NearerExpirationWins(k28: string, k35: string, dayOf: string -> int)
    requires dayOf(DatePart(k28)) == 28 && dayOf(DatePart(k35)) == 35
    ensures NearestExpiration([Expiration(k35, []), Expiration(k28, [])], HorizonDays, dayOf) == 1
  {
    var m := [Expiration(k35, []), Expiration(k28, [])];
    assert IsNearestExpiration(m, HorizonDays, dayOf, 1);
    NearestIsUnique(m, HorizonDays, dayOf, 1, NearestExpiration(m, HorizonDays, dayOf), 0.0, 0, 0);
  }

  /** Expirations 25 and 35 days out tie at five days from the target: the
      one listed first wins, in either order. */
  lemma TiedExpirationsFirstListedWins(k25: string, k35: string, dayOf: string -> int)
    requires dayOf(DatePart(k25)) == 25 && dayOf(DatePart(k35)) == 35
    ensures NearestExpiration([Expiration(k25, []), Expiration(k35, [])], HorizonDays, dayOf) == 0
    ensures NearestExpiration([Expiration(k35, []), Expiration(k25, [])], HorizonDays, dayOf) == 0
  {
    var m1 := [Expiration(k25, []), Expiration(k35, [])];
    assert IsNearestExpiration(m1, HorizonDays, dayOf, 0);
    NearestIsUnique(m1, HorizonDays, dayOf, 0, NearestExpiration(m1, HorizonDays, dayOf), 0.0, 0, 0);
    var m2 := [Expiration(k35, []), Expiration(k25, [])];
    assert IsNearestExpiration(m2, HorizonDays, dayOf, 0);
    NearestIsUnique(m2, HorizonDays, dayOf, 0, NearestExpiration(m2, HorizonDays, dayOf), 0.0, 0, 0);
  }
}
