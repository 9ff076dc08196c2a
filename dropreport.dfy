/** The drop-count report at the end of `main`: which requested tickers made
    it into the merged close table, which did not, and for every available
    ticker with at least five observations the number of drop dates. */
module DropReport {
  import opened Common
  import opened Prices
  import opened Drawdown

  type Ticker = string

  /** One entry of the `results` list: `{"ticker": ..., "drop_signals": ...}`. */
  datatype Row = Row(ticker: Ticker, dropSignals: nat)

  /** A series shorter than this is skipped. */
  const MinObservations: nat := 5

  /** `[t for t in tickers if t in closes_df.columns]`. */
  function Available(tickers: seq<Ticker>, columns: set<Ticker>): (av: seq<Ticker>)
    ensures |av| <= |tickers|
    ensures forall t :: t in av <==> t in tickers && t in columns
    ensures forall t :: multiset(av)[t] == if t in columns then multiset(tickers)[t] else 0
  {
    if tickers == [] then []
    else
      assert tickers == [tickers[0]] + tickers[1..];
      (if tickers[0] in columns then [tickers[0]] else []) + Available(tickers[1..], columns)
  }

  /** `a` can be obtained from `b` by deleting elements, so it keeps `b`'s
      order: either `b`'s first element is kept as `a`'s first, or it is
      deleted. */
  predicate Subsequence(a: seq<Ticker>, b: seq<Ticker>)
    decreases |b|
  {
    if b == [] then a == []
    else (a != [] && a[0] == b[0] && Subsequence(a[1..], b[1..])) || Subsequence(a, b[1..])
  }

  /** The available tickers come in the order they were requested. */
  lemma {:induction false} AvailableKeepsOrder(tickers: seq<Ticker>, columns: set<Ticker>)
    ensures Subsequence(Available(tickers, columns), tickers)
  {
    if tickers != [] {
      var rest := Available(tickers[1..], columns);
      AvailableKeepsOrder(tickers[1..], columns);
      if tickers[0] in columns {
        assert Available(tickers, columns) == [tickers[0]] + rest;
        assert ([tickers[0]] + rest)[1..] == rest;
      } else {
        assert Available(tickers, columns) == rest;
      }
    }
  }

  /** `set(tickers) - set(available)`. */
  function Missing(tickers: seq<Ticker>, available: seq<Ticker>): set<Ticker> {
    (set t | t in tickers) - (set t | t in available)
  }

  /** `missing` is exactly the requested tickers without a column, and no
      ticker is both missing and available. */
  lemma MissingIsTheRest(tickers: seq<Ticker>, columns: set<Ticker>)
    ensures var av := Available(tickers, columns);
      && Missing(tickers, av) == (set t | t in tickers && t !in columns)
      && (forall t :: t in av ==> t !in Missing(tickers, av))
      && (forall t :: t in tickers ==> t in av || t in Missing(tickers, av))
  {
  }

  /** The rows one available ticker contributes: none when its series has
      fewer than five observations after `dropna()`, otherwise one with its
      drop-date count. */
  function RowFor(table: map<Ticker, seq<Cell>>, t: Ticker): seq<Row>
    requires t in table
  {
    var series := DropMissing(table[t]);
    if |series| < MinObservations then [] else [Row(t, DropCount(series))]
  }

  /** The `results` list after the report loop has visited `available`. */
  function ReportRows(table: map<Ticker, seq<Cell>>, available: seq<Ticker>): seq<Row>
    requires forall t :: t in available ==> t in table
  {
    if available == [] then []
    else ReportRows(table, available[..|available| - 1]) + RowFor(table, available[|available| - 1])
  }

  /** The report of `main` (lines 187-230): split the requested tickers into
      available and missing, then append one row per available ticker whose
      series has at least five observations. */
  method DropSignalReport(table: map<Ticker, seq<Cell>>, tickers: seq<Ticker>)
    returns (available: seq<Ticker>, missing: set<Ticker>, results: seq<Row>)
    ensures available == Available(tickers, table.Keys)
    ensures missing == Missing(tickers, available)
    ensures results == ReportRows(table, available)
  {
    available := Available(tickers, table.Keys);
    missing := Missing(tickers, available);
    results := [];
    for k := 0 to |available|
      invariant results == ReportRows(table, available[..k])
    {
      ReportRowsAppend(table, available, k);
      var symbol := available[k];
      var series := DropMissing(table[symbol]);
      if |series| < MinObservations {
        continue;
      }
      var dropCount := DropCount(series);
      results := results + [Row(symbol, dropCount)];
    }
    assert available[..|available|] == available;
  }

  lemma ReportRowsAppend(table: map<Ticker, seq<Cell>>, available: seq<Ticker>, k: nat)
    requires forall t :: t in available ==> t in table
    requires k < |available|
    ensures ReportRows(table, available[..k + 1]) == ReportRows(table, available[..k]) + RowFor(table, available[k])
  {
    assert available[..k + 1][..k] == available[..k];
  }

  /** A row for `t` with count `c` is reported exactly when `t` is
      available, its series keeps at least five observations after
      `dropna()`, and `c` is its number of drop dates. */
  lemma {:induction false} ReportRowIff(table: map<Ticker, seq<Cell>>, available: seq<Ticker>, t: Ticker, c: nat)
    requires forall u :: u in available ==> u in table
    ensures Row(t, c) in ReportRows(table, available) <==>
      && t in available
      && |DropMissing(table[t])| >= MinObservations
      && c == |DropIndices(DropMissing(table[t]))|
  {
    if available != [] {
      var init := available[..|available| - 1];
      var last := available[|available| - 1];
      ReportRowIff(table, init, t, c);
      assert available == init + [last];
      DropCountIsNumberOfDropDates(DropMissing(table[last]));
    }
  }

  /** Rows follow `available`: there are at most as many, and the k-th row
      belongs to a ticker that is available. */
  lemma {:induction false} ReportRowsBounded(table: map<Ticker, seq<Cell>>, available: seq<Ticker>)
    requires forall u :: u in available ==> u in table
    ensures |ReportRows(table, available)| <= |available|
    ensures forall k :: 0 <= k < |ReportRows(table, available)| ==>
      && ReportRows(table, available)[k].ticker in available
      && ReportRows(table, available)[k].dropSignals + Lookback <= |DropMissing(table[ReportRows(table, available)[k].ticker])|
  {
    if available != [] {
      var init := available[..|available| - 1];
      var last := available[|available| - 1];
      ReportRowsBounded(table, init);
      DropCountBound(DropMissing(table[last]));
      assert forall u :: u in init ==> u in available;
    }
  }
}
