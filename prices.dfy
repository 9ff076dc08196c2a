/** A ticker's column of the merged close-price table, and `dropna()`. */
module Prices {
  import opened Common

  /** One row of a ticker's column: the row's day number and the close,
      absent where the ticker has no price on that day (outer-join gap). */
  datatype Cell = Cell(day: int, close: Option<real>)

  /** One observation left after the absent cells are dropped. */
  datatype Obs = Obs(day: int, close: real)

  /** The table is sorted by date and has no duplicate dates. */
  predicate CellsChronological(col: seq<Cell>) {
    forall a, b :: 0 <= a < b < |col| ==> col[a].day < col[b].day
  }

  predicate Chronological(s: seq<Obs>) {
    forall a, b :: 0 <= a < b < |s| ==> s[a].day < s[b].day
  }

  /** `closes.dropna()`: the present closes, in table order. */
  function DropMissing(col: seq<Cell>): (s: seq<Obs>)
    ensures |s| <= |col|
  {
    if col == [] then []
    else
      var head := if col[0].close.Some? then [Obs(col[0].day, col[0].close.value)] else [];
      head + DropMissing(col[1..])
  }

  /** `dropna()` keeps exactly the present closes: an observation is in the
      series exactly when its day carries that close in the column. */
  lemma {:induction false} DropMissingKeepsPresentCloses(col: seq<Cell>)
    ensures forall o :: o in DropMissing(col) <==> Cell(o.day, Some(o.close)) in col
  {
    if col != [] {
      DropMissingKeepsPresentCloses(col[1..]);
      assert forall c :: c in col <==> c == col[0] || c in col[1..];
    }
  }

  /** Dropping gaps keeps the series sorted by date. */
  lemma {:induction false} DropMissingIsChronological(col: seq<Cell>)
    requires CellsChronological(col)
    ensures Chronological(DropMissing(col))
  {
    if col != [] {
      var rest := DropMissing(col[1..]);
      DropMissingIsChronological(col[1..]);
      DaysStayAbove(col[1..], col[0].day);
      var s := DropMissing(col);
      if col[0].close.Some? {
        assert s == [Obs(col[0].day, col[0].close.value)] + rest;
        forall a, b | 0 <= a < b < |s| ensures s[a].day < s[b].day {
          assert s[b] == rest[b - 1];
          if a > 0 {
            assert s[a] == rest[a - 1];
          }
        }
      } else {
        assert s == rest;
      }
    }
  }

  /** Every observation kept from a column lies after a day that precedes the
      whole column. */
  lemma {:induction false} DaysStayAbove(col: seq<Cell>, d: int)
    requires forall k :: 0 <= k < |col| ==> d < col[k].day
    ensures forall k :: 0 <= k < |DropMissing(col)| ==> d < DropMissing(col)[k].day
  {
    if col != [] {
      DaysStayAbove(col[1..], d);
      var rest := DropMissing(col[1..]);
      if col[0].close.Some? {
        assert DropMissing(col) == [Obs(col[0].day, col[0].close.value)] + rest;
      } else {
        assert DropMissing(col) == rest;
      }
    }
  }
}
