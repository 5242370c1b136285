/**
 The correlation screen: the pairwise Pearson correlation of close prices
 over the dates both tickers trade (undefined below a minimum overlap), every
 pair with a defined value in column order, then the pairs ranked by the
 absolute correlation.

 The Pearson coefficient itself is an input: a function from two aligned
 series to the coefficient, `None` where pandas yields NaN (a constant series).
 */
module Correlation {
  import opened Basics
  import opened Frame
  import opened Ranking

  function Abs(v: real): (a: real)
    ensures a >= 0.0 && (a == v || a == -v)
  {
    if v < 0.0 then -v else v
  }

  /**
   `close.corr(min_periods=m).at[a, b]`: the coefficient over the dates on
   which both columns hold a price, or None when there are fewer than `m`.
   */
  function CorrAt(x: seq<Option<real>>, y: seq<Option<real>>,
                  pearson: (seq<real>, seq<real>) -> Option<real>, minPeriods: int): (r: Option<real>)
    ensures var rows := AlignedRows(x, y);
      && (|rows| < minPeriods ==> r.None?)
      && (|rows| >= minPeriods ==> r == pearson(Pick(x, rows), Pick(y, rows)))
  {
    var rows := AlignedRows(x, y);
    if |rows| < minPeriods then None
    else pearson(Pick(x, rows), Pick(y, rows))
  }

  /** The correlation matrix is symmetric whenever the coefficient is. */
  lemma CorrAtSymmetric(x: seq<Option<real>>, y: seq<Option<real>>,
                        pearson: (seq<real>, seq<real>) -> Option<real>, minPeriods: int)
    requires forall a, b :: pearson(a, b) == pearson(b, a)
    ensures CorrAt(x, y, pearson, minPeriods) == CorrAt(y, x, pearson, minPeriods)
  {
    AlignedRowsSymmetric(x, y);
  }

  /** A row of the correlation pairs. */
  datatype CorrRow = CorrRow(stock1: string, stock2: string, correlation: real, absCorrelation: real)

  function AbsOf(r: CorrRow): real
  {
    r.absCorrelation
  }

  /** Row `r` is what the matrix holds for columns `i` and `j`. */
  predicate Reports(close: Table<real>, pearson: (seq<real>, seq<real>) -> Option<real>, minPeriods: int,
                    r: CorrRow, i: nat, j: nat)
    requires WellFormed(close) && i < |close.names| && j < |close.names|
  {
    && r.stock1 == close.names[i] && r.stock2 == close.names[j]
    && CorrAt(close.cols[close.names[i]], close.cols[close.names[j]], pearson, minPeriods) == Some(r.correlation)
    && r.absCorrelation == Abs(r.correlation)
  }

  /** One iteration of the loop over column pairs; `None` where the value is NaN. */
  function PairRow(close: Table<real>, pearson: (seq<real>, seq<real>) -> Option<real>, minPeriods: int,
                   p: (nat, nat)): (r: Option<CorrRow>)
    requires WellFormed(close)
    ensures forall row :: r == Some(row) <==>
      p.0 < |close.names| && p.1 < |close.names| && Reports(close, pearson, minPeriods, row, p.0, p.1)
  {
    if p.0 < |close.names| && p.1 < |close.names| then
      var a, b := close.names[p.0], close.names[p.1];
      match CorrAt(close.cols[a], close.cols[b], pearson, minPeriods)
      case None => None
      case Some(v) => Some(CorrRow(a, b, v, Abs(v)))
    else None
  }

  /** The loop over `combinations(corr.columns, 2)`. */
  function ScanPairs(close: Table<real>, pearson: (seq<real>, seq<real>) -> Option<real>, minPeriods: int): seq<CorrRow>
    requires WellFormed(close)
  {
    FilterMap(Combinations(|close.names|), (p: (nat, nat)) => PairRow(close, pearson, minPeriods, p))
  }

  lemma ScanPairsSound(close: Table<real>, pearson: (seq<real>, seq<real>) -> Option<real>, minPeriods: int)
    requires WellFormed(close)
    ensures forall r :: r in ScanPairs(close, pearson, minPeriods) ==>
      exists i, j :: 0 <= i < j < |close.names| && Reports(close, pearson, minPeriods, r, i, j)
  {
    var ps := Combinations(|close.names|);
    CombinationsMembership(|close.names|);
    var f := (p: (nat, nat)) => PairRow(close, pearson, minPeriods, p);
    assert ScanPairs(close, pearson, minPeriods) == FilterMap(ps, f);
    forall r | r in FilterMap(ps, f)
      ensures exists i, j :: 0 <= i < j < |close.names| && Reports(close, pearson, minPeriods, r, i, j)
    {
      var p :| p in ps && f(p) == Some(r);
      assert PairRow(close, pearson, minPeriods, p) == Some(r);
      var i, j := p.0, p.1;
      assert 0 <= i < j < |close.names| && Reports(close, pearson, minPeriods, r, i, j);
    }
  }

  lemma ScanPairsComplete(close: Table<real>, pearson: (seq<real>, seq<real>) -> Option<real>, minPeriods: int)
    requires WellFormed(close)
    ensures forall r: CorrRow, i: nat, j: nat ::
      0 <= i < j < |close.names| && Reports(close, pearson, minPeriods, r, i, j) ==> r in ScanPairs(close, pearson, minPeriods)
  {
    var n := |close.names|;
    var f := (p: (nat, nat)) => PairRow(close, pearson, minPeriods, p);
    assert ScanPairs(close, pearson, minPeriods) == FilterMap(Combinations(n), f);
    PairScanMembership(n, f);
    forall r: CorrRow, i: nat, j: nat | 0 <= i < j < n && Reports(close, pearson, minPeriods, r, i, j)
      ensures r in FilterMap(Combinations(n), f)
    {
      assert f((i, j)) == Some(r);
    }
  }

  /** Each row names its two columns, and the columns have distinct names, so no row is listed twice. */
  lemma ScanPairsDistinct(close: Table<real>, pearson: (seq<real>, seq<real>) -> Option<real>, minPeriods: int)
    requires WellFormed(close)
    ensures var rows := ScanPairs(close, pearson, minPeriods);
      forall k, l :: 0 <= k < l < |rows| ==> rows[k] != rows[l]
  {
    var n := |close.names|;
    var f := (p: (nat, nat)) => PairRow(close, pearson, minPeriods, p);
    assert ScanPairs(close, pearson, minPeriods) == FilterMap(Combinations(n), f);
    forall p: (nat, nat), q: (nat, nat) | p.0 < p.1 < n && q.0 < q.1 < n && f(p).Some? && f(p) == f(q)
      ensures p == q
    {
      var row := f(p).value;
      assert PairRow(close, pearson, minPeriods, p) == Some(row) == PairRow(close, pearson, minPeriods, q);
      NamesAreUnique(close, p.0, q.0);
      NamesAreUnique(close, p.1, q.1);
    }
    PairScanDistinct(n, f);
  }

  /**
   Every pair of columns, `stock_1` before `stock_2` in column order, with a
   defined coefficient, listed once; no other rows.
   */
  function AllPairs(close: Table<real>, pearson: (seq<real>, seq<real>) -> Option<real>, minPeriods: int): (rows: seq<CorrRow>)
    requires WellFormed(close)
    ensures forall r :: r in rows <==>
      exists i, j :: 0 <= i < j < |close.names| && Reports(close, pearson, minPeriods, r, i, j)
    ensures forall k, l :: 0 <= k < l < |rows| ==> rows[k] != rows[l]
  {
    ScanPairsSound(close, pearson, minPeriods);
    ScanPairsComplete(close, pearson, minPeriods);
    ScanPairsDistinct(close, pearson, minPeriods);
    ScanPairs(close, pearson, minPeriods)
  }

  /**
   The pair of columns `i < j` appears in the list only if the two tickers
   share at least `minPeriods` dates.
   */
  lemma ShortOverlapIsDropped(close: Table<real>, pearson: (seq<real>, seq<real>) -> Option<real>, minPeriods: int,
                              i: nat, j: nat)
    requires WellFormed(close) && i < j < |close.names|
    requires |AlignedRows(close.cols[close.names[i]], close.cols[close.names[j]])| < minPeriods
    ensures forall r :: r in AllPairs(close, pearson, minPeriods) ==>
      !(r.stock1 == close.names[i] && r.stock2 == close.names[j])
  {
    forall r | r in AllPairs(close, pearson, minPeriods)
      ensures !(r.stock1 == close.names[i] && r.stock2 == close.names[j])
    {
      var a, b :| 0 <= a < b < |close.names| && Reports(close, pearson, minPeriods, r, a, b);
      if r.stock1 == close.names[i] && r.stock2 == close.names[j] {
        assert false;
      }
    }
  }

  /**
   The top-N screen: the `topN` rows with the largest absolute correlation, in
   descending order, drawn from the full list.
   */
  function Screen(close: Table<real>, pearson: (seq<real>, seq<real>) -> Option<real>, minPeriods: int, topN: int): (top: seq<CorrRow>)
    requires WellFormed(close)
    ensures SortedDesc(top, AbsOf)
    ensures topN >= 0 ==> |top| == Min(topN, |AllPairs(close, pearson, minPeriods)|)
    ensures multiset(top) <= multiset(AllPairs(close, pearson, minPeriods))
    ensures forall r, s :: r in top && s in AllPairs(close, pearson, minPeriods) && s !in top ==>
      s.absCorrelation <= r.absCorrelation
  {
    var all := AllPairs(close, pearson, minPeriods);
    var top := TopN(all, AbsOf, topN);
    forall r, s | r in top && s in all && s !in top
      ensures s.absCorrelation <= r.absCorrelation
    {
      assert multiset(top)[s] == 0 < multiset(all)[s];
    }
    top
  }
}
