/**
 The independence screen: for every pair of tickers, the 2x2 contingency
 table of their up/down flags on the dates both have one, skipped unless it
 really is 2x2, then the pairs ranked by the chi-square statistic.

 The chi-square test itself (scipy `chi2_contingency`, with Yates' correction
 on 2x2 tables) is an input: a function from a table to (statistic, p-value).
 */
module ChiSquare {
  import opened Basics
  import opened Frame
  import opened Ranking
  import Ingest

  /** A cell of the up/down table. */
  type Flag = Ingest.Flag

  /** `pd.crosstab(x, y)` for 0/1 data: cell (i, j) counts the days with x = i and y = j. */
  datatype Contingency = Contingency(c00: nat, c01: nat, c10: nat, c11: nat)

  function Cell(t: Contingency, i: Flag, j: Flag): nat
  {
    if i == 0 then (if j == 0 then t.c00 else t.c01)
    else (if j == 0 then t.c10 else t.c11)
  }

  /** Counts one more observation into its cell. */
  function Tally(t: Contingency, o: (Flag, Flag)): (u: Contingency)
    ensures forall i: Flag, j: Flag :: Cell(u, i, j) == Cell(t, i, j) + (if o == (i, j) then 1 else 0)
  {
    if o.0 == 0 then
      if o.1 == 0 then t.(c00 := t.c00 + 1) else t.(c01 := t.c01 + 1)
    else
      if o.1 == 0 then t.(c10 := t.c10 + 1) else t.(c11 := t.c11 + 1)
  }

  /** Counts the observations into the four cells. */
  function Tabulate(obs: seq<(Flag, Flag)>): (t: Contingency)
    ensures t.c00 + t.c01 + t.c10 + t.c11 == |obs|
    ensures forall i: Flag, j: Flag :: Cell(t, i, j) == multiset(obs)[(i, j)]
    decreases |obs|
  {
    if |obs| == 0 then Contingency(0, 0, 0, 0)
    else
      var init, last := obs[..|obs| - 1], obs[|obs| - 1];
      assert obs == init + [last];
      assert multiset(obs) == multiset(init) + multiset{last};
      Tally(Tabulate(init), last)
  }

  /** `table.shape == (2, 2)`: both the rows and the columns of the crosstab are non-empty. */
  predicate IsTwoByTwo(t: Contingency)
  {
    t.c00 + t.c01 > 0 && t.c10 + t.c11 > 0 && t.c00 + t.c10 > 0 && t.c01 + t.c11 > 0
  }

  predicate TakesBothValues(s: seq<Flag>)
  {
    0 in s && 1 in s
  }

  /** The (x, y) observations on the given rows. */
  function Observations(xs: seq<Flag>, ys: seq<Flag>): (obs: seq<(Flag, Flag)>)
    requires |xs| == |ys|
    ensures |obs| == |xs|
    ensures forall k :: 0 <= k < |obs| ==> obs[k] == (xs[k], ys[k])
  {
    seq(|xs|, k requires 0 <= k < |xs| => (xs[k], ys[k]))
  }

  /** Row `v` of the crosstab is non-empty exactly when x takes the value `v`. */
  lemma RowMargin(xs: seq<Flag>, ys: seq<Flag>, v: Flag)
    requires |xs| == |ys|
    ensures var t := Tabulate(Observations(xs, ys));
      Cell(t, v, 0) + Cell(t, v, 1) > 0 <==> v in xs
  {
    var obs := Observations(xs, ys);
    var t := Tabulate(obs);
    if v in xs {
      var k :| 0 <= k < |xs| && xs[k] == v;
      assert obs[k] in multiset(obs);
    }
    if Cell(t, v, 0) + Cell(t, v, 1) > 0 {
      var w: Flag :| Cell(t, v, w) > 0;
      assert (v, w) in multiset(obs);
      var k :| 0 <= k < |obs| && obs[k] == (v, w);
      assert xs[k] == v;
    }
  }

  /** Column `v` of the crosstab is non-empty exactly when y takes the value `v`. */
  lemma ColumnMargin(xs: seq<Flag>, ys: seq<Flag>, v: Flag)
    requires |xs| == |ys|
    ensures var t := Tabulate(Observations(xs, ys));
      Cell(t, 0, v) + Cell(t, 1, v) > 0 <==> v in ys
  {
    var obs := Observations(xs, ys);
    var t := Tabulate(obs);
    if v in ys {
      var k :| 0 <= k < |ys| && ys[k] == v;
      assert obs[k] in multiset(obs);
    }
    if Cell(t, 0, v) + Cell(t, 1, v) > 0 {
      var w: Flag :| Cell(t, w, v) > 0;
      assert (w, v) in multiset(obs);
      var k :| 0 <= k < |obs| && obs[k] == (w, v);
      assert ys[k] == v;
    }
  }

  /** The crosstab is 2x2 exactly when each series takes both values. */
  lemma TwoByTwoIffBothVary(xs: seq<Flag>, ys: seq<Flag>)
    requires |xs| == |ys|
    ensures IsTwoByTwo(Tabulate(Observations(xs, ys))) <==> TakesBothValues(xs) && TakesBothValues(ys)
  {
    RowMargin(xs, ys, 0);
    RowMargin(xs, ys, 1);
    ColumnMargin(xs, ys, 0);
    ColumnMargin(xs, ys, 1);
  }

  /**
   `pair_chi_square`: drop the dates where either flag is missing; no dates or
   a crosstab that is not 2x2 gives None; otherwise the test on the table.
   */
  function PairChiSquare(x: seq<Option<Flag>>, y: seq<Option<Flag>>,
                         test: Contingency -> (real, real)): Option<(real, real)>
  {
    var rows := AlignedRows(x, y);
    if |rows| == 0 then None
    else
      var table := Tabulate(Observations(Pick(x, rows), Pick(y, rows)));
      if !IsTwoByTwo(table) then None
      else Some(test(table))
  }

  /**
   A pair has a result exactly when both series take both values on the dates
   they share (so never when they share none), and the result is the test on
   the crosstab of those dates.
   */
  lemma PairChiSquareMeaning(x: seq<Option<Flag>>, y: seq<Option<Flag>>, test: Contingency -> (real, real))
    ensures var rows := AlignedRows(x, y);
      var r := PairChiSquare(x, y, test);
      && (r.Some? <==> TakesBothValues(Pick(x, rows)) && TakesBothValues(Pick(y, rows)))
      && (r.Some? ==> r.value == test(Tabulate(Observations(Pick(x, rows), Pick(y, rows)))))
  {
    var rows := AlignedRows(x, y);
    TwoByTwoIffBothVary(Pick(x, rows), Pick(y, rows));
  }

  /** No picked value equals one the column never holds. */
  lemma AbsentValueNotPicked<T>(col: seq<Option<T>>, rows: seq<nat>, v: T)
    requires forall k :: 0 <= k < |rows| ==> rows[k] < |col| && col[rows[k]].Some?
    requires forall i :: 0 <= i < |col| ==> col[i] != Some(v)
    ensures v !in Pick(col, rows)
  {
  }

  /** A first series that never takes the value `v` gives no result. */
  lemma ConstantFirstIsSkipped(x: seq<Option<Flag>>, y: seq<Option<Flag>>,
                               test: Contingency -> (real, real), v: Flag)
    requires forall i :: 0 <= i < |x| ==> x[i] != Some(v)
    ensures PairChiSquare(x, y, test) == None
  {
    var rows := AlignedRows(x, y);
    AbsentValueNotPicked(x, rows, v);
    assert !TakesBothValues(Pick(x, rows));
    PairChiSquareMeaning(x, y, test);
  }

  /** A second series that never takes the value `v` gives no result. */
  lemma ConstantSecondIsSkipped(x: seq<Option<Flag>>, y: seq<Option<Flag>>,
                                test: Contingency -> (real, real), v: Flag)
    requires forall i :: 0 <= i < |y| ==> y[i] != Some(v)
    ensures PairChiSquare(x, y, test) == None
  {
    var rows := AlignedRows(x, y);
    AbsentValueNotPicked(y, rows, v);
    assert !TakesBothValues(Pick(y, rows));
    PairChiSquareMeaning(x, y, test);
  }

  /** A series that never moves one way (a constant series) pairs with nothing. */
  lemma ConstantSeriesIsSkipped(x: seq<Option<Flag>>, y: seq<Option<Flag>>,
                                test: Contingency -> (real, real), v: Flag)
    requires forall i :: 0 <= i < |x| ==> x[i] != Some(v)
    ensures PairChiSquare(x, y, test) == None
    ensures PairChiSquare(y, x, test) == None
  {
    ConstantFirstIsSkipped(x, y, test, v);
    ConstantSecondIsSkipped(y, x, test, v);
  }

  /** A row of the chi-square results. */
  datatype ChiRow = ChiRow(stock1: string, stock2: string, chi2: real, pValue: real)

  function ChiOf(r: ChiRow): real
  {
    r.chi2
  }

  /** Row `r` is what the test reports for columns `i` and `j`. */
  predicate Reports(up: Table<Flag>, test: Contingency -> (real, real), r: ChiRow, i: nat, j: nat)
    requires WellFormed(up) && i < |up.names| && j < |up.names|
  {
    && r.stock1 == up.names[i] && r.stock2 == up.names[j]
    && PairChiSquare(up.cols[up.names[i]], up.cols[up.names[j]], test) == Some((r.chi2, r.pValue))
  }

  /** One iteration of the loop over column pairs `(i, j)`; `None` where it continues. */
  function PairRow(up: Table<Flag>, p: (nat, nat), test: Contingency -> (real, real)): (r: Option<ChiRow>)
    requires WellFormed(up)
    ensures forall row :: r == Some(row) <==> p.0 < |up.names| && p.1 < |up.names| && Reports(up, test, row, p.0, p.1)
  {
    if p.0 < |up.names| && p.1 < |up.names| then
      var a, b := up.names[p.0], up.names[p.1];
      match PairChiSquare(up.cols[a], up.cols[b], test)
      case None => None
      case Some((chi2, pval)) => Some(ChiRow(a, b, chi2, pval))
    else None
  }

  /** The loop over `itertools.combinations(range(len(tickers)), 2)`. */
  function ScanPairs(up: Table<Flag>, test: Contingency -> (real, real)): seq<ChiRow>
    requires WellFormed(up)
  {
    FilterMap(Combinations(|up.names|), (p: (nat, nat)) => PairRow(up, p, test))
  }

  lemma ScanPairsSound(up: Table<Flag>, test: Contingency -> (real, real))
    requires WellFormed(up)
    ensures forall r :: r in ScanPairs(up, test) ==> exists i, j :: 0 <= i < j < |up.names| && Reports(up, test, r, i, j)
  {
    var ps := Combinations(|up.names|);
    CombinationsMembership(|up.names|);
    var f := (p: (nat, nat)) => PairRow(up, p, test);
    assert ScanPairs(up, test) == FilterMap(ps, f);
    forall r | r in FilterMap(ps, f)
      ensures exists i, j :: 0 <= i < j < |up.names| && Reports(up, test, r, i, j)
    {
      var p :| p in ps && f(p) == Some(r);
      assert PairRow(up, p, test) == Some(r);
      var i, j := p.0, p.1;
      assert 0 <= i < j < |up.names| && Reports(up, test, r, i, j);
    }
  }

  lemma ScanPairsComplete(up: Table<Flag>, test: Contingency -> (real, real))
    requires WellFormed(up)
    ensures forall r: ChiRow, i: nat, j: nat :: 0 <= i < j < |up.names| && Reports(up, test, r, i, j) ==> r in ScanPairs(up, test)
  {
    var ps := Combinations(|up.names|);
    CombinationsMembership(|up.names|);
    var f := (p: (nat, nat)) => PairRow(up, p, test);
    assert ScanPairs(up, test) == FilterMap(ps, f);
    forall r: ChiRow, i: nat, j: nat | 0 <= i < j < |up.names| && Reports(up, test, r, i, j)
      ensures r in FilterMap(ps, f)
    {
      assert (i, j) in ps;
      assert f((i, j)) == Some(r);
    }
  }

  /** Each row names its two columns, and the columns have distinct names, so no row is listed twice. */
  lemma ScanPairsDistinct(up: Table<Flag>, test: Contingency -> (real, real))
    requires WellFormed(up)
    ensures var rows := ScanPairs(up, test);
      forall k, l :: 0 <= k < l < |rows| ==> rows[k] != rows[l]
  {
    var n := |up.names|;
    var f := (p: (nat, nat)) => PairRow(up, p, test);
    assert ScanPairs(up, test) == FilterMap(Combinations(n), f);
    forall p: (nat, nat), q: (nat, nat) | p.0 < p.1 < n && q.0 < q.1 < n && f(p).Some? && f(p) == f(q)
      ensures p == q
    {
      var row := f(p).value;
      assert PairRow(up, p, test) == Some(row) == PairRow(up, q, test);
      NamesAreUnique(up, p.0, q.0);
      NamesAreUnique(up, p.1, q.1);
    }
    PairScanDistinct(n, f);
  }

  /**
   Every pair of columns, `stock_1` before `stock_2` in column order, with a
   defined result, listed once; no other rows.
   */
  function AllPairs(up: Table<Flag>, test: Contingency -> (real, real)): (rows: seq<ChiRow>)
    requires WellFormed(up)
    ensures forall r :: r in rows <==> exists i, j :: 0 <= i < j < |up.names| && Reports(up, test, r, i, j)
    ensures forall k, l :: 0 <= k < l < |rows| ==> rows[k] != rows[l]
  {
    ScanPairsSound(up, test);
    ScanPairsComplete(up, test);
    ScanPairsDistinct(up, test);
    ScanPairs(up, test)
  }

  /**
   The top-N screen: the `topN` rows with the largest statistic, in
   descending order, drawn from the full list.
   */
  function Screen(up: Table<Flag>, test: Contingency -> (real, real), topN: int): (top: seq<ChiRow>)
    requires WellFormed(up)
    ensures SortedDesc(top, ChiOf)
    ensures topN >= 0 ==> |top| == Min(topN, |AllPairs(up, test)|)
    ensures multiset(top) <= multiset(AllPairs(up, test))
    ensures forall r, s :: r in top && s in AllPairs(up, test) && s !in top ==> s.chi2 <= r.chi2
  {
    var all := AllPairs(up, test);
    var top := TopN(all, ChiOf, topN);
    forall r, s | r in top && s in all && s !in top
      ensures s.chi2 <= r.chi2
    {
      assert multiset(top)[s] == 0 < multiset(all)[s];
    }
    top
  }
}
