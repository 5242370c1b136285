/**
 The stationarity stage: intersect the two top-N pair lists, build the spread
 and ratio of each common pair over its aligned dates, run the unit-root test
 on each (guarded by a minimum observation count), and pick the metric to
 trade.

 The augmented Dickey-Fuller test (statsmodels `adfuller`, lag order chosen by
 AIC) is an input: a function from a series to its (statistic, p-value).
 */
module Stationarity {
  import opened Basics
  import opened Order
  import opened Frame

  const DefaultMinObs: int := 100
  const Significance: real := 0.05

  /** (statistic, p-value, stationary) of `adf_test`; `None` where the test was not run. */
  datatype AdfResult = AdfResult(stat: Option<real>, pValue: Option<real>, stationary: bool)

  /** The `preferred_metric` column: "spread", "ratio" or "none". */
  datatype Metric = Spread | Ratio | NoMetric

  /** One row of the stationarity results. */
  datatype StationarityRow = StationarityRow(
    stock1: string, stock2: string, spread: AdfResult, ratio: AdfResult, preferred: Metric)

  /**
   `adf_test`: too few values present gives (None, None, False); otherwise the
   test runs on the values present and the series is stationary iff p < 0.05.
   */
  function AdfTest(series: seq<Option<real>>, adf: seq<real> -> (real, real), minObs: int): (r: AdfResult)
    ensures |Present(series)| < minObs ==> r == AdfResult(None, None, false)
    ensures r.pValue.Some? <==> |Present(series)| >= minObs
    ensures r.stat.Some? <==> r.pValue.Some?
    ensures r.pValue.Some? ==> (r.stat.value, r.pValue.value) == adf(Present(series))
    ensures r.stationary <==> r.pValue.Some? && r.pValue.value < Significance
  {
    var s := Present(series);
    if |s| < minObs then AdfResult(None, None, false)
    else
      var (stat, p) := adf(s);
      AdfResult(Some(stat), Some(p), p < Significance)
  }

  /**
   The metric-selection policy. Both stationary: spread unless its p-value is
   not known to be at most the ratio's (ties favour spread). One stationary:
   that one. Neither: none.
   */
  function Preferred(spStationary: bool, spP: Option<real>, rtStationary: bool, rtP: Option<real>): (m: Metric)
    ensures m == Spread ==> spStationary
    ensures m == Ratio ==> rtStationary
    ensures m == NoMetric <==> !spStationary && !rtStationary
    ensures spStationary && rtStationary ==>
      (m == Spread <==> spP.Some? && rtP.Some? && spP.value <= rtP.value)
  {
    if spStationary && rtStationary then
      if spP.Some? && rtP.Some? && spP.value <= rtP.value then Spread else Ratio
    else if spStationary then Spread
    else if rtStationary then Ratio
    else NoMetric
  }

  /**
   On results of `adf_test` the missing-p-value guard never fires: spread is
   chosen iff it is stationary and beats (or ties) a stationary ratio, ratio
   iff it is stationary and strictly beats a stationary spread.
   */
  lemma PreferredOnTestResults(series1: seq<Option<real>>, series2: seq<Option<real>>,
                               adf: seq<real> -> (real, real), minObs: int)
    ensures var sp := AdfTest(series1, adf, minObs);
      var rt := AdfTest(series2, adf, minObs);
      var m := Preferred(sp.stationary, sp.pValue, rt.stationary, rt.pValue);
      && (m == Spread <==> sp.stationary && (!rt.stationary || sp.pValue.value <= rt.pValue.value))
      && (m == Ratio <==> rt.stationary && (!sp.stationary || rt.pValue.value < sp.pValue.value))
      && (m == NoMetric <==> !sp.stationary && !rt.stationary)
  {
  }

  /** `sorted(corr_set & chi_set)` over oriented `(stock_1, stock_2)` tuples. */
  function CommonPairs(corrTop: seq<(string, string)>, chiTop: seq<(string, string)>): (common: seq<(string, string)>)
    ensures StrictlySorted(common, PairLess)
    ensures forall p :: p in common <==> p in corrTop && p in chiTop
  {
    PairLessIsStrictTotal();
    SortedUnique(FilterMap(corrTop, (p: (string, string)) => if p in chiTop then Some(p) else None), PairLess)
  }

  /** The common list is the unique sorted, duplicate-free listing of the intersection. */
  lemma CommonPairsIsCanonical(corrTop: seq<(string, string)>, chiTop: seq<(string, string)>, other: seq<(string, string)>)
    requires StrictlySorted(other, PairLess)
    requires forall p :: p in other <==> p in corrTop && p in chiTop
    ensures other == CommonPairs(corrTop, chiTop)
  {
    PairLessIsStrictTotal();
    SortedListingIsUnique(other, CommonPairs(corrTop, chiTop), PairLess);
  }

  /** Pairs are compared as oriented tuples: (a, b) does not meet (b, a). */
  lemma OrientationMatters()
    ensures CommonPairs([("AAA.AX", "BBB.AX")], [("BBB.AX", "AAA.AX")]) == []
  {
    var common := CommonPairs([("AAA.AX", "BBB.AX")], [("BBB.AX", "AAA.AX")]);
    if |common| > 0 {
      assert false;
    }
  }

  /** The spread p1 - p2, date by date; every entry is defined. */
  function SpreadSeries(p1: seq<real>, p2: seq<real>): (s: seq<Option<real>>)
    requires |p1| == |p2|
    ensures |s| == |p1|
    ensures forall i :: 0 <= i < |s| ==> s[i].Some? && s[i].value + p2[i] == p1[i]
  {
    seq(|p1|, i requires 0 <= i < |p1| => Some(p1[i] - p2[i]))
  }

  /**
   The ratio p1 / p2, date by date. A zero denominator, where pandas yields
   inf or NaN, is a missing value.
   */
  function RatioSeries(p1: seq<real>, p2: seq<real>): (s: seq<Option<real>>)
    requires |p1| == |p2|
    ensures |s| == |p1|
    ensures forall i :: 0 <= i < |s| ==> (s[i].Some? <==> p2[i] != 0.0)
    ensures forall i :: 0 <= i < |s| && s[i].Some? ==> s[i].value * p2[i] == p1[i]
  {
    seq(|p1|, i requires 0 <= i < |p1| => if p2[i] == 0.0 then None else Some(p1[i] / p2[i]))
  }

  /** One iteration of the loop over common pairs; `None` where the loop skips the pair. */
  function ClassifyPair(close: Table<real>, pair: (string, string), adf: seq<real> -> (real, real)): (r: Option<StationarityRow>)
    ensures r.Some? <==>
      pair.0 in close.cols && pair.1 in close.cols
      && |AlignedRows(close.cols[pair.0], close.cols[pair.1])| > 0
    ensures r.Some? ==> r.value.stock1 == pair.0 && r.value.stock2 == pair.1
    ensures r.Some? ==>
      var x, y := close.cols[pair.0], close.cols[pair.1];
      var rows := AlignedRows(x, y);
      && r.value.spread == AdfTest(SpreadSeries(Pick(x, rows), Pick(y, rows)), adf, DefaultMinObs)
      && r.value.ratio == AdfTest(RatioSeries(Pick(x, rows), Pick(y, rows)), adf, DefaultMinObs)
    ensures r.Some? ==> ConsistentChoice(r.value)
  {
    if pair.0 !in close.cols || pair.1 !in close.cols then None
    else
      var x, y := close.cols[pair.0], close.cols[pair.1];
      var rows := AlignedRows(x, y);
      if |rows| == 0 then None
      else
        var p1, p2 := Pick(x, rows), Pick(y, rows);
        var sp := AdfTest(SpreadSeries(p1, p2), adf, DefaultMinObs);
        var rt := AdfTest(RatioSeries(p1, p2), adf, DefaultMinObs);
        Some(StationarityRow(pair.0, pair.1, sp, rt, Preferred(sp.stationary, sp.pValue, rt.stationary, rt.pValue)))
  }

  /**
   What a reported row promises: a chosen metric tested stationary, "none"
   exactly when neither did, a stationary flag only with a p-value, and with
   both stationary, spread exactly when its p-value is at most the ratio's.
   */
  predicate ConsistentChoice(row: StationarityRow)
  {
    && (row.preferred == Spread ==> row.spread.stationary)
    && (row.preferred == Ratio ==> row.ratio.stationary)
    && (row.preferred == NoMetric <==> !row.spread.stationary && !row.ratio.stationary)
    && (row.spread.stationary ==> row.spread.pValue.Some? && row.spread.pValue.value < Significance)
    && (row.ratio.stationary ==> row.ratio.pValue.Some? && row.ratio.pValue.value < Significance)
    && (row.spread.stationary && row.ratio.stationary ==>
          (row.preferred == Spread <==> row.spread.pValue.value <= row.ratio.pValue.value))
  }

  /** The pair a row of the results is about. */
  function PairOf(row: StationarityRow): (string, string)
  {
    (row.stock1, row.stock2)
  }

  /** The loop body as a function of the pair. */
  function Classifier(close: Table<real>, adf: seq<real> -> (real, real)): (f: ((string, string)) -> Option<StationarityRow>)
    ensures forall p :: f(p) == ClassifyPair(close, p, adf)
  {
    (p: (string, string)) => ClassifyPair(close, p, adf)
  }

  /** The positions in `common` of the pairs the loop reports, in order. */
  function ReportedPositions(close: Table<real>, common: seq<(string, string)>, adf: seq<real> -> (real, real)): (ix: seq<nat>)
    ensures StrictlyIncreasing(ix)
    ensures forall k :: 0 <= k < |ix| ==> ix[k] < |common|
    ensures forall i: nat :: i in ix <==> i < |common| && ClassifyPair(close, common[i], adf).Some?
  {
    Kept(common, Classifier(close, adf))
  }

  /**
   The stationarity table: one row for each common pair whose tickers are both
   columns of the price table and share at least one dated row, in the order
   of `common`; with `common` sorted, the rows are sorted by pair.
   */
  function Classify(close: Table<real>, common: seq<(string, string)>, adf: seq<real> -> (real, real)): (rows: seq<StationarityRow>)
    ensures var ix := ReportedPositions(close, common, adf);
      && |rows| == |ix|
      && forall k :: 0 <= k < |rows| ==> ClassifyPair(close, common[ix[k]], adf) == Some(rows[k])
    ensures forall row :: row in rows ==> (row.stock1, row.stock2) in common && ConsistentChoice(row)
    ensures forall row :: row in rows <==> exists p :: p in common && ClassifyPair(close, p, adf) == Some(row)
    ensures StrictlySorted(common, PairLess) ==>
      forall k, l :: 0 <= k < l < |rows| ==> PairLess(PairOf(rows[k]), PairOf(rows[l]))
  {
    ClassifyRows(close, common, adf);
    ClassifyOrdered(close, common, adf);
    FilterMap(common, Classifier(close, adf))
  }

  lemma ClassifyRows(close: Table<real>, common: seq<(string, string)>, adf: seq<real> -> (real, real))
    ensures var rows := FilterMap(common, Classifier(close, adf));
      forall row :: row in rows ==> (row.stock1, row.stock2) in common && ConsistentChoice(row)
  {
    var f := Classifier(close, adf);
    forall row: StationarityRow | row in FilterMap(common, f)
      ensures (row.stock1, row.stock2) in common && ConsistentChoice(row)
    {
      var p :| p in common && f(p) == Some(row);
    }
  }

  lemma ClassifyOrdered(close: Table<real>, common: seq<(string, string)>, adf: seq<real> -> (real, real))
    ensures var rows := FilterMap(common, Classifier(close, adf));
      StrictlySorted(common, PairLess) ==>
      forall k, l :: 0 <= k < l < |rows| ==> PairLess(PairOf(rows[k]), PairOf(rows[l]))
  {
    FilterMapKeepsOrder(common, Classifier(close, adf), PairOf, PairLess);
  }
}
