/**
 The backtest: lagged one-unit P&L of each traded pair, its summary (total
 P&L, final equity, number of position changes), and the portfolio obtained by
 adding every pair's P&L on the full date index, zero where a pair has no row.

 Prices and P&L are exact reals; dates are the rows of the price table.
 */
module Backtest {
  import opened Basics
  import opened Frame
  import opened Ranking
  import opened Signals
  import opened Stationarity

  /** Pairs with fewer aligned rows are not traded. */
  const MinRows: nat := 30

  /** `price.diff().fillna(0.0)`: the change since the previous row, 0 on the first. */
  function Diff(p: seq<real>): (d: seq<real>)
    ensures |d| == |p|
    ensures |p| > 0 ==> d[0] == 0.0
    ensures forall t {:trigger d[t]} :: 1 <= t < |p| ==> d[t] == p[t] - p[t - 1]
  {
    seq(|p|, t requires 0 <= t < |p| => if t == 0 then 0.0 else p[t] - p[t - 1])
  }

  /** The daily changes of a price add up to its overall change. */
  lemma {:induction false} DiffTelescopes(p: seq<real>)
    requires |p| > 0
    ensures Sum(Diff(p)) == p[|p| - 1] - p[0]
    decreases |p|
  {
    if |p| > 1 {
      var init := p[..|p| - 1];
      DiffTelescopes(init);
      assert Diff(p) == Diff(init) + [p[|p| - 1] - p[|p| - 2]];
      SumAppend(Diff(init), [p[|p| - 1] - p[|p| - 2]]);
    }
  }

  /** `position.shift(1).fillna(0)`: the position held during each row, decided the row before. */
  function Held(pos: seq<int>): (h: seq<int>)
    ensures |h| == |pos|
  {
    seq(|pos|, t requires 0 <= t < |pos| => if t == 0 then 0 else pos[t - 1])
  }

  /**
   `backtest_pair`: the P&L of holding yesterday's position, long leg 1 and
   short leg 2 when it is +1 and the reverse when it is -1.
   */
  function PairPnL(p1: seq<real>, p2: seq<real>, pos: seq<int>): (pnl: seq<real>)
    requires |p1| == |p2| == |pos|
    ensures |pnl| == |pos|
    ensures |pos| > 0 ==> pnl[0] == 0.0
    ensures forall t {:trigger pnl[t]} :: 1 <= t < |pos| ==>
      pnl[t] == (pos[t - 1] as real) * ((p1[t] - p1[t - 1]) - (p2[t] - p2[t - 1]))
    ensures forall t {:trigger pnl[t]} :: 1 <= t < |pos| && pos[t - 1] == 0 ==> pnl[t] == 0.0
  {
    var d1, d2, held := Diff(p1), Diff(p2), Held(pos);
    seq(|pos|, t requires 0 <= t < |pos| => (held[t] as real) * (d1[t] - d2[t]))
  }

  /** The change in the spread between the legs, row by row. */
  function SpreadDiff(p1: seq<real>, p2: seq<real>): (d: seq<real>)
    requires |p1| == |p2|
    ensures |d| == |p1|
  {
    var d1, d2 := Diff(p1), Diff(p2);
    seq(|p1|, t requires 0 <= t < |p1| => d1[t] - d2[t])
  }

  lemma HeldPositionPnLAt(p1: seq<real>, p2: seq<real>, pos: seq<int>, c: int, t: nat)
    requires |p1| == |p2| == |pos| && t < |pos|
    requires t > 0 ==> pos[t - 1] == c
    ensures PairPnL(p1, p2, pos)[t] == (c as real) * SpreadDiff(p1, p2)[t]
  {
    var pnl, d := PairPnL(p1, p2, pos), SpreadDiff(p1, p2);
    if t > 0 {
      var x := (p1[t] - p1[t - 1]) - (p2[t] - p2[t - 1]);
      assert pnl[t] == (pos[t - 1] as real) * x;
      assert d[t] == x;
    } else {
      assert pnl[t] == 0.0 && d[t] == 0.0;
    }
  }

  /**
   Holding one position `c` through a whole series earns `c` times the change
   in the spread between the legs over that series.
   */
  lemma HeldPositionEarnsSpreadChange(p1: seq<real>, p2: seq<real>, pos: seq<int>, c: int)
    requires |p1| == |p2| == |pos| > 0
    requires forall t :: 0 <= t < |pos| - 1 ==> pos[t] == c
    ensures Sum(PairPnL(p1, p2, pos)) == (c as real) * ((p1[|p1| - 1] - p1[0]) - (p2[|p2| - 1] - p2[0]))
  {
    var pnl, d := PairPnL(p1, p2, pos), SpreadDiff(p1, p2);
    forall t | 0 <= t < |pos|
      ensures pnl[t] == (c as real) * d[t]
    {
      HeldPositionPnLAt(p1, p2, pos, c, t);
    }
    SumScaled(c as real, d, pnl);
    var d1, d2 := Diff(p1), Diff(p2);
    assert forall t :: 0 <= t < |d| ==> d[t] == d1[t] - d2[t];
    SumDifference(d1, d2, d);
    DiffTelescopes(p1);
    DiffTelescopes(p2);
    assert Sum(d) == (p1[|p1| - 1] - p1[0]) - (p2[|p2| - 1] - p2[0]);
  }

  /** The worked example: prices [100, 101, 99] and [50, 50, 50], long from the first day. */
  lemma WorkedExamplePnL()
    ensures PairPnL([100.0, 101.0, 99.0], [50.0, 50.0, 50.0], [1, 1, 0]) == [0.0, 1.0, -2.0]
  {
    var pnl := PairPnL([100.0, 101.0, 99.0], [50.0, 50.0, 50.0], [1, 1, 0]);
    assert pnl[1] == 1.0 && pnl[2] == -2.0;
  }

  /** `(position.diff().abs() > 0).sum()`: the rows whose position differs from the row before. */
  function TradeSwitches(pos: seq<int>): (n: nat)
    ensures n <= if |pos| == 0 then 0 else |pos| - 1
    ensures n == 0 <==> forall t :: 1 <= t < |pos| ==> pos[t] == pos[t - 1]
  {
    if |pos| <= 1 then 0
    else
      var init := pos[..|pos| - 1];
      assert forall t | 0 <= t < |init| :: init[t] == pos[t];
      TradeSwitches(init) + (if pos[|pos| - 1] != pos[|pos| - 2] then 1 else 0)
  }

  /** The position at row `t` differs from the one at row `t - 1`. */
  predicate ChangesAt(pos: seq<int>, t: nat)
  {
    1 <= t < |pos| && pos[t] != pos[t - 1]
  }

  /** The rows at which the position changes. */
  function ChangeRows(pos: seq<int>): set<nat>
  {
    set t: nat | t < |pos| && ChangesAt(pos, t)
  }

  /** The switch count is the number of rows at which the position changes. */
  lemma {:induction false} TradeSwitchesCountsChanges(pos: seq<int>)
    ensures TradeSwitches(pos) == |ChangeRows(pos)|
    decreases |pos|
  {
    if |pos| <= 1 {
      assert ChangeRows(pos) == {};
    } else {
      var n := |pos| - 1;
      var init := pos[..n];
      TradeSwitchesCountsChanges(init);
      if pos[n] != pos[n - 1] {
        assert ChangeRows(pos) == ChangeRows(init) + {n};
      } else {
        assert ChangeRows(pos) == ChangeRows(init);
      }
    }
  }

  /** A row of `pair_backtest_summary.csv`. */
  datatype PairSummary = PairSummary(
    stock1: string, stock2: string, metricUsed: Metric,
    totalPnl: real, finalEquity: real, tradeSwitches: nat)

  /** A row of the stationarity results as the backtest reads it. */
  datatype Candidate = Candidate(stock1: string, stock2: string, preferred: Metric)

  /** A traded pair: its summary, the table rows it has prices on, and its P&L on those rows. */
  datatype PairRun = PairRun(summary: PairSummary, rows: seq<nat>, pnl: seq<real>)

  /** The facts about a traded pair that the portfolio relies on. */
  predicate ValidRun(run: PairRun, height: nat)
  {
    && |run.rows| == |run.pnl| > 0
    && StrictlyIncreasing(run.rows)
    && (forall k :: 0 <= k < |run.rows| ==> run.rows[k] < height)
    && run.summary.totalPnl == Sum(run.pnl)
  }

  /**
   The z-score series of a metric series. The z-score at a date is computed
   from trailing windows, so it is a function `zAt` of the metric up to and
   including that date.
   */
  function ZScores(metric: seq<Option<real>>, zAt: seq<Option<real>> -> Option<real>): (z: seq<Option<real>>)
    ensures |z| == |metric|
  {
    seq(|metric|, i requires 0 <= i < |metric| => zAt(metric[..i + 1]))
  }

  /** One iteration of the loop over selected pairs; `None` where the loop skips the pair. */
  function RunPair(close: Table<real>, c: Candidate, capital: real,
                   zAt: seq<Option<real>> -> Option<real>): (r: Option<PairRun>)
    ensures r.Some? <==>
      && c.preferred != NoMetric
      && c.stock1 in close.cols && c.stock2 in close.cols
      && |AlignedRows(close.cols[c.stock1], close.cols[c.stock2])| >= MinRows
    ensures r.Some? ==>
      && r.value.summary.stock1 == c.stock1 && r.value.summary.stock2 == c.stock2
      && r.value.summary.metricUsed == c.preferred
      && r.value.rows == AlignedRows(close.cols[c.stock1], close.cols[c.stock2])
      && ValidRun(r.value, |close.cols[c.stock1]|)
      && r.value.pnl[0] == 0.0
      && r.value.summary.totalPnl == r.value.summary.finalEquity - capital
      && r.value.summary.tradeSwitches < |r.value.rows|
    ensures r.Some? ==>
      var x, y := close.cols[c.stock1], close.cols[c.stock2];
      var rows := AlignedRows(x, y);
      var p1, p2 := Pick(x, rows), Pick(y, rows);
      var metric := if c.preferred == Spread then SpreadSeries(p1, p2) else RatioSeries(p1, p2);
      var pos := Positions(ZScores(metric, zAt), DefaultEntry, DefaultExitBand);
      && r.value.pnl == PairPnL(p1, p2, pos)
      && r.value.summary.tradeSwitches == TradeSwitches(pos)
  {
    if c.preferred == NoMetric then None
    else if c.stock1 !in close.cols || c.stock2 !in close.cols then None
    else
      var x, y := close.cols[c.stock1], close.cols[c.stock2];
      var rows := AlignedRows(x, y);
      if |rows| < MinRows then None
      else
        var p1, p2 := Pick(x, rows), Pick(y, rows);
        var metric := if c.preferred == Spread then SpreadSeries(p1, p2) else RatioSeries(p1, p2);
        var pos := Positions(ZScores(metric, zAt), DefaultEntry, DefaultExitBand);
        var pnl := PairPnL(p1, p2, pos);
        var equity := Equity(capital, pnl);
        var summary := PairSummary(c.stock1, c.stock2, c.preferred, Sum(pnl), equity[|pnl| - 1], TradeSwitches(pos));
        Some(PairRun(summary, rows, pnl))
  }

  /** `pnl.reindex(index).fillna(0.0)`: a pair's P&L placed on the full date index. */
  function Scatter(rows: seq<nat>, vals: seq<real>, n: nat): (s: seq<real>)
    requires |rows| == |vals|
    requires forall k :: 0 <= k < |rows| ==> rows[k] < n
    ensures |s| == n
  {
    if |rows| == 0 then Zeros(n)
    else
      var m := |rows| - 1;
      Scatter(rows[..m], vals[..m], n)[rows[m] := vals[m]]
  }

  /** The value a pair contributes on date `t`: its P&L there, or 0 if it has no row at `t`. */
  function AtDate(rows: seq<nat>, vals: seq<real>, t: nat): real
    requires |rows| == |vals|
  {
    if |rows| == 0 then 0.0
    else
      var m := |rows| - 1;
      if rows[m] == t then vals[m] else AtDate(rows[..m], vals[..m], t)
  }

  lemma {:induction false} ScatterAt(rows: seq<nat>, vals: seq<real>, n: nat, t: nat)
    requires |rows| == |vals|
    requires forall k :: 0 <= k < |rows| ==> rows[k] < n
    requires t < n
    ensures Scatter(rows, vals, n)[t] == AtDate(rows, vals, t)
    decreases |rows|
  {
    if |rows| > 0 {
      var m := |rows| - 1;
      ScatterAt(rows[..m], vals[..m], n, t);
      var init := Scatter(rows[..m], vals[..m], n);
      assert Scatter(rows, vals, n) == init[rows[m] := vals[m]];
    }
  }

  /**
   Re-indexing is exact: on each of the pair's rows the pair contributes its
   own P&L, and on every other date it contributes zero.
   */
  lemma {:induction false} AtDateMeaning(rows: seq<nat>, vals: seq<real>)
    requires |rows| == |vals| && StrictlyIncreasing(rows)
    ensures forall k :: 0 <= k < |rows| ==> AtDate(rows, vals, rows[k]) == vals[k]
    ensures forall t: nat :: t !in rows ==> AtDate(rows, vals, t) == 0.0
    decreases |rows|
  {
    if |rows| > 0 {
      var m := |rows| - 1;
      AtDateMeaning(rows[..m], vals[..m]);
      forall k | 0 <= k < |rows|
        ensures AtDate(rows, vals, rows[k]) == vals[k]
      {
        if k < m {
          assert rows[k] < rows[m];
          assert rows[..m][k] == rows[k];
        }
      }
      forall t: nat | t !in rows
        ensures AtDate(rows, vals, t) == 0.0
      {
        assert t !in rows[..m];
      }
    }
  }

  /** Re-indexing onto the full date index neither adds nor loses P&L. */
  lemma {:induction false} ScatterSum(rows: seq<nat>, vals: seq<real>, n: nat)
    requires |rows| == |vals| && StrictlyIncreasing(rows)
    requires forall k :: 0 <= k < |rows| ==> rows[k] < n
    ensures Sum(Scatter(rows, vals, n)) == Sum(vals)
    decreases |rows|
  {
    if |rows| > 0 {
      var m := |rows| - 1;
      var init := Scatter(rows[..m], vals[..m], n);
      ScatterSum(rows[..m], vals[..m], n);
      ScatterAt(rows[..m], vals[..m], n, rows[m]);
      AtDateMeaning(rows[..m], vals[..m]);
      assert rows[m] !in rows[..m];
      SumUpdate(init, rows[m], vals[m]);
      SumSnoc(vals);
    }
  }

  /** Every run has one P&L value per row, and its rows lie on the full index of `n` dates. */
  predicate OnIndex(runs: seq<PairRun>, n: nat)
  {
    forall i :: 0 <= i < |runs| ==>
      |runs[i].rows| == |runs[i].pnl| && forall k :: 0 <= k < |runs[i].rows| ==> runs[i].rows[k] < n
  }

  /** The portfolio's P&L on date `t`: the sum of every traded pair's contribution that day. */
  function DaySum(runs: seq<PairRun>, t: nat): real
    requires forall i :: 0 <= i < |runs| ==> |runs[i].rows| == |runs[i].pnl|
  {
    if |runs| == 0 then 0.0
    else
      var last := runs[|runs| - 1];
      DaySum(runs[..|runs| - 1], t) + AtDate(last.rows, last.pnl, t)
  }

  /** The summaries of the runs, in run order. */
  function Summaries(runs: seq<PairRun>): (ss: seq<PairSummary>)
    ensures |ss| == |runs|
    ensures forall i :: 0 <= i < |runs| ==> ss[i] == runs[i].summary
  {
    seq(|runs|, i requires 0 <= i < |runs| => runs[i].summary)
  }

  function TotalOf(s: PairSummary): real
  {
    s.totalPnl
  }

  /**
   `portfolio_daily_pnl`: zero on every date, then each traded pair's
   re-indexed P&L added in turn.
   */
  function PortfolioPnl(runs: seq<PairRun>, n: nat): (daily: seq<real>)
    requires OnIndex(runs, n)
    ensures |daily| == n
  {
    if |runs| == 0 then Zeros(n)
    else
      var m := |runs| - 1;
      Add(PortfolioPnl(runs[..m], n), Scatter(runs[m].rows, runs[m].pnl, n))
  }

  /** On each date the portfolio's P&L is the sum of the pairs' contributions that day. */
  lemma {:induction false} PortfolioPnlAt(runs: seq<PairRun>, n: nat, t: nat)
    requires OnIndex(runs, n) && t < n
    ensures PortfolioPnl(runs, n)[t] == DaySum(runs, t)
    decreases |runs|
  {
    if |runs| > 0 {
      var m := |runs| - 1;
      assert OnIndex(runs[..m], n);
      PortfolioPnlAt(runs[..m], n, t);
      ScatterAt(runs[m].rows, runs[m].pnl, n, t);
      assert PortfolioPnl(runs, n) == Add(PortfolioPnl(runs[..m], n), Scatter(runs[m].rows, runs[m].pnl, n));
    }
  }

  /** Over all dates, the portfolio's P&L is the sum of the pairs' total P&L. */
  lemma {:induction false} PortfolioPnlSum(runs: seq<PairRun>, n: nat)
    requires forall i :: 0 <= i < |runs| ==> ValidRun(runs[i], n)
    ensures OnIndex(runs, n)
    ensures Sum(PortfolioPnl(runs, n)) == SumBy(Summaries(runs), TotalOf)
    decreases |runs|
  {
    if |runs| > 0 {
      var m := |runs| - 1;
      var last := runs[m];
      PortfolioPnlSum(runs[..m], n);
      assert ValidRun(last, n);
      ScatterSum(last.rows, last.pnl, n);
      assert Summaries(runs) == Summaries(runs[..m]) + [last.summary];
      SumByAppend(Summaries(runs[..m]), [last.summary], TotalOf);
    }
  }

  /** The output of the backtest: the sorted summary table and the portfolio series. */
  datatype Report = Report(summary: seq<PairSummary>, dailyPnl: seq<real>, equityCurve: seq<real>)

  /** The loop body as a function of the candidate. */
  function Trader(close: Table<real>, capital: real, zAt: seq<Option<real>> -> Option<real>): (f: Candidate -> Option<PairRun>)
    ensures forall c :: f(c) == RunPair(close, c, capital, zAt)
  {
    (c: Candidate) => RunPair(close, c, capital, zAt)
  }

  /** The positions of the candidates the loop trades, in order. */
  function TradedPositions(close: Table<real>, candidates: seq<Candidate>, capital: real,
                           zAt: seq<Option<real>> -> Option<real>): (ix: seq<nat>)
    ensures StrictlyIncreasing(ix)
    ensures forall k :: 0 <= k < |ix| ==> ix[k] < |candidates|
    ensures forall i: nat :: i in ix <==> i < |candidates| && RunPair(close, candidates[i], capital, zAt).Some?
  {
    Kept(candidates, Trader(close, capital, zAt))
  }

  /**
   The pairs the backtest trades: one run for each candidate that passes the
   filters of `RunPair`, in the order of the stationarity results.
   */
  function TradedPairs(close: Table<real>, candidates: seq<Candidate>, capital: real,
                       zAt: seq<Option<real>> -> Option<real>): (runs: seq<PairRun>)
    requires WellFormed(close)
    ensures var ix := TradedPositions(close, candidates, capital, zAt);
      && |runs| == |ix|
      && forall k :: 0 <= k < |runs| ==> RunPair(close, candidates[ix[k]], capital, zAt) == Some(runs[k])
    ensures forall i :: 0 <= i < |runs| ==> ValidRun(runs[i], close.height)
    ensures forall run :: run in runs <==> exists c :: c in candidates && RunPair(close, c, capital, zAt) == Some(run)
  {
    var runs := FilterMap(candidates, Trader(close, capital, zAt));
    forall i | 0 <= i < |runs|
      ensures ValidRun(runs[i], close.height)
    {
      assert runs[i] in runs;
    }
    runs
  }

  /**
   The summary table and portfolio series of a set of traded pairs: the
   summaries sorted by total P&L, the daily P&L on the full index of `n` dates,
   and the equity curve, whose final value less the capital is the sum of the
   pairs' total P&L.
   */
  function BuildReport(runs: seq<PairRun>, n: nat, capital: real): (report: Report)
    requires forall i :: 0 <= i < |runs| ==> ValidRun(runs[i], n)
    ensures SortedDesc(report.summary, TotalOf)
    ensures multiset(report.summary) == multiset(Summaries(runs))
    ensures OnIndex(runs, n) && |report.dailyPnl| == n
    ensures forall t :: 0 <= t < n ==> report.dailyPnl[t] == DaySum(runs, t)
    ensures |report.equityCurve| == n
    ensures forall t :: 0 <= t < n ==> report.equityCurve[t] - capital == Sum(report.dailyPnl[..t + 1])
    ensures n > 0 ==> report.equityCurve[n - 1] - capital == SumBy(report.summary, TotalOf)
  {
    PortfolioPnlSum(runs, n);
    var daily := PortfolioPnl(runs, n);
    var summary := SortDesc(Summaries(runs), TotalOf);
    SumByPermutation(summary, Summaries(runs), TotalOf);
    PortfolioPnlEveryDate(runs, n);
    Report(summary, daily, Equity(capital, daily))
  }

  /**
   The backtest `main`: trade every selected pair and report on them. With no
   pair traded the summary frame has no `total_pnl` column and sorting it fails.
   */
  function RunBacktest(close: Table<real>, candidates: seq<Candidate>, capital: real,
                       zAt: seq<Option<real>> -> Option<real>): (r: Result<Report>)
    requires WellFormed(close)
    ensures var runs := TradedPairs(close, candidates, capital, zAt);
      && (r.Err? <==> |runs| == 0)
      && (r.Ok? ==> r.value == BuildReport(runs, close.height, capital))
  {
    var runs := TradedPairs(close, candidates, capital, zAt);
    if |runs| == 0 then Err("KeyError: 'total_pnl'") else Ok(BuildReport(runs, close.height, capital))
  }

  /** As written, a run that trades no pair fails: here, one where no candidate prefers a metric. */
  lemma NothingTradedFails(close: Table<real>, candidates: seq<Candidate>, capital: real,
                           zAt: seq<Option<real>> -> Option<real>)
    requires WellFormed(close)
    requires forall c :: c in candidates ==> c.preferred == NoMetric
    ensures RunBacktest(close, candidates, capital, zAt).Err?
  {
    var runs := TradedPairs(close, candidates, capital, zAt);
    assert forall i :: 0 <= i < |runs| ==> runs[i] in runs;
  }

  /**
   The backtest as evidently intended: the same report whenever a pair is
   traded, and an empty summary with a flat portfolio when none is.
   */
  function RunBacktestTotal(close: Table<real>, candidates: seq<Candidate>, capital: real,
                            zAt: seq<Option<real>> -> Option<real>): (report: Report)
    requires WellFormed(close)
    ensures |TradedPairs(close, candidates, capital, zAt)| > 0 ==> RunBacktest(close, candidates, capital, zAt) == Ok(report)
    ensures multiset(report.summary) == multiset(Summaries(TradedPairs(close, candidates, capital, zAt)))
    ensures |report.dailyPnl| == close.height && |report.equityCurve| == close.height
    ensures forall t :: 0 <= t < close.height ==> report.equityCurve[t] - capital == Sum(report.dailyPnl[..t + 1])
    ensures close.height > 0 ==> report.equityCurve[close.height - 1] - capital == SumBy(report.summary, TotalOf)
  {
    BuildReport(TradedPairs(close, candidates, capital, zAt), close.height, capital)
  }

  /** With no pair traded the corrected backtest reports nothing and keeps the capital on every date. */
  lemma NothingTradedIsFlat(close: Table<real>, candidates: seq<Candidate>, capital: real,
                            zAt: seq<Option<real>> -> Option<real>)
    requires WellFormed(close)
    requires TradedPairs(close, candidates, capital, zAt) == []
    ensures var report := RunBacktestTotal(close, candidates, capital, zAt);
      && report.summary == []
      && forall t :: 0 <= t < close.height ==> report.dailyPnl[t] == 0.0 && report.equityCurve[t] == capital
  {
    var report := RunBacktestTotal(close, candidates, capital, zAt);
    assert |multiset(report.summary)| == 0;
    forall t | 0 <= t < close.height
      ensures report.dailyPnl[t] == 0.0 && report.equityCurve[t] == capital
    {
      var prefix := report.dailyPnl[..t + 1];
      assert forall k :: 0 <= k < |prefix| ==> prefix[k] == report.dailyPnl[k] == DaySum([], k) == 0.0;
      SumScaled(0.0, prefix, prefix);
    }
  }

  lemma PortfolioPnlEveryDate(runs: seq<PairRun>, n: nat)
    requires OnIndex(runs, n)
    ensures forall t :: 0 <= t < n ==> PortfolioPnl(runs, n)[t] == DaySum(runs, t)
  {
    forall t | 0 <= t < n {
      PortfolioPnlAt(runs, n, t);
    }
  }
}
