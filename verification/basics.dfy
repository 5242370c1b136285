/**
 Shared building blocks: optional values (a pandas NaN is `None`), results for
 operations that raise, exact sums and running sums over `real`, and Python's
 prefix slice `xs[:n]`.
 */
module Basics {

  /** A value that may be missing; `None` stands for NaN / a missing cell. */
  datatype Option<+T> = None | Some(value: T)

  /** The outcome of an operation that may raise. */
  datatype Result<+T> = Ok(value: T) | Err(message: string)

  /** Sum of a sequence of reals (exact; no floating point rounding). */
  function Sum(s: seq<real>): real
  {
    if |s| == 0 then 0.0 else s[0] + Sum(s[1..])
  }

  lemma {:induction false} SumAppend(a: seq<real>, b: seq<real>)
    ensures Sum(a + b) == Sum(a) + Sum(b)
    decreases |a|
  {
    if |a| == 0 {
      assert a + b == b;
    } else {
      assert (a + b)[1..] == a[1..] + b;
      SumAppend(a[1..], b);
    }
  }

  /** Dropping the last element removes exactly its value from the sum. */
  lemma SumSnoc(s: seq<real>)
    requires |s| > 0
    ensures Sum(s) == Sum(s[..|s|-1]) + s[|s|-1]
  {
    assert s == s[..|s|-1] + [s[|s|-1]];
    SumAppend(s[..|s|-1], [s[|s|-1]]);
  }

  /** Overwriting one element changes the sum by the difference. */
  lemma {:induction false} SumUpdate(s: seq<real>, i: nat, v: real)
    requires i < |s|
    ensures Sum(s[i := v]) == Sum(s) - s[i] + v
    decreases |s|
  {
    if i > 0 {
      assert s[i := v][1..] == s[1..][i - 1 := v];
      SumUpdate(s[1..], i - 1, v);
    }
  }

  /** Scaling every element scales the sum. */
  lemma {:induction false} SumScaled(c: real, xs: seq<real>, ys: seq<real>)
    requires |xs| == |ys|
    requires forall t :: 0 <= t < |xs| ==> ys[t] == c * xs[t]
    ensures Sum(ys) == c * Sum(xs)
    decreases |xs|
  {
    if |xs| > 0 {
      SumScaled(c, xs[1..], ys[1..]);
    }
  }

  /** The sum of elementwise differences is the difference of the sums. */
  lemma {:induction false} SumDifference(a: seq<real>, b: seq<real>, d: seq<real>)
    requires |a| == |b| == |d|
    requires forall t :: 0 <= t < |d| ==> d[t] == a[t] - b[t]
    ensures Sum(d) == Sum(a) - Sum(b)
    decreases |d|
  {
    if |d| > 0 {
      SumDifference(a[1..], b[1..], d[1..]);
    }
  }

  /** A sequence of `n` zeros, as `pd.Series(0.0, index=...)`. */
  function Zeros(n: nat): (z: seq<real>)
    ensures |z| == n && Sum(z) == 0.0
    ensures forall t :: 0 <= t < n ==> z[t] == 0.0
  {
    if n == 0 then [] else [0.0] + Zeros(n - 1)
  }

  /** Elementwise addition of two equally long series. */
  function Add(a: seq<real>, b: seq<real>): (c: seq<real>)
    requires |a| == |b|
    ensures |c| == |a|
    ensures forall t :: 0 <= t < |c| ==> c[t] == a[t] + b[t]
    ensures Sum(c) == Sum(a) + Sum(b)
  {
    if |a| == 0 then [] else [a[0] + b[0]] + Add(a[1..], b[1..])
  }

  /** Running sum started from `acc`: element i is acc + s[0] + ... + s[i]. */
  function CumSumFrom(acc: real, s: seq<real>): (c: seq<real>)
    ensures |c| == |s|
    ensures forall i :: 0 <= i < |s| ==> c[i] == acc + Sum(s[..i + 1])
    decreases |s|
  {
    if |s| == 0 then []
    else
      SumOfPrefixes(s);
      [acc + s[0]] + CumSumFrom(acc + s[0], s[1..])
  }

  lemma SumOfPrefixes(s: seq<real>)
    requires |s| > 0
    ensures forall i :: 0 <= i < |s| ==> Sum(s[..i + 1]) == s[0] + Sum(s[1..][..i])
  {
    forall i | 0 <= i < |s|
      ensures Sum(s[..i + 1]) == s[0] + Sum(s[1..][..i])
    {
      assert s[..i + 1][1..] == s[1..][..i];
    }
  }

  /** `capital + pnl.cumsum()`: the equity curve of a P&L series. */
  function Equity(capital: real, pnl: seq<real>): (e: seq<real>)
    ensures |e| == |pnl|
    ensures forall i :: 0 <= i < |pnl| ==> e[i] - capital == Sum(pnl[..i + 1])
    ensures |pnl| > 0 ==> e[|pnl| - 1] - capital == Sum(pnl)
  {
    assert |pnl| > 0 ==> pnl[..|pnl|] == pnl;
    CumSumFrom(capital, pnl)
  }

  function Min(a: int, b: int): int
  {
    if a <= b then a else b
  }

  /** Python's `xs[:n]` (and `DataFrame.head(n)`): a negative `n` drops the last `-n` items. */
  function Head<T>(xs: seq<T>, n: int): (r: seq<T>)
    ensures n >= 0 ==> |r| == Min(n, |xs|)
    ensures n < 0 ==> |r| == if |xs| + n < 0 then 0 else |xs| + n
    ensures r <= xs
  {
    if n >= 0 then xs[..Min(n, |xs|)]
    else if |xs| + n < 0 then []
    else xs[..|xs| + n]
  }
}
