/**
 `df.sort_values(key, ascending=False)` and `.head(n)` on lists of records.

 pandas' default sort is not stable, so nothing here promises an order among
 records with equal keys: the contracts speak only of descending keys, of the
 records kept, and of the records dropped.
 */
module Ranking {
  import opened Basics

  predicate SortedDesc<T>(s: seq<T>, key: T -> real)
  {
    forall i, j :: 0 <= i < j < |s| ==> key(s[i]) >= key(s[j])
  }

  function InsertDesc<T(==)>(s: seq<T>, x: T, key: T -> real): (r: seq<T>)
    requires SortedDesc(s, key)
    ensures SortedDesc(r, key)
    ensures multiset(r) == multiset(s) + multiset{x}
    ensures |r| == |s| + 1 && (r[0] == x || (|s| > 0 && r[0] == s[0]))
  {
    if |s| == 0 then [x]
    else if key(x) > key(s[0]) then [x] + s
    else
      var rest := InsertDesc(s[1..], x, key);
      assert key(s[0]) >= key(rest[0]);
      assert s == [s[0]] + s[1..];
      [s[0]] + rest
  }

  /** `sort_values(key, ascending=False)`: a permutation with non-increasing keys. */
  function SortDesc<T(==)>(xs: seq<T>, key: T -> real): (r: seq<T>)
    ensures SortedDesc(r, key)
    ensures multiset(r) == multiset(xs)
  {
    if |xs| == 0 then []
    else
      assert xs == xs[..|xs| - 1] + [xs[|xs| - 1]];
      InsertDesc(SortDesc(xs[..|xs| - 1], key), xs[|xs| - 1], key)
  }

  /**
   `sort_values(key, ascending=False).head(n)`: the n records with the largest
   keys, in descending order. Every record left out has a key no larger than
   any record kept.
   */
  function TopN<T(==)>(xs: seq<T>, key: T -> real, n: int): (r: seq<T>)
    ensures SortedDesc(r, key)
    ensures n >= 0 ==> |r| == Min(n, |xs|)
    ensures multiset(r) <= multiset(xs)
    ensures forall x, y :: x in r && y in xs && multiset(r)[y] < multiset(xs)[y] ==> key(y) <= key(x)
  {
    var sorted := SortDesc(xs, key);
    var r := Head(sorted, n);
    PrefixOfSortedIsTop(sorted, |r|, key);
    r
  }

  /** A prefix of a descending sequence holds keys at least those of everything after it. */
  lemma PrefixOfSortedIsTop<T>(sorted: seq<T>, k: nat, key: T -> real)
    requires SortedDesc(sorted, key) && k <= |sorted|
    ensures multiset(sorted) == multiset(sorted[..k]) + multiset(sorted[k..])
    ensures forall x, y ::
      (x in sorted[..k] && y in sorted && multiset(sorted[..k])[y] < multiset(sorted)[y]) ==> key(y) <= key(x)
  {
    var r, rest := sorted[..k], sorted[k..];
    assert sorted == r + rest;
    forall x, y | x in r && y in sorted && multiset(r)[y] < multiset(sorted)[y]
      ensures key(y) <= key(x)
    {
      assert y in multiset(rest);
      var i :| 0 <= i < |r| && r[i] == x;
      var j :| 0 <= j < |rest| && rest[j] == y;
      assert sorted[i] == x && sorted[k + j] == y;
    }
  }

  /** Sum of `key` over the records. */
  function SumBy<T>(xs: seq<T>, key: T -> real): real
  {
    if |xs| == 0 then 0.0 else key(xs[0]) + SumBy(xs[1..], key)
  }

  lemma {:induction false} SumByAppend<T>(a: seq<T>, b: seq<T>, key: T -> real)
    ensures SumBy(a + b, key) == SumBy(a, key) + SumBy(b, key)
    decreases |a|
  {
    if |a| == 0 {
      assert a + b == b;
    } else {
      assert (a + b)[1..] == a[1..] + b;
      SumByAppend(a[1..], b, key);
    }
  }

  /** Taking one record out of a list removes exactly its key from the sum. */
  lemma SumByRemove<T>(b: seq<T>, k: nat, key: T -> real)
    requires k < |b|
    ensures SumBy(b, key) == key(b[k]) + SumBy(b[..k] + b[k + 1..], key)
  {
    assert b == (b[..k] + [b[k]]) + b[k + 1..];
    SumByAppend(b[..k] + [b[k]], b[k + 1..], key);
    SumByAppend(b[..k], [b[k]], key);
    SumByAppend(b[..k], b[k + 1..], key);
    assert SumBy([b[k]], key) == key(b[k]);
  }

  lemma MultisetRemove<T>(b: seq<T>, k: nat)
    requires k < |b|
    ensures multiset(b[..k] + b[k + 1..]) == multiset(b) - multiset{b[k]}
  {
    assert b == b[..k] + [b[k]] + b[k + 1..];
  }

  /** Reordering records (sorting them, say) does not change a sum over them. */
  lemma {:induction false} SumByPermutation<T>(a: seq<T>, b: seq<T>, key: T -> real)
    requires multiset(a) == multiset(b)
    ensures SumBy(a, key) == SumBy(b, key)
    decreases |a|
  {
    if |a| == 0 {
      assert |b| == |multiset(b)| == 0;
    } else {
      assert a[0] in multiset(b);
      var k :| 0 <= k < |b| && b[k] == a[0];
      MultisetRemove(b, k);
      assert a == [a[0]] + a[1..];
      assert multiset(a[1..]) == multiset(a) - multiset{a[0]};
      SumByPermutation(a[1..], b[..k] + b[k + 1..], key);
      SumByRemove(b, k, key);
    }
  }
}
