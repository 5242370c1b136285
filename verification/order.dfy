/**
 Python's ordering of `str` (lexicographic by code point) and of 2-tuples of
 `str`, and `sorted(set(xs))` for a strict total order: the sorted,
 duplicate-free list of the distinct elements of `xs`.
 */
module Order {

  /** `a < b` on Python strings. */
  predicate StrLess(a: string, b: string)
  {
    if |a| == 0 then |b| > 0
    else if |b| == 0 then false
    else if a[0] != b[0] then a[0] < b[0]
    else StrLess(a[1..], b[1..])
  }

  /** `p < q` on Python 2-tuples of strings: first component, then second. */
  predicate PairLess(p: (string, string), q: (string, string))
  {
    StrLess(p.0, q.0) || (p.0 == q.0 && StrLess(p.1, q.1))
  }

  ghost predicate StrictTotal<T(!new)>(less: (T, T) -> bool)
  {
    && (forall x :: !less(x, x))
    && (forall x, y, z :: less(x, y) && less(y, z) ==> less(x, z))
    && (forall x, y :: x == y || less(x, y) || less(y, x))
  }

  lemma {:induction false} StrLessIrreflexive(a: string)
    ensures !StrLess(a, a)
    decreases |a|
  {
    if |a| > 0 {
      StrLessIrreflexive(a[1..]);
    }
  }

  lemma {:induction false} StrLessTransitive(a: string, b: string, c: string)
    requires StrLess(a, b) && StrLess(b, c)
    ensures StrLess(a, c)
    decreases |a|
  {
    if |a| > 0 && a[0] == b[0] && b[0] == c[0] {
      StrLessTransitive(a[1..], b[1..], c[1..]);
    }
  }

  lemma {:induction false} StrLessTotal(a: string, b: string)
    ensures a == b || StrLess(a, b) || StrLess(b, a)
    decreases |a|
  {
    if |a| > 0 && |b| > 0 && a[0] == b[0] {
      StrLessTotal(a[1..], b[1..]);
      if a[1..] == b[1..] {
        assert a == [a[0]] + a[1..] && b == [b[0]] + b[1..];
      }
    }
  }

  lemma StrLessIsStrictTotal()
    ensures StrictTotal(StrLess)
  {
    forall x ensures !StrLess(x, x) {
      StrLessIrreflexive(x);
    }
    forall x, y, z | StrLess(x, y) && StrLess(y, z) ensures StrLess(x, z) {
      StrLessTransitive(x, y, z);
    }
    forall x, y ensures x == y || StrLess(x, y) || StrLess(y, x) {
      StrLessTotal(x, y);
    }
  }

  lemma PairLessIsStrictTotal()
    ensures StrictTotal(PairLess)
  {
    StrLessIsStrictTotal();
  }

  /** Every later element is strictly greater than every earlier one. */
  predicate StrictlySorted<T>(s: seq<T>, less: (T, T) -> bool)
  {
    forall i, j :: 0 <= i < j < |s| ==> less(s[i], s[j])
  }

  /** Inserts `x` into a strictly sorted sequence, unless it is already there. */
  function Insert<T(==,!new)>(s: seq<T>, x: T, less: (T, T) -> bool): (r: seq<T>)
    requires StrictTotal(less) && StrictlySorted(s, less)
    ensures StrictlySorted(r, less)
    ensures forall y :: y in r <==> y in s || y == x
  {
    if |s| == 0 then [x]
    else if x == s[0] then s
    else if less(x, s[0]) then [x] + s
    else
      var rest := Insert(s[1..], x, less);
      assert forall y :: y in s[1..] ==> less(s[0], y);
      [s[0]] + rest
  }

  /** `sorted(set(xs))`. */
  function SortedUnique<T(==,!new)>(xs: seq<T>, less: (T, T) -> bool): (r: seq<T>)
    requires StrictTotal(less)
    ensures StrictlySorted(r, less)
    ensures forall y :: y in r <==> y in xs
  {
    if |xs| == 0 then []
    else Insert(SortedUnique(xs[..|xs| - 1], less), xs[|xs| - 1], less)
  }

  /**
   A strictly sorted sequence is determined by its elements: `sorted(set(xs))`
   is the only strictly sorted listing of the distinct elements of `xs`.
   */
  lemma {:induction false} SortedListingIsUnique<T(!new)>(a: seq<T>, b: seq<T>, less: (T, T) -> bool)
    requires StrictTotal(less)
    requires StrictlySorted(a, less) && StrictlySorted(b, less)
    requires forall y :: y in a <==> y in b
    ensures a == b
    decreases |a|
  {
    if |a| > 0 {
      assert a[0] in b;
    }
    if |b| > 0 {
      assert b[0] in a;
    }
    if |a| > 0 && |b| > 0 {
      assert a[0] in b && b[0] in a;
      assert a[0] == b[0];
      forall y ensures y in a[1..] <==> y in b[1..] {
        if y in a[1..] {
          assert less(a[0], y);
          assert y in b;
        }
        if y in b[1..] {
          assert less(b[0], y);
          assert y in a;
        }
      }
      SortedListingIsUnique(a[1..], b[1..], less);
      assert a == [a[0]] + a[1..] && b == [b[0]] + b[1..];
    }
  }
}
