/**
 The wide, date-indexed tables the pipeline works on, and the pandas idioms
 the scripts apply to them: dropping rows with a missing value in either of two
 columns, `itertools.combinations(columns, 2)`, and building a list of rows
 while skipping the pairs that yield no result.

 Dates are the row positions 0 .. height-1 of the table, which the scripts sort
 by date on load; a missing cell is `None`.
 */
module Frame {
  import opened Basics
  import opened Order

  /** A wide table: one column per ticker, in `names` order, each `height` rows long. */
  datatype Table<T> = Table(height: nat, names: seq<string>, cols: map<string, seq<Option<T>>>)

  predicate WellFormed<T>(t: Table<T>)
  {
    && (forall n :: n in t.cols ==> n in t.names)
    && (forall k :: 0 <= k < |t.names| ==> t.names[k] in t.cols)
    && (forall n :: n in t.cols ==> |t.cols[n]| == t.height)
    && (forall i, j :: 0 <= i < j < |t.names| ==> t.names[i] != t.names[j])
  }

  /** A column name picks out one column position. */
  lemma NamesAreUnique<T>(t: Table<T>, i: nat, j: nat)
    requires WellFormed(t) && i < |t.names| && j < |t.names|
    ensures t.names[i] == t.names[j] <==> i == j
  {
  }

  predicate StrictlyIncreasing(rows: seq<nat>)
  {
    forall k, l :: 0 <= k < l < |rows| ==> rows[k] < rows[l]
  }

  /** The rows below `n` at which both columns hold a value, in order. */
  function AlignedPrefix<A, B>(x: seq<Option<A>>, y: seq<Option<B>>, n: nat): (rows: seq<nat>)
    requires n <= |x| && n <= |y|
    ensures StrictlyIncreasing(rows)
    ensures forall k :: 0 <= k < |rows| ==> rows[k] < n
    ensures forall i: nat :: i in rows <==> i < n && x[i].Some? && y[i].Some?
  {
    if n == 0 then []
    else
      var init := AlignedPrefix(x, y, n - 1);
      init + (if x[n - 1].Some? && y[n - 1].Some? then [n - 1] else [])
  }

  /**
   The rows of `pd.concat([x, y], axis=1).dropna()`: the positions, in order,
   at which both columns hold a value.
   */
  function AlignedRows<A, B>(x: seq<Option<A>>, y: seq<Option<B>>): (rows: seq<nat>)
    ensures StrictlyIncreasing(rows)
    ensures forall k :: 0 <= k < |rows| ==> rows[k] < |x| && rows[k] < |y|
    ensures forall k :: 0 <= k < |rows| ==> x[rows[k]].Some? && y[rows[k]].Some?
    ensures forall i: nat :: i in rows <==> i < |x| && i < |y| && x[i].Some? && y[i].Some?
  {
    var rows := AlignedPrefix(x, y, if |x| < |y| then |x| else |y|);
    assert forall k :: 0 <= k < |rows| ==> rows[k] in rows;
    rows
  }

  /** Dropping the rows with a missing value does not depend on the order of the two columns. */
  lemma AlignedRowsSymmetric<A, B>(x: seq<Option<A>>, y: seq<Option<B>>)
    ensures AlignedRows(x, y) == AlignedRows(y, x)
  {
    var less := (a: nat, b: nat) => a < b;
    var xy, yx := AlignedRows(x, y), AlignedRows(y, x);
    assert StrictlySorted(xy, less) && StrictlySorted(yx, less);
    SortedListingIsUnique(xy, yx, less);
  }

  /** The values of a column at the given rows. */
  function Pick<T>(col: seq<Option<T>>, rows: seq<nat>): (vs: seq<T>)
    requires forall k :: 0 <= k < |rows| ==> rows[k] < |col| && col[rows[k]].Some?
    ensures |vs| == |rows|
    ensures forall k :: 0 <= k < |rows| ==> col[rows[k]] == Some(vs[k])
  {
    seq(|rows|, k requires 0 <= k < |rows| => col[rows[k]].value)
  }

  /** `series.dropna()`: the values present, each once per date, in date order. */
  function Present<T(==,!new)>(s: seq<Option<T>>): (vs: seq<T>)
    ensures vs == Pick(s, AlignedRows(s, s))
    ensures |vs| <= |s|
    ensures forall v :: v in vs <==> Some(v) in s
  {
    var keep := (o: Option<T>) => o;
    var vs := FilterMap(s, keep);
    var rows := AlignedRows(s, s);
    FilterMapByPositions(s, keep, rows);
    assert forall v :: Some(v) in s <==> exists o :: o in s && keep(o) == Some(v);
    vs
  }

  /** The pairs `(i, j)` with `i < j < n` in `itertools.combinations(range(n), 2)` order, from row `i` on. */
  function CombinationsFrom(i: nat, n: nat): seq<(nat, nat)>
    decreases n - i
  {
    if i >= n then []
    else Row(i, n) + CombinationsFrom(i + 1, n)
  }

  /** `itertools.combinations(range(n), 2)`. */
  function Combinations(n: nat): seq<(nat, nat)>
  {
    CombinationsFrom(0, n)
  }

  /** Lexicographic order on index pairs, the order in which combinations are emitted. */
  predicate IndexPairLess(p: (nat, nat), q: (nat, nat))
  {
    p.0 < q.0 || (p.0 == q.0 && p.1 < q.1)
  }

  /** The pairs emitted from row `i` on. */
  function Row(i: nat, n: nat): (row: seq<(nat, nat)>)
    requires i < n
    ensures |row| == n - i - 1
    ensures forall k :: 0 <= k < |row| ==> row[k] == (i, i + 1 + k)
  {
    seq(n - i - 1, k requires 0 <= k < n - i - 1 => (i, i + 1 + k))
  }

  lemma CombinationsFromUnfold(i: nat, n: nat)
    requires i < n
    ensures CombinationsFrom(i, n) == Row(i, n) + CombinationsFrom(i + 1, n)
  {
  }

  /** From row `i` on, every pair satisfies `i <= a < b < n`. */
  lemma {:induction false} CombinationsFromBounds(i: nat, n: nat)
    ensures var ps := CombinationsFrom(i, n);
      forall k :: 0 <= k < |ps| ==> i <= ps[k].0 < ps[k].1 < n
    decreases n - i
  {
    if i < n {
      CombinationsFromBounds(i + 1, n);
      CombinationsFromUnfold(i, n);
      var row, rest := Row(i, n), CombinationsFrom(i + 1, n);
      var ps: seq<(nat, nat)> := row + rest;
      forall k: int | 0 <= k < |ps|
        ensures i <= ps[k].0 < ps[k].1 < n
      {
        if k >= |row| {
          assert ps[k] == rest[k - |row|];
        }
      }
    }
  }

  /** From row `i` on, every pair `i <= a < b < n` is emitted. */
  lemma {:induction false} CombinationsFromComplete(i: nat, n: nat)
    ensures forall a: nat, b: nat :: i <= a < b < n ==> (a, b) in CombinationsFrom(i, n)
    decreases n - i
  {
    if i < n {
      CombinationsFromComplete(i + 1, n);
      CombinationsFromUnfold(i, n);
      var row, rest := Row(i, n), CombinationsFrom(i + 1, n);
      forall a: nat, b: nat | i <= a < b < n
        ensures (a, b) in row + rest
      {
        if a == i {
          assert row[b - i - 1] == (a, b);
        } else {
          assert (a, b) in rest;
        }
      }
    }
  }

  /** From row `i` on, the pairs come in lexicographic order. */
  lemma {:induction false} CombinationsFromOrdered(i: nat, n: nat)
    ensures var ps := CombinationsFrom(i, n);
      forall k, l :: 0 <= k < l < |ps| ==> IndexPairLess(ps[k], ps[l])
    decreases n - i
  {
    if i < n {
      CombinationsFromOrdered(i + 1, n);
      CombinationsFromBounds(i + 1, n);
      CombinationsFromUnfold(i, n);
      var row, rest := Row(i, n), CombinationsFrom(i + 1, n);
      var ps: seq<(nat, nat)> := row + rest;
      forall k: int, l: int | 0 <= k < l < |ps|
        ensures IndexPairLess(ps[k], ps[l])
      {
        if l < |row| {
        } else if k < |row| {
          assert ps[l] == rest[l - |row|];
        } else {
          assert ps[k] == rest[k - |row|];
          assert ps[l] == rest[l - |row|];
        }
      }
    }
  }

  /** From row `i` on there are (n-i)(n-i-1)/2 pairs. */
  lemma {:induction false} CombinationsFromCount(i: nat, n: nat)
    requires i <= n
    ensures 2 * |CombinationsFrom(i, n)| == (n - i) * (n - i - 1)
    decreases n - i
  {
    if i < n {
      CombinationsFromCount(i + 1, n);
      var m := n - i;
      assert |CombinationsFrom(i, n)| == (m - 1) + |CombinationsFrom(i + 1, n)|;
      assert 2 * (m - 1) + (m - 1) * (m - 2) == m * (m - 1);
    }
  }

  /**
   Each unordered pair of distinct indices below `n` is emitted exactly once,
   in the orientation `i < j`, and there are n(n-1)/2 of them.
   */
  lemma CombinationsShape(n: nat)
    ensures var ps := Combinations(n);
      && (forall k :: 0 <= k < |ps| ==> ps[k].0 < ps[k].1 < n)
      && (forall i: nat, j: nat :: i < j < n ==> (i, j) in ps)
      && (forall k, l :: 0 <= k < l < |ps| ==> ps[k] != ps[l])
      && 2 * |ps| == n * (n - 1)
  {
    CombinationsFromBounds(0, n);
    CombinationsFromComplete(0, n);
    CombinationsFromOrdered(0, n);
    CombinationsFromCount(0, n);
    var ps := Combinations(n);
    assert forall k, l :: 0 <= k < l < |ps| ==> IndexPairLess(ps[k], ps[l]);
  }

  /** The pairs emitted are exactly the index pairs `i < j < n`. */
  lemma CombinationsMembership(n: nat)
    ensures forall p: (nat, nat) :: p in Combinations(n) <==> p.0 < p.1 < n
  {
    CombinationsShape(n);
    var ps := Combinations(n);
    forall p: (nat, nat) | p in ps
      ensures p.0 < p.1 < n
    {
      var k :| 0 <= k < |ps| && ps[k] == p;
    }
  }

  /** The positions of `xs`, in order, at which `f` yields a row. */
  function Kept<A, R>(xs: seq<A>, f: A -> Option<R>): (ix: seq<nat>)
    ensures StrictlyIncreasing(ix)
    ensures forall k :: 0 <= k < |ix| ==> ix[k] < |xs|
    ensures forall i: nat :: i in ix <==> i < |xs| && f(xs[i]).Some?
  {
    if |xs| == 0 then []
    else
      var n := |xs| - 1;
      var init := Kept(xs[..n], f);
      assert forall i :: 0 <= i < n ==> xs[..n][i] == xs[i];
      init + (if f(xs[n]).Some? then [n] else [])
  }

  /**
   The rows a loop `for x in xs: r = f(x); if r is None: continue; rows.append(r)`
   collects: one row for each input that yields one, in input order.
   */
  function FilterMap<A(!new), R(==,!new)>(xs: seq<A>, f: A -> Option<R>): (rs: seq<R>)
    ensures |rs| == |Kept(xs, f)| <= |xs|
    ensures forall k :: 0 <= k < |rs| ==> f(xs[Kept(xs, f)[k]]) == Some(rs[k])
    ensures forall r :: r in rs <==> exists x :: x in xs && f(x) == Some(r)
  {
    if |xs| == 0 then []
    else
      var n := |xs| - 1;
      var init, kept := FilterMap(xs[..n], f), Kept(xs[..n], f);
      var x := xs[n];
      assert xs == xs[..n] + [x];
      assert forall k :: 0 <= k < |kept| ==> xs[..n][kept[k]] == xs[kept[k]];
      var rs := match f(x) case None => init case Some(r) => init + [r];
      assert Kept(xs, f) == kept + (if f(x).Some? then [n] else []);
      assert forall k :: 0 <= k < |rs| ==> f(xs[Kept(xs, f)[k]]) == Some(rs[k]);
      RowsOfPositions(xs, f, Kept(xs, f), rs);
      rs
  }

  /** Rows taken from the yielding positions are exactly the rows some input yields. */
  lemma RowsOfPositions<A(!new), R(!new)>(xs: seq<A>, f: A -> Option<R>, ix: seq<nat>, rs: seq<R>)
    requires forall i: nat :: i in ix <==> i < |xs| && f(xs[i]).Some?
    requires |rs| == |ix|
    requires forall k :: 0 <= k < |ix| ==> ix[k] < |xs| && f(xs[ix[k]]) == Some(rs[k])
    ensures forall r :: r in rs <==> exists x :: x in xs && f(x) == Some(r)
  {
    forall r | r in rs
      ensures exists x :: x in xs && f(x) == Some(r)
    {
      var k :| 0 <= k < |rs| && rs[k] == r;
      assert xs[ix[k]] in xs;
    }
    forall r | exists x :: x in xs && f(x) == Some(r)
      ensures r in rs
    {
      var x :| x in xs && f(x) == Some(r);
      var i :| 0 <= i < |xs| && xs[i] == x;
      var k :| 0 <= k < |ix| && ix[k] == i;
      assert rs[k] == r;
    }
  }

  /** Any increasing listing of the positions that yield a row is the one the loop follows. */
  lemma FilterMapByPositions<A(!new), R(!new)>(xs: seq<A>, f: A -> Option<R>, ix: seq<nat>)
    requires StrictlyIncreasing(ix)
    requires forall i: nat :: i in ix <==> i < |xs| && f(xs[i]).Some?
    ensures ix == Kept(xs, f)
    ensures |FilterMap(xs, f)| == |ix|
    ensures forall k :: 0 <= k < |ix| ==> f(xs[ix[k]]) == Some(FilterMap(xs, f)[k])
  {
    var less := (a: nat, b: nat) => a < b;
    var kept := Kept(xs, f);
    assert StrictlySorted(ix, less) && StrictlySorted(kept, less);
    SortedListingIsUnique(ix, kept, less);
  }

  /** When no two inputs yield the same row, the loop collects no row twice. */
  lemma FilterMapDistinct<A(!new), R(!new)>(xs: seq<A>, f: A -> Option<R>)
    requires forall i, j :: 0 <= i < j < |xs| && f(xs[i]).Some? ==> f(xs[i]) != f(xs[j])
    ensures var rs := FilterMap(xs, f);
      forall k, l :: 0 <= k < l < |rs| ==> rs[k] != rs[l]
  {
    var rs, ix := FilterMap(xs, f), Kept(xs, f);
    forall k, l | 0 <= k < l < |rs|
      ensures rs[k] != rs[l]
    {
      assert f(xs[ix[k]]) == Some(rs[k]) && f(xs[ix[l]]) == Some(rs[l]);
      assert ix[k] < ix[l];
    }
  }

  /**
   When each row names the input it came from and the inputs are strictly
   sorted, the rows come out strictly sorted by the inputs they name.
   */
  lemma FilterMapKeepsOrder<A(!new), R(!new)>(xs: seq<A>, f: A -> Option<R>, key: R -> A, less: (A, A) -> bool)
    requires forall x :: x in xs && f(x).Some? ==> key(f(x).value) == x
    ensures var rs := FilterMap(xs, f);
      StrictlySorted(xs, less) ==> forall k, l :: 0 <= k < l < |rs| ==> less(key(rs[k]), key(rs[l]))
  {
    var rs, ix := FilterMap(xs, f), Kept(xs, f);
    forall k, l | StrictlySorted(xs, less) && 0 <= k < l < |rs|
      ensures less(key(rs[k]), key(rs[l]))
    {
      assert f(xs[ix[k]]) == Some(rs[k]) && f(xs[ix[l]]) == Some(rs[l]);
      assert xs[ix[k]] in xs && xs[ix[l]] in xs;
      assert ix[k] < ix[l];
    }
  }

  /**
   The loop over `combinations(range(n), 2)` that collects the rows `f`
   yields: a row is collected exactly when some pair `i < j < n` yields it.
   */
  lemma PairScanMembership<R(!new)>(n: nat, f: ((nat, nat)) -> Option<R>)
    ensures forall r :: r in FilterMap(Combinations(n), f) <==>
      exists i: nat, j: nat :: i < j < n && f((i, j)) == Some(r)
  {
    CombinationsMembership(n);
    var ps := Combinations(n);
    var rs := FilterMap(ps, f);
    forall r | r in rs
      ensures exists i: nat, j: nat :: i < j < n && f((i, j)) == Some(r)
    {
      var p :| p in ps && f(p) == Some(r);
      assert p.0 < p.1 < n && f((p.0, p.1)) == Some(r);
    }
    forall r, i: nat, j: nat | i < j < n && f((i, j)) == Some(r)
      ensures r in rs
    {
      assert (i, j) in ps;
    }
  }

  /** When only one pair yields each row, the pair loop collects no row twice. */
  lemma PairScanDistinct<R(!new)>(n: nat, f: ((nat, nat)) -> Option<R>)
    requires forall p: (nat, nat), q: (nat, nat) ::
      p.0 < p.1 < n && q.0 < q.1 < n && f(p).Some? && f(p) == f(q) ==> p == q
    ensures var rs := FilterMap(Combinations(n), f);
      forall k, l :: 0 <= k < l < |rs| ==> rs[k] != rs[l]
  {
    CombinationsShape(n);
    FilterMapDistinct(Combinations(n), f);
  }
}
