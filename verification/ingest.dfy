/**
 The pure parts of the ingestion script: splitting the ticker list into
 download batches, normalising the listed company codes into a sorted,
 duplicate-free list of Yahoo tickers, and the daily up/down flag.
 */
module Ingest {
  import opened Basics
  import opened Order
  import opened Frame

  /** The daily direction flag: 1 on an up day, 0 otherwise. */
  type Flag = x: int | 0 <= x <= 1

  /** `int(adj_close > open)`: up only when the adjusted close is strictly above the open. */
  function UpFlag(open: real, adjClose: real): (up: Flag)
    ensures up == 1 <==> adjClose > open
    ensures up == 0 <==> adjClose <= open
  {
    if adjClose > open then 1 else 0
  }

  // ---------------------------------------------------------------------------
  // Batching
  // ---------------------------------------------------------------------------

  function Flatten<T>(ss: seq<seq<T>>): seq<T>
  {
    if |ss| == 0 then [] else ss[0] + Flatten(ss[1..])
  }

  /** Every chunk is non-empty and holds at most `size` items; all but the last hold exactly `size`. */
  predicate WellChunked<T>(cs: seq<seq<T>>, size: nat)
  {
    && (forall k :: 0 <= k < |cs| ==> 0 < |cs[k]| <= size)
    && (forall k :: 0 <= k < |cs| - 1 ==> |cs[k]| == size)
  }

  /** `[s[i:i + size] for i in range(0, len(s), size)]` for a positive size. */
  function ChunksOf<T>(s: seq<T>, size: nat): (cs: seq<seq<T>>)
    requires size > 0
    ensures Flatten(cs) == s
    ensures WellChunked(cs, size)
    ensures |s| == 0 <==> |cs| == 0
    ensures |cs| > 0 ==> (|cs| - 1) * size < |s| <= |cs| * size
    decreases |s|
  {
    if |s| <= size then
      if |s| == 0 then [] else [s]
    else
      var rest := ChunksOf(s[size..], size);
      assert s == s[..size] + s[size..];
      assert |rest| * size + size == (|rest| + 1) * size;
      [s[..size]] + rest
  }

  /**
   `chunked(seq, size)`. A zero size is the `range()` error; a negative size
   gives an empty range, hence no chunks.
   */
  function Chunked<T>(s: seq<T>, size: int): (r: Result<seq<seq<T>>>)
    ensures r.Err? <==> size == 0
    ensures size < 0 ==> r == Ok([])
    ensures size > 0 ==> r.Ok? && Flatten(r.value) == s && WellChunked(r.value, size)
    ensures size > 0 && |s| > 0 ==> (|r.value| - 1) * size < |s| <= |r.value| * size
    ensures size > 0 && |s| == 0 ==> r.value == []
  {
    if size == 0 then Err("range() arg 3 must not be zero")
    else if size < 0 then Ok([])
    else Ok(ChunksOf(s, size))
  }

  /**
   Chunking is determined by its shape: any list of chunks that concatenates
   to `s` and is well chunked is the one `chunked` returns.
   */
  lemma {:induction false} ChunkingIsUnique<T>(s: seq<T>, size: nat, cs: seq<seq<T>>)
    requires size > 0
    requires Flatten(cs) == s && WellChunked(cs, size)
    ensures cs == ChunksOf(s, size)
    decreases |cs|
  {
    if |cs| > 0 {
      var rest := cs[1..];
      assert WellChunked(rest, size) by {
        forall k | 0 <= k < |rest| - 1 ensures |rest[k]| == size {
          assert rest[k] == cs[k + 1];
        }
      }
      FlattenLength(rest);
      if |cs| == 1 {
        assert Flatten(rest) == [];
        assert s == cs[0];
      } else {
        assert |cs[0]| == size;
        assert |Flatten(rest)| > 0 by {
          assert |rest[0]| > 0;
          FlattenHead(rest);
        }
        assert s[size..] == Flatten(rest);
        ChunkingIsUnique(s[size..], size, rest);
        assert cs == [cs[0]] + rest;
      }
    }
  }

  lemma FlattenLength<T>(cs: seq<seq<T>>)
    ensures |Flatten(cs)| == 0 <==> forall k :: 0 <= k < |cs| ==> |cs[k]| == 0
  {
    if |cs| > 0 {
      FlattenLength(cs[1..]);
      assert forall k :: 1 <= k < |cs| ==> cs[k] == cs[1..][k - 1];
    }
  }

  lemma FlattenHead<T>(cs: seq<seq<T>>)
    requires |cs| > 0
    ensures |Flatten(cs)| >= |cs[0]|
  {
  }

  // ---------------------------------------------------------------------------
  // Ticker normalisation
  // ---------------------------------------------------------------------------

  /** Python's `str.isspace`: the characters `str.strip()` removes. */
  predicate IsSpace(c: char)
  {
    || ('\t' <= c <= '\r') || ('\U{1c}' <= c <= ' ')
    || c == '\U{85}' || c == '\U{a0}' || c == '\U{1680}'
    || ('\U{2000}' <= c <= '\U{200a}') || c == '\U{2028}' || c == '\U{2029}'
    || c == '\U{202f}' || c == '\U{205f}' || c == '\U{3000}'
  }

  function StripLeft(s: string): (r: string)
    ensures |r| <= |s| && r == s[|s| - |r|..]
    ensures forall k :: 0 <= k < |s| - |r| ==> IsSpace(s[k])
    ensures |r| > 0 ==> !IsSpace(r[0])
  {
    if |s| > 0 && IsSpace(s[0]) then StripLeft(s[1..]) else s
  }

  function StripRight(s: string): (r: string)
    ensures |r| <= |s| && r == s[..|r|]
    ensures forall k :: |r| <= k < |s| ==> IsSpace(s[k])
    ensures |r| > 0 ==> !IsSpace(r[|r| - 1])
  {
    if |s| > 0 && IsSpace(s[|s| - 1]) then StripRight(s[..|s| - 1]) else s
  }

  /** `r` is `s` from position `i` on, with only whitespace cut from either end. */
  predicate TrimmedAt(s: string, r: string, i: int)
  {
    && 0 <= i <= |s| - |r| && r == s[i..i + |r|]
    && (forall k :: 0 <= k < i ==> IsSpace(s[k]))
    && (forall k :: i + |r| <= k < |s| ==> IsSpace(s[k]))
  }

  /** `str.strip()`: the longest run of `s` that neither starts nor ends with whitespace. */
  function Strip(s: string): (r: string)
    ensures exists i :: TrimmedAt(s, r, i)
    ensures |r| > 0 ==> !IsSpace(r[0]) && !IsSpace(r[|r| - 1])
  {
    var left := StripLeft(s);
    var r := StripRight(left);
    var i := |s| - |left|;
    assert TrimmedAt(s, r, i);
    r
  }

  /** Stripping a string that neither starts nor ends with whitespace leaves it alone. */
  lemma StripUnpadded(s: string)
    requires |s| > 0 ==> !IsSpace(s[0]) && !IsSpace(s[|s| - 1])
    ensures Strip(s) == s
  {
  }

  lemma StripIdempotent(s: string)
    ensures Strip(Strip(s)) == Strip(s)
  {
    StripUnpadded(Strip(s));
  }

  /** `str.upper()` on one character, for the ASCII letters. */
  function UpperChar(c: char): (u: char)
    ensures 'a' <= c <= 'z' ==> u as int == c as int - 32
    ensures !('a' <= c <= 'z') ==> u == c
  {
    if 'a' <= c <= 'z' then (c as int - 32) as char else c
  }

  function Upper(s: string): (r: string)
    ensures |r| == |s|
    ensures forall k :: 0 <= k < |s| ==> r[k] == UpperChar(s[k])
  {
    seq(|s|, k requires 0 <= k < |s| => UpperChar(s[k]))
  }

  /** Upper-casing turns no character into whitespace or out of it. */
  lemma UpperKeepsSpaces()
    ensures forall c :: IsSpace(UpperChar(c)) <==> IsSpace(c)
  {
  }

  /** Upper-casing commutes with stripping leading whitespace. */
  lemma {:induction false} UpperStripLeft(s: string)
    ensures StripLeft(Upper(s)) == Upper(StripLeft(s))
    decreases |s|
  {
    UpperKeepsSpaces();
    if |s| > 0 && IsSpace(s[0]) {
      assert Upper(s)[1..] == Upper(s[1..]);
      UpperStripLeft(s[1..]);
    }
  }

  /** Upper-casing commutes with stripping trailing whitespace. */
  lemma {:induction false} UpperStripRight(s: string)
    ensures StripRight(Upper(s)) == Upper(StripRight(s))
    decreases |s|
  {
    UpperKeepsSpaces();
    if |s| > 0 && IsSpace(s[|s| - 1]) {
      assert Upper(s)[..|s| - 1] == Upper(s[..|s| - 1]);
      UpperStripRight(s[..|s| - 1]);
    }
  }

  /**
   `.str.strip().str.upper()` on one code: the code upper-cased, with its
   surrounding whitespace removed (the two steps commute).
   */
  function Normalize(code: string): (n: string)
    ensures n == Strip(Upper(code))
    ensures |n| > 0 ==> !IsSpace(n[0]) && !IsSpace(n[|n| - 1])
    ensures forall k :: 0 <= k < |n| ==> !('a' <= n[k] <= 'z')
  {
    StripUpperCommute(code);
    UpperHasNoLower(Strip(code));
    Upper(Strip(code))
  }

  /** An upper-cased string holds no lower-case ASCII letter. */
  lemma UpperHasNoLower(s: string)
    ensures forall k :: 0 <= k < |s| ==> !('a' <= Upper(s)[k] <= 'z')
  {
  }

  /** Stripping then upper-casing is upper-casing then stripping. */
  lemma StripUpperCommute(s: string)
    ensures Strip(Upper(s)) == Upper(Strip(s))
  {
    UpperStripLeft(s);
    UpperStripRight(StripLeft(s));
  }

  /** Normalising twice is normalising once. */
  lemma NormalizeIdempotent(code: string)
    ensures Normalize(Normalize(code)) == Normalize(code)
  {
    var n := Normalize(code);
    UpperOfUpperCase(n);
    StripUnpadded(n);
  }

  /** Upper-casing leaves a string without lower-case ASCII letters alone. */
  lemma UpperOfUpperCase(s: string)
    requires forall k :: 0 <= k < |s| ==> !('a' <= s[k] <= 'z')
    ensures Upper(s) == s
  {
  }

  /** The filter `if c and c != "N/A"` on a normalised code. */
  predicate ListedCode(c: string)
  {
    c != "" && c != "N/A"
  }

  /** `f"{c}.AX"` for a kept code; `None` for a missing or filtered-out one. */
  function TickerOf(raw: Option<string>): Option<string>
  {
    match raw
    case None => None
    case Some(c) =>
      var n := Normalize(c);
      if ListedCode(n) then Some(n + ".AX") else None
  }

  /** A ticker built from a listed, normalised code. */
  predicate IsTicker(t: string)
  {
    |t| > 3 && t[|t| - 3..] == ".AX" && ListedCode(t[..|t| - 3]) && Normalize(t[..|t| - 3]) == t[..|t| - 3]
  }

  lemma TickerOfIsTicker(raw: Option<string>)
    ensures TickerOf(raw).Some? ==> IsTicker(TickerOf(raw).value)
  {
    if TickerOf(raw).Some? {
      var t, n := TickerOf(raw).value, Normalize(raw.value);
      assert t[..|t| - 3] == n;
      NormalizeIdempotent(raw.value);
    }
  }

  /** `sorted(set(tickers))` over the codes of the listing, missing codes dropped. */
  function Universe(codes: seq<Option<string>>): (u: seq<string>)
    ensures StrictlySorted(u, StrLess)
    ensures forall t :: t in u <==> exists raw :: raw in codes && TickerOf(raw) == Some(t)
    ensures forall t :: t in u ==> IsTicker(t)
  {
    StrLessIsStrictTotal();
    var u := SortedUnique(FilterMap(codes, TickerOf), StrLess);
    forall t | t in u
      ensures IsTicker(t)
    {
      var raw :| raw in codes && TickerOf(raw) == Some(t);
      TickerOfIsTicker(raw);
    }
    u
  }

  /**
   `get_asx_tickers(limit)`: the sorted universe, cut to its first `limit`
   entries (Python slice semantics) when a limit is given.
   */
  function GetTickers(codes: seq<Option<string>>, limit: Option<int>): (r: seq<string>)
    ensures StrictlySorted(r, StrLess)
    ensures r <= Universe(codes)
    ensures limit.None? ==> r == Universe(codes)
    ensures limit.Some? && limit.value >= 0 ==> |r| == Min(limit.value, |Universe(codes)|)
    ensures forall t :: t in r ==> IsTicker(t)
  {
    var u := Universe(codes);
    match limit
    case None => u
    case Some(n) => Head(u, n)
  }
}
