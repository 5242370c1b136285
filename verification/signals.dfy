/**
 The position state machine of `build_signals`: a fold over the z-score series
 that carries the current position (0 flat, +1 long the metric, -1 short the
 metric) from date to date.

 The z-score itself ((ma5 - ma20) / std20 over trailing windows) is computed by
 pandas and is an input here; `None` stands for NaN, which is what pandas
 yields while a window is incomplete or std20 is zero.
 */
module Signals {
  import opened Basics

  const DefaultEntry: real := 1.25
  const DefaultExitBand: real := 1.0

  /**
   One iteration of the position loop: the position after seeing z-score `z`
   when the position before it was `current`.
   */
  function Step(current: int, z: Option<real>, entry: real, exitBand: real): (next: int)
    ensures current in {-1, 0, 1} ==> next in {-1, 0, 1}
    ensures z.None? ==> next == current
    ensures current != 0 ==> next == 0 || next == current
    ensures current == 0 && next != 0 ==> z.Some? && (z.value > entry || z.value < -entry)
    ensures current != 0 && next == 0 ==> z.Some? && -exitBand <= z.value <= exitBand
  {
    match z
    case None => current
    case Some(v) =>
      if current == 0 then
        if v > entry then -1       // short the metric
        else if v < -entry then 1  // long the metric
        else 0
      else if -exitBand <= v <= exitBand then 0
      else current
  }

  /** The position before date `i`: the one decided at `i - 1`, or flat at the start. */
  function Prior(ps: seq<int>, i: nat): int
    requires i <= |ps|
  {
    if i == 0 then 0 else ps[i - 1]
  }

  /** The position series `build_signals` produces for the z-score series `zs`. */
  function Positions(zs: seq<Option<real>>, entry: real, exitBand: real): (ps: seq<int>)
    ensures |ps| == |zs|
    ensures forall i :: 0 <= i < |ps| ==> ps[i] in {-1, 0, 1}
  {
    if |zs| == 0 then []
    else
      var prev := Positions(zs[..|zs| - 1], entry, exitBand);
      prev + [Step(Prior(prev, |prev|), zs[|zs| - 1], entry, exitBand)]
  }

  /**
   Causality: the positions up to date k depend only on the z-scores up to
   date k, so running on a prefix yields a prefix.
   */
  lemma {:induction false} PositionsOfPrefix(zs: seq<Option<real>>, k: nat, entry: real, exitBand: real)
    requires k <= |zs|
    ensures Positions(zs[..k], entry, exitBand) == Positions(zs, entry, exitBand)[..k]
    decreases |zs|
  {
    if k < |zs| {
      var init := zs[..|zs| - 1];
      assert init[..k] == zs[..k];
      PositionsOfPrefix(init, k, entry, exitBand);
    } else {
      assert zs[..k] == zs;
    }
  }

  /** Appending later z-scores never changes the positions already decided. */
  lemma PositionsAreCausal(zs: seq<Option<real>>, later: seq<Option<real>>, entry: real, exitBand: real)
    ensures Positions(zs + later, entry, exitBand)[..|zs|] == Positions(zs, entry, exitBand)
  {
    PositionsOfPrefix(zs + later, |zs|, entry, exitBand);
    assert (zs + later)[..|zs|] == zs;
  }

  /** The position at every date is one step of the machine from the position before it. */
  lemma PositionsFollowStep(zs: seq<Option<real>>, i: nat, entry: real, exitBand: real)
    requires i < |zs|
    ensures var ps := Positions(zs, entry, exitBand);
      ps[i] == Step(Prior(ps, i), zs[i], entry, exitBand)
  {
    var ps := Positions(zs, entry, exitBand);
    PositionsOfPrefix(zs, i + 1, entry, exitBand);
    PositionsOfPrefix(zs, i, entry, exitBand);
    assert zs[..i + 1][..i] == zs[..i];
  }

  /**
   Determinism: the position series is the only series that starts flat and
   moves by one step of the machine per date.
   */
  lemma {:induction false} PositionsUnique(zs: seq<Option<real>>, ps: seq<int>, entry: real, exitBand: real)
    requires |ps| == |zs|
    requires forall i :: 0 <= i < |zs| ==> ps[i] == Step(Prior(ps, i), zs[i], entry, exitBand)
    ensures ps == Positions(zs, entry, exitBand)
    decreases |zs|
  {
    if |zs| > 0 {
      var n := |zs| - 1;
      forall i | 0 <= i < n
        ensures ps[..n][i] == Step(Prior(ps[..n], i), zs[..n][i], entry, exitBand)
      {
        assert ps[i] == Step(Prior(ps, i), zs[i], entry, exitBand);
      }
      PositionsUnique(zs[..n], ps[..n], entry, exitBand);
      assert ps == ps[..n] + [ps[n]];
    }
  }

  /** An undefined z-score holds the previous position (flat at the start). */
  lemma UndefinedHolds(zs: seq<Option<real>>, i: nat, entry: real, exitBand: real)
    requires i < |zs| && zs[i].None?
    ensures var ps := Positions(zs, entry, exitBand); ps[i] == Prior(ps, i)
  {
    PositionsFollowStep(zs, i, entry, exitBand);
  }

  /** From flat: short above the entry threshold, long below its negation, else stay flat. */
  lemma EntryFromFlat(zs: seq<Option<real>>, i: nat, entry: real, exitBand: real)
    requires i < |zs| && zs[i].Some?
    requires Prior(Positions(zs, entry, exitBand), i) == 0
    ensures var p := Positions(zs, entry, exitBand)[i]; var v := zs[i].value;
      && (v > entry ==> p == -1)
      && (v <= entry && v < -entry ==> p == 1)
      && (-entry <= v <= entry ==> p == 0)
  {
    PositionsFollowStep(zs, i, entry, exitBand);
  }

  /**
   From a held position: flat exactly when the z-score lies in the neutral band
   [-exitBand, exitBand]; otherwise the position is held. It never flips
   between +1 and -1 in one step.
   */
  lemma ExitFromHeld(zs: seq<Option<real>>, i: nat, entry: real, exitBand: real)
    requires i < |zs| && zs[i].Some?
    requires Prior(Positions(zs, entry, exitBand), i) != 0
    ensures var ps := Positions(zs, entry, exitBand); var v := zs[i].value;
      && (ps[i] == 0 <==> -exitBand <= v <= exitBand)
      && (ps[i] != 0 ==> ps[i] == Prior(ps, i))
  {
    PositionsFollowStep(zs, i, entry, exitBand);
  }

  /**
   The transitions the machine allows between consecutive dates: it never
   jumps between +1 and -1, it leaves flat only on a defined z-score beyond the
   entry threshold, and it goes flat only on a defined z-score inside the band.
   */
  lemma AllowedTransitions(zs: seq<Option<real>>, i: nat, entry: real, exitBand: real)
    requires 0 < i < |zs|
    ensures var ps := Positions(zs, entry, exitBand);
      && (ps[i - 1] != 0 ==> ps[i] == 0 || ps[i] == ps[i - 1])
      && (ps[i - 1] == 0 && ps[i] != 0 ==> zs[i].Some? && (zs[i].value > entry || zs[i].value < -entry))
      && (ps[i - 1] != 0 && ps[i] == 0 ==> zs[i].Some? && -exitBand <= zs[i].value <= exitBand)
  {
    PositionsFollowStep(zs, i, entry, exitBand);
  }

  /** A series with no defined z-score (all windows incomplete) never leaves flat. */
  lemma {:induction false} NoSignalStaysFlat(zs: seq<Option<real>>, entry: real, exitBand: real)
    requires forall i :: 0 <= i < |zs| ==> zs[i].None?
    ensures forall i :: 0 <= i < |zs| ==> Positions(zs, entry, exitBand)[i] == 0
    decreases |zs|
  {
    if |zs| > 0 {
      NoSignalStaysFlat(zs[..|zs| - 1], entry, exitBand);
    }
  }

  /** The loop of `build_signals`, written as the source writes it. */
  method BuildPositions(z: seq<Option<real>>, entry: real, exitBand: real) returns (pos: seq<int>)
    ensures pos == Positions(z, entry, exitBand)
  {
    pos := [];
    var current := 0;
    var i := 0;
    while i < |z|
      invariant 0 <= i <= |z|
      invariant pos == Positions(z[..i], entry, exitBand)
      invariant current == Prior(pos, i)
    {
      assert z[..i + 1][..i] == z[..i];
      match z[i] {
        case None =>
          pos := pos + [current];
        case Some(val) =>
          if current == 0 {
            if val > entry {
              current := -1;
            } else if val < -entry {
              current := 1;
            }
          } else {
            if -exitBand <= val <= exitBand {
              current := 0;
            }
          }
          pos := pos + [current];
      }
      i := i + 1;
    }
    assert z[..|z|] == z;
  }
}
