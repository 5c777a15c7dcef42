// One tracked leg of the LIDAR front end: its history of positions, the
// prediction step with its position variance, the visibility counter and
// the diameter update.
//
// The likelihood grid and its search, the velocity filter and the messages
// are not part of this model. A NaN `maxlike` is `None`: every comparison
// with it is false.

module LegModel {
  import opened Common

  /** The tuning constants of the front end the leg code reads. */
  datatype LegParams = LegParams(
    initialPositionVar: real, maxPositionVar: real,
    initLegDiam: real, legDiamSigma: real,
    minLikeForUpdates: real,
    minLegDiam: real, maxLegDiam: real, legDiamTC: real)

  /** The history is trimmed when it grows past this many entries... */
  const MaxHistory: nat := 1000
  /** ...by dropping this many of the oldest. */
  const HistoryDrop: nat := 500

  // ---------------------------------------------------------------------
  // The history of positions
  // ---------------------------------------------------------------------

  /** `savePriorPositions` on the history `h`: append `p`; past 1000
      entries, drop the oldest 500. */
  function AppendCapped(h: seq<Point>, p: Point): (r: seq<Point>)
    ensures |r| > 0 && r[|r| - 1] == p
    ensures |h| <= MaxHistory ==> |r| <= MaxHistory
    ensures |r| == |h| + 1 || (|h| + 1 > MaxHistory && |r| == |h| + 1 - HistoryDrop)
    ensures r == (h + [p])[|h| + 1 - |r|..]
  {
    var a := h + [p];
    if |a| > MaxHistory then a[HistoryDrop..] else a
  }

  /** `getPriorPosition(n)`: the n-th most recent entry; for n past the
      history, the oldest entry, or the origin if there is none. */
  function PriorPosition(h: seq<Point>, n: int): (r: Point)
    requires n > 0
    ensures n <= |h| ==> r == h[|h| - n]
    ensures n > |h| ==> r == (if |h| > 0 then h[0] else Origin)
  {
    if n > |h| then
      if |h| > 0 then h[0] else Origin
    else h[|h| - n]
  }

  /** `getPriorDelta(n)`: the step from entry n+1 back to entry n back, or
      zero while the history is shorter than n+1. */
  function PriorDelta(h: seq<Point>, n: int): (r: Point)
    requires n > 0
  {
    if n + 1 > |h| then Origin
    else h[|h| - n].Minus(h[|h| - n - 1])
  }

  /** The delta is the difference of the two positions it spans. */
  lemma DeltaIsDifferenceOfPositions(h: seq<Point>, n: int)
    requires n > 0
    ensures n + 1 <= |h| ==> PriorDelta(h, n) == PriorPosition(h, n).Minus(PriorPosition(h, n + 1))
    ensures n + 1 > |h| ==> PriorDelta(h, n) == Origin
  {
  }

  /** After a save, the most recent position is the one saved, and every
      position up to the length of the trimmed history moves one step back. */
  lemma {:induction false} SaveShiftsHistory(h: seq<Point>, p: Point, n: int)
    requires n > 0
    ensures PriorPosition(AppendCapped(h, p), 1) == p
    ensures n < |AppendCapped(h, p)| ==> PriorPosition(AppendCapped(h, p), n + 1) == PriorPosition(h, n)
  {
    var r := AppendCapped(h, p);
    if n < |r| {
      assert r[|r| - (n + 1)] == (h + [p])[|h| + 1 - |r| + |r| - (n + 1)];
    }
  }

  /** Trimming keeps at least the 501 most recent positions. */
  lemma {:induction false} TrimKeepsRecent(h: seq<Point>, p: Point)
    requires |h| <= MaxHistory
    ensures |AppendCapped(h, p)| >= MaxHistory - HistoryDrop + 1 || |AppendCapped(h, p)| == |h| + 1
  {
  }

  // ---------------------------------------------------------------------
  // Prediction
  // ---------------------------------------------------------------------

  /** The weighted sum of the first `k` prior positions of `h`. */
  function WeightedPrior(w: seq<real>, h: seq<Point>, k: nat): Point
    requires k <= |w|
  {
    if k == 0 then Origin
    else WeightedPrior(w, h, k - 1).Plus(PriorPosition(h, k).Scale(w[k - 1]))
  }

  function Sum(w: seq<real>, k: nat): real
    requires k <= |w|
  {
    if k == 0 then 0.0 else Sum(w, k - 1) + w[k - 1]
  }

  /** A leg that has stood still at `p` (the whole history is `p`) is
      predicted at `p` scaled by the sum of the weights. */
  lemma {:induction false} StationaryPrior(w: seq<real>, h: seq<Point>, p: Point, k: nat)
    requires k <= |w| && |h| > 0
    requires forall i :: 0 <= i < |h| ==> h[i] == p
    ensures WeightedPrior(w, h, k) == p.Scale(Sum(w, k))
  {
    if k > 0 {
      StationaryPrior(w, h, p, k - 1);
      assert PriorPosition(h, k) == p;
      assert Sum(w, k) * p.x == Sum(w, k - 1) * p.x + w[k - 1] * p.x;
      assert Sum(w, k) * p.y == Sum(w, k - 1) * p.y + w[k - 1] * p.y;
    }
  }

  /** With both legs still at `p` and weights summing to one, the
      prediction is `p`: the predictor has no drift. */
  lemma {:induction false} StationaryLegsPredictNoMotion(same: seq<real>, other: seq<real>,
                                                        h: seq<Point>, ho: seq<Point>, p: Point)
    requires |h| > 0 && |ho| > 0
    requires forall i :: 0 <= i < |h| ==> h[i] == p
    requires forall i :: 0 <= i < |ho| ==> ho[i] == p
    requires Sum(same, |same|) + Sum(other, |other|) == 1.0
    ensures WeightedPrior(same, h, |same|).Plus(WeightedPrior(other, ho, |other|)) == p
  {
    var a, b := Sum(same, |same|), Sum(other, |other|);
    StationaryPrior(same, h, p, |same|);
    StationaryPrior(other, ho, p, |other|);
    ScaleSplit(p, a, b);
  }

  /** The new position variance of `predict`: grown by rmse squared, capped. */
  function GrownVariance(posvar: real, rmse: real, maxVar: real): (v: real)
    ensures v <= maxVar
    ensures v <= posvar + rmse * rmse
    ensures v == maxVar || v == posvar + rmse * rmse
  {
    MinR(posvar + rmse * rmse, maxVar)
  }

  // ---------------------------------------------------------------------
  // Visibility and diameter
  // ---------------------------------------------------------------------

  /** `maxlike < bound`, false when `maxlike` is NaN. */
  predicate Below(maxlike: Option<real>, bound: real)
  {
    maxlike.Some? && maxlike.value < bound
  }

  /** Some scan point of the leg is clearly in front of the background. */
  predicate SeenAgainstBackground(maxlike: Option<real>, scanpts: seq<int>, bglike: seq<real>)
    requires forall i :: 0 <= i < |scanpts| ==> 0 <= scanpts[i] < |bglike|
  {
    maxlike.Some? && exists i :: 0 <= i < |scanpts| && bglike[scanpts[i]] < maxlike.value - 20.0
  }

  /** The counter after `updateVisibility`: +2 when the leg had no usable
      fit (the first branch falls through to the second increment), 0 when
      some scan point is clearly in front of the background, +1 otherwise. */
  function NextInvisibleCount(count: int, maxlike: Option<real>, scanpts: seq<int>,
                              bglike: seq<real>, minLike: real): int
    requires forall i :: 0 <= i < |scanpts| ==> 0 <= scanpts[i] < |bglike|
  {
    if Below(maxlike, minLike) || |scanpts| == 0 then count + 2
    else if SeenAgainstBackground(maxlike, scanpts, bglike) then 0
    else count + 1
  }

  /** The counter restarts exactly when the leg was fitted and seen; for a
      count from 0 up it otherwise grows by one or two. */
  lemma VisibilityResetIff(count: nat, maxlike: Option<real>, scanpts: seq<int>, bglike: seq<real>, minLike: real)
    requires forall i :: 0 <= i < |scanpts| ==> 0 <= scanpts[i] < |bglike|
    ensures var c := NextInvisibleCount(count, maxlike, scanpts, bglike, minLike);
      (c == 0 <==> !Below(maxlike, minLike) && |scanpts| > 0 && SeenAgainstBackground(maxlike, scanpts, bglike)) &&
      (c != 0 ==> c == count + 1 || c == count + 2)
  {
  }

  /** A NaN fit is never "below the minimum", but is never seen either: with
      scan points it counts one invisible frame. */
  lemma NaNFitCountsOnce(count: int, scanpts: seq<int>, bglike: seq<real>, minLike: real)
    requires forall i :: 0 <= i < |scanpts| ==> 0 <= scanpts[i] < |bglike|
    requires |scanpts| > 0
    ensures NextInvisibleCount(count, None, scanpts, bglike, minLike) == count + 1
  {
  }

  /** The clamp of `updateDiameterEstimates`: `max(min(d, hi), lo)`. */
  function ClampDiam(d: real, lo: real, hi: real): (r: real)
    ensures lo <= hi ==> lo <= r <= hi
    ensures lo <= d <= hi ==> r == d
    ensures r == d || r == lo || r == hi
  {
    MaxR(MinR(d, hi), lo)
  }

  /** The smoothing of `updateDiameter` with time constant `tc`. */
  function Blend(d: real, newDiam: real, tc: real): real
    requires tc != 0.0
  {
    d * (1.0 - 1.0 / tc) + newDiam / tc
  }

  /** With a time constant of at least one, the smoothed diameter lies
      between the old diameter and the new estimate, so it stays in any
      range that holds both. */
  lemma {:induction false} BlendStaysBetween(d: real, nd: real, tc: real, lo: real, hi: real)
    requires tc >= 1.0 && lo <= d <= hi && lo <= nd <= hi
    ensures lo <= Blend(d, nd, tc) <= hi
  {
    var a := 1.0 / tc;
    assert 0.0 < a <= 1.0;
    assert nd / tc == nd * a;
    assert Blend(d, nd, tc) == d + a * (nd - d);
    assert lo <= d + a * (nd - d) <= hi by {
      if nd >= d {
        assert 0.0 <= a * (nd - d) <= nd - d;
      } else {
        assert nd - d <= a * (nd - d) <= 0.0;
      }
    }
  }

  // ---------------------------------------------------------------------
  // The leg
  // ---------------------------------------------------------------------

  class Leg {
    var position: Point
    var predictedPosition: Point
    var posvar: real
    var prevposvar: real
    var diam: real
    var diamSigma: real
    var updateDiam: bool
    var consecutiveInvisibleCount: int
    var velocity: Point
    var like: seq<real>
    var scanpts: seq<int>
    var maxlike: Option<real>
    var likenx: int
    var likeny: int
    var minval: Option<Point>
    var maxval: Option<Point>
    var priorPositions: seq<Point>

    /** `Leg(pt)`: at `pt` with the initial variance and diameter; diameter
        updates are switched off. */
    constructor (pt: Point, prm: LegParams)
      ensures position == pt && predictedPosition == pt
      ensures posvar == prm.initialPositionVar && prevposvar == posvar
      ensures diam == prm.initLegDiam && diamSigma == prm.legDiamSigma && !updateDiam
      ensures consecutiveInvisibleCount == 0 && velocity == Origin
      ensures like == [] && scanpts == [] && maxlike.None? && likenx == 0 && likeny == 0
      ensures minval.None? && maxval.None? && priorPositions == []
    {
      position := pt;
      predictedPosition := pt;
      posvar := prm.initialPositionVar;
      prevposvar := prm.initialPositionVar;
      diam := prm.initLegDiam;
      diamSigma := prm.legDiamSigma;
      updateDiam := false;
      consecutiveInvisibleCount := 0;
      velocity := Origin;
      like := [];
      scanpts := [];
      maxlike := None;
      likenx := 0;
      likeny := 0;
      minval := None;
      maxval := None;
      priorPositions := [];
    }

    /** `savePriorPositions`. */
    method SavePriorPositions()
      modifies this`priorPositions
      ensures priorPositions == AppendCapped(old(priorPositions), position)
    {
      var a := priorPositions + [position];
      if |a| > MaxHistory {
        a := a[HistoryDrop..];
      }
      priorPositions := a;
    }

    /** The two sums of `predict`: this leg's recent positions and the
        other leg's, each under its weights. */
    static method PredictedPosition(same: seq<real>, h: seq<Point>, otherW: seq<real>, otherHistory: seq<Point>)
      returns (p: Point)
      ensures p == WeightedPrior(same, h, |same|).Plus(WeightedPrior(otherW, otherHistory, |otherW|))
    {
      var s := Origin;
      for i := 0 to |same|
        invariant s == WeightedPrior(same, h, i)
      {
        s := s.Plus(PriorPosition(h, i + 1).Scale(same[i]));
      }
      var o := Origin;
      for i := 0 to |otherW|
        invariant o == WeightedPrior(otherW, otherHistory, i)
      {
        o := o.Plus(PriorPosition(otherHistory, i + 1).Scale(otherW[i]));
      }
      p := s.Plus(o);
      assert p == WeightedPrior(same, h, |same|).Plus(WeightedPrior(otherW, otherHistory, |otherW|)) by {
        assert WeightedPrior(same, h, |same|) == s;
        PlusAssociative(s, o);
      }
    }

    /** The per-frame fit that `predict` clears. */
    method ClearFit()
      modifies this`like, this`scanpts, this`maxlike, this`likenx, this`likeny, this`minval, this`maxval
      ensures like == [] && scanpts == [] && maxlike.None? && likenx == 0 && likeny == 0
      ensures minval.None? && maxval.None?
    {
      like, scanpts, maxlike := [], [], None;
      likenx, likeny := 0, 0;
      minval, maxval := None, None;
    }

    /** `predict`: move to the weighted prediction, grow the variance by the
        square of `0.08 |delta| + 7` (the length `norm` is given), capped,
        and clear the per-frame fit. */
    method Predict(other: Leg, same: seq<real>, otherW: seq<real>, norm: Point -> real, prm: LegParams)
      modifies this`position, this`predictedPosition, this`posvar, this`prevposvar
      modifies this`like, this`scanpts, this`maxlike, this`likenx, this`likeny, this`minval, this`maxval
      ensures var p := WeightedPrior(same, old(priorPositions), |same|).Plus(WeightedPrior(otherW, old(other.priorPositions), |otherW|));
        var rmse := norm(p.Minus(PriorPosition(old(priorPositions), 1))) * 0.08 + 7.0;
        position == p && predictedPosition == p &&
        posvar == GrownVariance(old(posvar), rmse, prm.maxPositionVar)
      ensures prevposvar == old(posvar)
      ensures posvar <= prm.maxPositionVar
      ensures like == [] && scanpts == [] && maxlike.None? && likenx == 0 && likeny == 0
      ensures minval.None? && maxval.None?
    {
      var newPosition := PredictedPosition(same, priorPositions, otherW, other.priorPositions);
      var newDelta := newPosition.Minus(PriorPosition(priorPositions, 1));
      var rmse := norm(newDelta) * 0.08 + 7.0;
      var grown := GrownVariance(posvar, rmse, prm.maxPositionVar);
      position, predictedPosition := newPosition, newPosition;
      prevposvar, posvar := posvar, grown;
      ClearFit();
    }

    /** `updateVisibility`, scanning the leg's points against the background
        likelihood of each scan. */
    method UpdateVisibility(bglike: seq<real>, prm: LegParams)
      requires forall i :: 0 <= i < |scanpts| ==> 0 <= scanpts[i] < |bglike|
      modifies this`consecutiveInvisibleCount
      ensures consecutiveInvisibleCount ==
        NextInvisibleCount(old(consecutiveInvisibleCount), maxlike, scanpts, bglike, prm.minLikeForUpdates)
    {
      if Below(maxlike, prm.minLikeForUpdates) || |scanpts| == 0 {
        consecutiveInvisibleCount := consecutiveInvisibleCount + 1;
      } else {
        for i := 0 to |scanpts|
          invariant maxlike.Some? ==> forall k :: 0 <= k < i ==> !(bglike[scanpts[k]] < maxlike.value - 20.0)
          invariant consecutiveInvisibleCount == old(consecutiveInvisibleCount)
        {
          if maxlike.Some? && bglike[scanpts[i]] < maxlike.value - 20.0 {
            consecutiveInvisibleCount := 0;
            return;
          }
        }
      }
      consecutiveInvisibleCount := consecutiveInvisibleCount + 1;
    }

    /** `updateDiameter`: smooth towards the new estimate, but only when
        diameter updates are on; the constructor turns them off. */
    method UpdateDiameter(newDiam: real, prm: LegParams)
      requires prm.legDiamTC != 0.0
      modifies this`diam
      ensures updateDiam ==> diam == Blend(old(diam), newDiam, prm.legDiamTC)
      ensures !updateDiam ==> diam == old(diam)
    {
      if updateDiam {
        diam := diam * (1.0 - 1.0 / prm.legDiamTC) + newDiam / prm.legDiamTC;
      }
    }

    /** `updateDiameterEstimates`: the current diameter corrected by the
        scan error along the line of sight (given: it needs a unit vector),
        clamped, then passed to `updateDiameter`. */
    method UpdateDiameterEstimates(scanError: real, prm: LegParams)
      requires prm.legDiamTC != 0.0
      modifies this`diam
      ensures var est := ClampDiam(old(diam) + scanError, prm.minLegDiam, prm.maxLegDiam);
        diam == (if updateDiam then Blend(old(diam), est, prm.legDiamTC) else old(diam))
    {
      var diamEstimate := diam + scanError;
      diamEstimate := MaxR(MinR(diamEstimate, prm.maxLegDiam), prm.minLegDiam);
      UpdateDiameter(diamEstimate, prm);
    }
  }

  lemma ScaleSplit(p: Point, a: real, b: real)
    requires a + b == 1.0
    ensures p.Scale(a).Plus(p.Scale(b)) == p
  {
    assert a * p.x + b * p.x == (a + b) * p.x;
    assert a * p.y + b * p.y == (a + b) * p.y;
  }

  lemma PlusAssociative(a: Point, b: Point)
    ensures a.Plus(b) == Point(a.x + b.x, a.y + b.y)
  {
  }
}
