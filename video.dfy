// The older video tracker: the linear map from floor bounds to [-1, 1],
// the axis swap of `/pf/update`, the mouse id that cycles through eight
// ids, the app selection from its own code or a TouchOSC button, and the
// bounds messages.
//
// The visualizers themselves (their start, stop, update and drawing), the
// synthesizer, the OSC transport and the `Positions` class beyond the last
// position of each id are not part of this model.

module VideoTracker {
  import opened Common
  import Tracker

  /** The number of apps (`visnames` and `vispos` have nine entries). */
  const NumApps: nat := 9

  /** `mapposition` on one axis: `lo` goes to -1 and `hi` to 1. Equal bounds
      divide by zero (a non-finite float), reported as `None`. */
  function MapAxis(v: real, lo: real, hi: real): (r: Option<real>)
    ensures r.Some? <==> lo != hi
  {
    if hi - lo == 0.0 then None else Some((v - lo) / (hi - lo) * 2.0 - 1.0)
  }

  /** The inverse of `MapAxis`: from [-1, 1] back to the floor. */
  function UnmapAxis(n: real, lo: real, hi: real): real
  {
    lo + (n + 1.0) / 2.0 * (hi - lo)
  }

  /** `mapposition`: both axes. */
  function MapPosition(x: real, y: real, minx: real, maxx: real, miny: real, maxy: real): (r: Option<Point>)
    ensures r.Some? <==> minx != maxx && miny != maxy
  {
    var mx, my := MapAxis(x, minx, maxx), MapAxis(y, miny, maxy);
    if mx.Some? && my.Some? then Some(Point(mx.value, my.value)) else None
  }

  lemma DivSelf(d: real)
    requires d != 0.0
    ensures d / d == 1.0 && 0.0 / d == 0.0
  {
  }

  lemma MulDivCancel(a: real, d: real)
    requires d != 0.0
    ensures (a * d) / d == a
  {
  }

  /** The low bound maps to -1, the high bound to 1 and the midpoint to 0. */
  lemma {:induction false} MapAxisLandmarks(lo: real, hi: real)
    requires lo != hi
    ensures MapAxis(lo, lo, hi) == Some(-1.0)
    ensures MapAxis(hi, lo, hi) == Some(1.0)
    ensures MapAxis((lo + hi) / 2.0, lo, hi) == Some(0.0)
  {
    var d := hi - lo;
    DivSelf(d);
    assert (lo - lo) / d == 0.0;
    assert (hi - lo) / d == 1.0;
    assert (lo + hi) / 2.0 - lo == d / 2.0;
    assert (d / 2.0) / d == 0.5;
  }

  /** Mapping and unmapping are inverse. */
  lemma {:induction false} MapAxisRoundTrip(v: real, n: real, lo: real, hi: real)
    requires lo != hi
    ensures UnmapAxis(MapAxis(v, lo, hi).value, lo, hi) == v
    ensures MapAxis(UnmapAxis(n, lo, hi), lo, hi) == Some(n)
  {
    var d := hi - lo;
    var q := (v - lo) / d;
    assert q * d == v - lo;
    assert (q * 2.0 - 1.0 + 1.0) / 2.0 == q;
    var u := UnmapAxis(n, lo, hi);
    var a := (n + 1.0) / 2.0;
    assert u - lo == a * d;
    MulDivCancel(a, d);
    assert (u - lo) / d == (a * d) / d == a;
    assert (u - lo) / d * 2.0 - 1.0 == n;
  }

  /** The map is linear: an increasing map when `lo < hi`, with the floor
      interval [lo, hi] going onto [-1, 1]. */
  lemma {:induction false} MapAxisMonotone(a: real, b: real, lo: real, hi: real)
    requires lo < hi && a <= b
    ensures MapAxis(a, lo, hi).value <= MapAxis(b, lo, hi).value
    ensures lo <= a <= hi ==> -1.0 <= MapAxis(a, lo, hi).value <= 1.0
  {
    var d := hi - lo;
    assert (a - lo) / d <= (b - lo) / d by {
      assert (b - lo) / d - (a - lo) / d == (b - a) / d;
    }
    if lo <= a <= hi {
      assert (a - lo) / d <= 1.0 by {
        assert (hi - lo) / d == 1.0;
        assert (hi - lo) / d - (a - lo) / d == (hi - a) / d;
      }
    }
  }

  /** The mouse id after a release: ids 90 to 97 in turn, 97 going back to 90. */
  function NextMouseId(m: int): (r: int)
    requires 90 <= m <= 97
    ensures 90 <= r <= 97
    ensures r == (if m == 97 then 90 else m + 1)
  {
    (m - 90 + 1) % 8 + 90
  }

  /** Eight releases bring the mouse id back to where it started. */
  lemma {:induction false} EightReleasesCycle(m: int)
    requires 90 <= m <= 97
    ensures NextMouseId(NextMouseId(NextMouseId(NextMouseId(
              NextMouseId(NextMouseId(NextMouseId(NextMouseId(m)))))))) == m
  {
  }

  /** The `vispos` table: the TouchOSC button of each app, as "row/col". */
  const VisPosTable: seq<Tracker.Button> :=
    [Tracker.Button(5, 1), Tracker.Button(5, 2), Tracker.Button(5, 3), Tracker.Button(5, 4), Tracker.Button(5, 5),
     Tracker.Button(4, 1), Tracker.Button(4, 2), Tracker.Button(4, 3), Tracker.Button(4, 4)]

  /** The table follows the rule the newer tracker computes, so no button
      names two apps. */
  lemma {:induction false} VisPosTableIsRule(i: nat, j: nat)
    requires i < NumApps && j < NumApps
    ensures VisPosTable[i] == Tracker.VisPos(i)
    ensures VisPosTable[i] == VisPosTable[j] ==> i == j
  {
    assert VisPosTable[i] == Tracker.VisPos(i) && VisPosTable[j] == Tracker.VisPos(j);
    Tracker.VisPosInjective(i, j);
  }

  /** Only the button of app `a` is lit. */
  function OnlyLit(a: int): (lit: seq<bool>)
    ensures |lit| == NumApps
    ensures forall k :: 0 <= k < NumApps ==> (lit[k] <==> k == a)
  {
    seq(NumApps, k => k == a)
  }

  class VideoTracker {
    var minx: real
    var maxx: real
    var miny: real
    var maxy: real
    var currentvis: int
    var mouseId: int
    /** The app buttons of the TouchOSC page, as last sent. */
    var lit: seq<bool>
    /** The last mapped position of each id. */
    var positions: map<int, Option<Point>>

    /** An app is selected, its button is the only one lit, and the mouse id
        is one of the eight. */
    ghost predicate Valid()
      reads this
    {
      0 <= currentvis < NumApps && lit == OnlyLit(currentvis) && 90 <= mouseId <= 97
    }

    /** `setup`: bounds of 3.2 m around the origin, mouse id 90, and app 8
        selected. */
    constructor ()
      ensures Valid()
      ensures minx == -3.2 && maxx == 3.2 && miny == -3.2 && maxy == 3.2
      ensures currentvis == 8 && mouseId == 90 && positions == map[]
    {
      minx, maxx, miny, maxy := -3.2, 3.2, -3.2, 3.2;
      mouseId := 90;
      currentvis := -1;
      lit := seq(NumApps, _ => false);
      positions := map[];
      new;
      SetApp(8);
    }

    /** `setapp` with the bound corrected to `appNum >= vis.length`: a
        valid app number turns off every other button, becomes the current
        app and lights its own button; anything else changes nothing. */
    method SetApp(appNum: int)
      requires -1 <= currentvis < NumApps && |lit| == NumApps
      modifies this`currentvis, this`lit
      ensures currentvis == Tracker.SetAppTarget(NumApps, old(currentvis), appNum)
      ensures 0 <= appNum < NumApps ==> lit == OnlyLit(appNum)
      ensures !(0 <= appNum < NumApps) ==> lit == old(lit)
    {
      if appNum < 0 || appNum >= NumApps {
        return;
      }
      for k := 0 to NumApps
        invariant |lit| == NumApps
        invariant forall j :: 0 <= j < k && j != appNum ==> !lit[j]
        invariant forall j :: k <= j < NumApps ==> lit[j] == old(lit)[j]
        invariant currentvis == old(currentvis)
      {
        if k != appNum {
          lit := lit[k := false];
        }
      }
      currentvis := appNum;
      lit := lit[appNum := true];
    }

    /** `vsetapp`: the first app whose button the message names is selected;
        a message naming no app button changes nothing. */
    method VSetApp(button: Tracker.Button)
      requires Valid()
      modifies this`currentvis, this`lit
      ensures Valid()
      ensures forall i :: 0 <= i < NumApps && VisPosTable[i] == button ==> currentvis == i
      ensures (forall i :: 0 <= i < NumApps ==> VisPosTable[i] != button) ==>
        currentvis == old(currentvis) && lit == old(lit)
    {
      for i := 0 to NumApps
        invariant forall k :: 0 <= k < i ==> VisPosTable[k] != button
        invariant currentvis == old(currentvis) && lit == old(lit)
      {
        if VisPosTable[i] == button {
          SetApp(i);
          forall k | 0 <= k < NumApps && VisPosTable[k] == button
            ensures k == i
          {
            VisPosTableIsRule(k, i);
          }
          return;
        }
      }
    }

    /** `mouseReleased`: the next of the eight mouse ids. */
    method MouseReleased()
      requires Valid()
      modifies this`mouseId
      ensures Valid()
      ensures mouseId == NextMouseId(old(mouseId))
    {
      mouseId := (mouseId - 90 + 1) % 8 + 90;
    }

    /** `pfupdate`: the fourth argument is taken as y and the fifth as x;
        y is negated, and the person is moved to the mapped position. */
    method PfUpdate(sampnum: int, elapsed: real, id: int, ypos: real, xpos: real,
                    yvelocity: real, xvelocity: real, majoraxis: real, minoraxis: real,
                    groupid: int, groupsize: int, channel: int)
      modifies this`positions
      ensures positions == old(positions)[id := MapPosition(xpos, -ypos, minx, maxx, miny, maxy)]
    {
      var y := -ypos;
      positions := positions[id := MapPosition(xpos, y, minx, maxx, miny, maxy)];
    }

    /** `pfsetminx`: no check against the other bound. */
    method PfSetMinX(v: real)
      modifies this`minx
      ensures minx == v
    {
      minx := v;
    }

    method PfSetMaxX(v: real)
      modifies this`maxx
      ensures maxx == v
    {
      maxx := v;
    }

    method PfSetMinY(v: real)
      modifies this`miny
      ensures miny == v
    {
      miny := v;
    }

    method PfSetMaxY(v: real)
      modifies this`maxy
      ensures maxy == v
    {
      maxy := v;
    }
  }

  /** The bounds messages take any value: setting `maxx` to `minx` makes
      every later `pfupdate` position non-finite. */
  lemma {:induction false} EqualBoundsLoseEveryPosition(x: real, y: real, b: real, miny: real, maxy: real)
    ensures MapPosition(x, y, b, b, miny, maxy).None?
  {
  }
}
