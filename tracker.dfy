// The state of the Java tracker application that the OSC handlers change:
// the floor bounds and their clamp to the projectors' coverage, the LIDAR
// bounds, the people map, the list of visualizers and the current one, the
// alignment corners, the per-projector calibration matrices, and the masks
// that `resetcoords` resizes through `makeCanvases`.
//
// Sending OSC, saving the configuration and the visualizers' own start/stop
// are not part of this model; the canvas size, which needs a square root, is
// a function of the bounds given at construction.

module Tracker {
  import opened Common
  import opened Coords
  import People
  import Masks

  /** A registered visualizer: its name and whether `cycle` may select it. */
  datatype Visualizer = Visualizer(name: string, selectable: bool)

  // ---------------------------------------------------------------------
  // Projector coverage and the clamp of `resetcoords`
  // ---------------------------------------------------------------------

  /** The extents `resetcoords` starts from before it has seen any point:
      min at 100, max at -100. */
  const NoCoverage: Bounds := Bounds(100.0, -100.0, 100.0, -100.0)

  /** One step of the extent loop: widen `e` to take in `p`. */
  function Include(e: Bounds, p: Point): Bounds
  {
    Bounds(MinR(e.minx, p.x), MaxR(e.maxx, p.x), MinR(e.miny, p.y), MaxR(e.maxy, p.y))
  }

  /** `e` widened by the points of one projector's bounds, in order. */
  function Extent(e: Bounds, pts: seq<Point>): (r: Bounds)
    ensures r.minx <= e.minx && r.miny <= e.miny && e.maxx <= r.maxx && e.maxy <= r.maxy
    ensures forall k :: 0 <= k < |pts| ==>
      r.minx <= pts[k].x <= r.maxx && r.miny <= pts[k].y <= r.maxy
  {
    if |pts| == 0 then e
    else Include(Extent(e, pts[..|pts| - 1]), pts[|pts| - 1])
  }

  /** Each side of an extent is the starting one or some point's coordinate. */
  lemma {:induction false} ExtentAttained(e: Bounds, pts: seq<Point>)
    ensures var r := Extent(e, pts);
      (r.minx == e.minx || exists k :: 0 <= k < |pts| && pts[k].x == r.minx) &&
      (r.maxx == e.maxx || exists k :: 0 <= k < |pts| && pts[k].x == r.maxx) &&
      (r.miny == e.miny || exists k :: 0 <= k < |pts| && pts[k].y == r.miny) &&
      (r.maxy == e.maxy || exists k :: 0 <= k < |pts| && pts[k].y == r.maxy)
  {
    if |pts| > 0 {
      var init := pts[..|pts| - 1];
      ExtentAttained(e, init);
      assert forall k :: 0 <= k < |init| ==> init[k] == pts[k];
    }
  }

  /** The bounding box of every projector's bounds, from `NoCoverage`. */
  function CoverageOf(pb: seq<seq<Point>>): (r: Bounds)
    ensures r.minx <= 100.0 && r.miny <= 100.0 && -100.0 <= r.maxx && -100.0 <= r.maxy
    ensures forall i, k :: 0 <= i < |pb| && 0 <= k < |pb[i]| ==>
      r.minx <= pb[i][k].x <= r.maxx && r.miny <= pb[i][k].y <= r.maxy
  {
    if |pb| == 0 then NoCoverage
    else
      var prev := CoverageOf(pb[..|pb| - 1]);
      assert forall i :: 0 <= i < |pb| - 1 ==> pb[..|pb| - 1][i] == pb[i];
      Extent(prev, pb[|pb| - 1])
  }

  /** Each side of the coverage is the sentinel or some projector point's
      coordinate. */
  lemma {:induction false} CoverageAttained(pb: seq<seq<Point>>)
    ensures var r := CoverageOf(pb);
      (r.minx == 100.0 || exists i, k :: 0 <= i < |pb| && 0 <= k < |pb[i]| && pb[i][k].x == r.minx) &&
      (r.maxx == -100.0 || exists i, k :: 0 <= i < |pb| && 0 <= k < |pb[i]| && pb[i][k].x == r.maxx) &&
      (r.miny == 100.0 || exists i, k :: 0 <= i < |pb| && 0 <= k < |pb[i]| && pb[i][k].y == r.miny) &&
      (r.maxy == -100.0 || exists i, k :: 0 <= i < |pb| && 0 <= k < |pb[i]| && pb[i][k].y == r.maxy)
  {
    if |pb| > 0 {
      var init := pb[..|pb| - 1];
      CoverageAttained(init);
      ExtentAttained(CoverageOf(init), pb[|pb| - 1]);
      assert forall i :: 0 <= i < |init| ==> init[i] == pb[i];
    }
  }

  /** The inner loop of `resetcoords` over one projector's bounds. */
  method ExtentLoop(e0: Bounds, pts: seq<Point>) returns (e: Bounds)
    ensures e == Extent(e0, pts)
  {
    e := e0;
    for j := 0 to |pts|
      invariant e == Extent(e0, pts[..j])
    {
      e := Include(e, pts[j]);
      assert pts[..j + 1][..j] == pts[..j];
    }
    assert pts[..|pts|] == pts;
  }

  /** The nested loop of `resetcoords` over every projector's bounds. */
  method CoverageLoop(pb: seq<seq<Point>>) returns (e: Bounds)
    ensures e == CoverageOf(pb)
  {
    e := NoCoverage;
    for i := 0 to |pb|
      invariant e == CoverageOf(pb[..i])
    {
      e := ExtentLoop(e, pb[i]);
      assert pb[..i + 1][..i] == pb[..i];
    }
    assert pb[..|pb|] == pb;
  }

  /** The last step of `resetcoords`: constrain the bounds to the coverage. */
  function Clamp(b: Bounds, c: Bounds): Bounds
  {
    Bounds(MaxR(b.minx, c.minx), MinR(b.maxx, c.maxx), MaxR(b.miny, c.miny), MinR(b.maxy, c.maxy))
  }

  /** `resetcoords` only ever shrinks the bounds, keeps them inside the
      coverage, and a second reset changes nothing. */
  lemma ClampShrinks(b: Bounds, c: Bounds)
    ensures var r := Clamp(b, c);
      b.minx <= r.minx && r.maxx <= b.maxx && b.miny <= r.miny && r.maxy <= b.maxy &&
      c.minx <= r.minx && r.maxx <= c.maxx && c.miny <= r.miny && r.maxy <= c.maxy &&
      Clamp(r, c) == r
  {
  }

  /** The clamp does not keep the one-metre gap the setters insist on: with
      no projector points at all, bounds (-5, 5) x (0, 5) become
      (100, -100) x (100, -100), with min above max. */
  lemma {:induction false} ResetCanInvertBounds()
    ensures var r := Clamp(Bounds(-5.0, 5.0, 0.0, 5.0), CoverageOf([]));
      r == Bounds(100.0, -100.0, 100.0, -100.0) && r.minx > r.maxx
  {
    assert CoverageOf([]) == NoCoverage;
  }

  /** When the coverage contains the bounds, the clamp leaves them as they
      are, so a gap established by a setter survives the reset. */
  lemma ClampInsideCoverageIsIdentity(b: Bounds, c: Bounds)
    requires c.minx <= b.minx && b.maxx <= c.maxx && c.miny <= b.miny && b.maxy <= c.maxy
    ensures Clamp(b, c) == b
  {
  }

  // ---------------------------------------------------------------------
  // Visualizer selection
  // ---------------------------------------------------------------------

  /** The TouchOSC button of visualizer `i`: the page row `5 - i/5` and the
      column `i - 5*(i/5) + 1`, which `vispos` prints as "row/col". */
  datatype Button = Button(row: int, col: int)

  function VisPos(i: nat): (b: Button)
    ensures 1 <= b.col <= 5 && b.row <= 5
    ensures i == 5 * (5 - b.row) + (b.col - 1)
  {
    var row := i / 5;
    var col := i - row * 5;
    Button(5 - row, col + 1)
  }

  /** Distinct visualizers have distinct buttons, so a button names at most
      one visualizer. */
  lemma {:induction false} VisPosInjective(i: nat, j: nat)
    ensures VisPos(i) == VisPos(j) ==> i == j
  {
    var a, b := VisPos(i), VisPos(j);
    assert i == 5 * (5 - a.row) + (a.col - 1);
    assert j == 5 * (5 - b.row) + (b.col - 1);
  }

  /** The guard of `setapp` as the source writes it: `appNum > vis.length`
      rejects, so `appNum == vis.length` passes, `currentvis` is set to it
      and the following `vis[currentvis]` throws, leaving `currentvis` one
      past the end. Returns `currentvis` after the call. */
  function SetAppAsWritten(n: nat, cur: int, appNum: int): int
  {
    if appNum < 0 || appNum > n then cur
    else appNum
  }

  lemma {:induction false} SetAppAsWrittenLeavesInvalid(n: nat, cur: int)
    requires -1 <= cur < n
    ensures SetAppAsWritten(n, cur, n) == n
    ensures !(-1 <= SetAppAsWritten(n, cur, n) < n)
  {
  }

  /** The intended selection rule: an index of a visualizer is selected
      (selecting the current one again is a no-op), anything else is
      refused and leaves the selection as it was. */
  function SetAppTarget(n: nat, cur: int, appNum: int): (r: int)
    requires -1 <= cur < n
    ensures -1 <= r < n
    ensures 0 <= appNum < n ==> r == appNum
    ensures !(0 <= appNum < n) ==> r == cur
  {
    if appNum < 0 || appNum >= n then cur
    else appNum
  }

  /** The intended rule and the written one agree except at `vis.length`. */
  lemma {:induction false} SetAppDiffersOnlyAtLength(n: nat, cur: int, appNum: int)
    requires -1 <= cur < n
    ensures SetAppTarget(n, cur, appNum) != SetAppAsWritten(n, cur, appNum) <==> appNum == n && cur != n
  {
  }

  /** `pfsetnpeople(0)` "resets" with `setapp(currentvis)`, which selects
      what is already selected (or refuses -1): nothing changes. */
  lemma {:induction false} ResetIsNoOp(n: nat, cur: int)
    requires -1 <= cur < n
    ensures SetAppTarget(n, cur, cur) == cur
  {
  }

  /** Index `a` of a list of `n`, taken once around: Java's `a % n` for
      `0 <= a < 2n`. */
  function Wrap(a: int, n: nat): int
  {
    if a < n then a else a - n
  }

  /** Whether the visualizer `m` places after `cur` (wrapping) is selectable. */
  predicate Hit(sel: seq<bool>, cur: int, m: int)
  {
    var w := Wrap(cur + m, |sel|);
    0 <= w < |sel| && sel[w]
  }

  /** The visualizer `cycle` moves to: the first selectable one after `cur`,
      wrapping around, searched from offset `k`. */
  function NextSelectable(sel: seq<bool>, cur: int, k: nat): (r: nat)
    requires -1 <= cur < |sel| && 1 <= k <= |sel|
    requires exists m :: k <= m <= |sel| && Hit(sel, cur, m)
    ensures r < |sel| && sel[r]
    ensures exists m ::
      k <= m <= |sel| && Hit(sel, cur, m) && r == Wrap(cur + m, |sel|) &&
      (forall m' :: k <= m' < m ==> !Hit(sel, cur, m'))
    decreases |sel| - k
  {
    if Hit(sel, cur, k) then Wrap(cur + k, |sel|)
    else NextSelectable(sel, cur, k + 1)
  }

  /** If any visualizer is selectable, one is reached within one turn. */
  lemma {:induction false} SelectableWithinOneTurn(sel: seq<bool>, cur: int)
    requires -1 <= cur < |sel|
    requires exists j :: 0 <= j < |sel| && sel[j]
    ensures exists m :: 1 <= m <= |sel| && Hit(sel, cur, m)
  {
    var j :| 0 <= j < |sel| && sel[j];
    var m := if j > cur then j - cur else j - cur + |sel|;
    assert Wrap(cur + m, |sel|) == j;
    assert Hit(sel, cur, m);
  }

  /** Where `cycle` lands when some visualizer is selectable. */
  ghost function CycleTarget(sel: seq<bool>, cur: int): nat
    requires -1 <= cur < |sel|
    requires exists j :: 0 <= j < |sel| && sel[j]
  {
    SelectableWithinOneTurn(sel, cur);
    NextSelectable(sel, cur, 1)
  }

  /** The do-while loop of `cycle`: step with `(newvis + 1) % length`
      until a selectable visualizer is reached. */
  method NextIndex(sel: seq<bool>, cur: int) returns (newvis: nat)
    requires -1 <= cur < |sel|
    requires exists j :: 0 <= j < |sel| && sel[j]
    ensures newvis == CycleTarget(sel, cur)
  {
    var n := |sel|;
    SelectableWithinOneTurn(sel, cur);
    var k := 1;
    ModUpTo(cur + 1, n);
    newvis := (cur + 1) % n;
    while !sel[newvis]
      invariant 1 <= k <= n && newvis == Wrap(cur + k, n) && 0 <= newvis < n
      invariant exists m :: k <= m <= n && Hit(sel, cur, m)
      invariant NextSelectable(sel, cur, k) == NextSelectable(sel, cur, 1)
      decreases n - k
    {
      assert !Hit(sel, cur, k);
      ModUpTo(newvis + 1, n);
      k := k + 1;
      newvis := (newvis + 1) % n;
    }
  }

  /** Java's `%` on a value from 0 to `n`, as the loop of `cycle` uses it. */
  lemma ModUpTo(a: int, n: int)
    requires 0 <= a <= n && 0 < n
    ensures a % n == Wrap(a, n)
  {
    if a == n {
      assert a % n == 0;
    }
  }

  function Selectables(v: seq<Visualizer>): (s: seq<bool>)
    ensures |s| == |v| && forall i :: 0 <= i < |v| ==> s[i] == v[i].selectable
  {
    seq(|v|, i requires 0 <= i < |v| => v[i].selectable)
  }

  // ---------------------------------------------------------------------
  // Alignment corners and calibration matrices
  // ---------------------------------------------------------------------

  /** The outcome of `pfaligncorner`: the new corner list, and whether an
      exception cut the handler short. */
  datatype Aligned = Aligned(corners: seq<Option<Point>>, thrown: bool)

  /** `pfaligncorner`: a list of a different length is replaced by an empty
      one of `numCorners` slots (a negative size throws before anything
      changes); then a corner number from 0 up is stored, and one past the
      list throws after the replacement. */
  function AlignCorner(cs: seq<Option<Point>>, cornerNumber: int, numCorners: int, p: Point): (r: Aligned)
    ensures numCorners < 0 ==> r == Aligned(cs, true)
    ensures numCorners >= 0 ==> |r.corners| == numCorners
    ensures r.thrown <==> numCorners < 0 || cornerNumber >= numCorners
    ensures numCorners >= 0 && 0 <= cornerNumber < numCorners ==> r.corners[cornerNumber] == Some(p)
    ensures numCorners >= 0 ==> forall i :: 0 <= i < numCorners && i != cornerNumber ==>
      r.corners[i] == (if |cs| == numCorners then cs[i] else None)
  {
    if numCorners < 0 then Aligned(cs, true)
    else
      var slots := if |cs| == numCorners then cs else seq(numCorners, _ => None);
      if cornerNumber < 0 then Aligned(slots, false)
      else if cornerNumber < numCorners then Aligned(slots[cornerNumber := Some(p)], false)
      else Aligned(slots, true)
  }

  /** Resending every corner of a list of the right length stores them all. */
  lemma {:induction false} AlignCornerKeepsOthers(cs: seq<Option<Point>>, a: int, b: int, p: Point, q: Point)
    requires 0 <= a < |cs| && 0 <= b < |cs| && a != b
    ensures var r1 := AlignCorner(cs, a, |cs|, p).corners;
      var r2 := AlignCorner(r1, b, |cs|, q).corners;
      r2[a] == Some(p) && r2[b] == Some(q)
  {
    var r1 := AlignCorner(cs, a, |cs|, p).corners;
    assert |r1| == |cs|;
  }

  /** A 4x4 matrix in row-major order, as `PMatrix3D.set` takes it. */
  type Mat4 = m: seq<real> | |m| == 16 witness seq(16, _ => 0.0)

  /** The matrix times (x, y, z, 1). */
  function Apply(m: Mat4, x: real, y: real, z: real): (v: seq<real>)
    ensures |v| == 4
  {
    [m[0] * x + m[1] * y + m[2] * z + m[3],
     m[4] * x + m[5] * y + m[6] * z + m[7],
     m[8] * x + m[9] * y + m[10] * z + m[11],
     m[12] * x + m[13] * y + m[14] * z + m[15]]
  }

  /** `setscreen2world`: the 3x3 homography `h` embedded so that z passes
      through untouched. */
  function Screen2World(h: seq<real>): Mat4
    requires |h| == 9
  {
    [h[0], h[1], 0.0, h[2],
     h[3], h[4], 0.0, h[5],
     0.0,  0.0,  1.0, 0.0,
     h[6], h[7], 0.0, h[8]]
  }

  /** `setworld2screen`: the same embedding, but the depth row is constant 0.5. */
  function World2Screen(h: seq<real>): Mat4
    requires |h| == 9
  {
    [h[0], h[1], 0.0, h[2],
     h[3], h[4], 0.0, h[5],
     0.0,  0.0,  0.0, 0.5,
     h[6], h[7], 0.0, h[8]]
  }

  /** Both embeddings act on (x, y, *, 1) as the homography acts on (x, y, 1),
      whatever z is; screen-to-world keeps z, world-to-screen yields 0.5. */
  lemma {:induction false} EmbeddingsActAsHomography(h: seq<real>, x: real, y: real, z: real)
    requires |h| == 9
    ensures var s := Apply(Screen2World(h), x, y, z);
      s == [h[0] * x + h[1] * y + h[2], h[3] * x + h[4] * y + h[5], z, h[6] * x + h[7] * y + h[8]]
    ensures var w := Apply(World2Screen(h), x, y, z);
      w == [h[0] * x + h[1] * y + h[2], h[3] * x + h[4] * y + h[5], 0.5, h[6] * x + h[7] * y + h[8]]
  {
    var r0, r1, r3 := h[0] * x + h[1] * y, h[3] * x + h[4] * y, h[6] * x + h[7] * y;
    ZeroColumn(r0, h[2], z);
    ZeroColumn(r1, h[5], z);
    ZeroColumn(r3, h[8], z);
    ZeroRow(x, y, z);
    var s := Apply(Screen2World(h), x, y, z);
    assert s[0] == r0 + h[2] && s[1] == r1 + h[5] && s[2] == z && s[3] == r3 + h[8];
    var w := Apply(World2Screen(h), x, y, z);
    assert w[0] == r0 + h[2] && w[1] == r1 + h[5] && w[2] == 0.5 && w[3] == r3 + h[8];
  }

  lemma ZeroColumn(u: real, d: real, z: real)
    ensures u + 0.0 * z + d == u + d
  {
  }

  lemma ZeroRow(x: real, y: real, z: real)
    ensures 0.0 * x + 0.0 * y + 1.0 * z + 0.0 == z
    ensures 0.0 * x + 0.0 * y + 0.0 * z + 0.5 == 0.5
  {
  }

  // ---------------------------------------------------------------------
  // The application state
  // ---------------------------------------------------------------------

  class Tracker {
    /** The video display bounds, in metres. */
    var minx: real
    var maxx: real
    var miny: real
    var maxy: real
    /** The tracking bounds the front end reports, and its rotation. */
    var lidarminx: real
    var lidarmaxx: real
    var lidarminy: real
    var lidarmaxy: real
    var lidarRotation: real
    /** The floor outline each projector covers. */
    var projBounds: seq<seq<Point>>
    /** Per projector, the last calibration received, if any. */
    var screen2world: seq<Option<Mat4>>
    var world2screen: seq<Option<Mat4>>
    var vis: array<Visualizer>
    /** Index into `vis`, or -1 before the first selection. */
    var currentvis: int
    var people: People.PeopleMap
    var alignCorners: array<Option<Point>>
    /** The masks and the per-pixel owners, one mask per projector. */
    const comp: Masks.Compositor
    /** The canvas size `makeCanvases` computes for the bounds (it takes a
        square root of the floor area, which is not modelled). */
    const canvasSize: Bounds -> (nat, nat)

    ghost predicate Valid()
      reads this, comp, comp.pselect
    {
      -1 <= currentvis < vis.Length &&
      |screen2world| == |projBounds| && |world2screen| == |projBounds| &&
      comp.Valid() && comp.pixels.Length0 == |projBounds|
    }

    function Floor(): Bounds
      reads this
    {
      Bounds(minx, maxx, miny, maxy)
    }

    /** The canvas has the size `makeCanvases` gives the current bounds. */
    ghost predicate CanvasFits()
      reads this, comp
    {
      comp.hasCanvas && (comp.canvasWidth, comp.canvasHeight) == canvasSize(Floor())
    }

    /** What `makeCanvases` did since the old state: the canvas fits the
        bounds; a canvas of a new size came with new masks and every pixel
        owned by projector 0, one of the same size kept the masks and the
        owners. */
    twostate predicate CanvasRemade()
      reads this, comp, comp.pselect
    {
      CanvasFits() &&
      if old(comp.hasCanvas) && old(comp.canvasWidth) == comp.canvasWidth && old(comp.canvasHeight) == comp.canvasHeight
      then comp.pixels == old(comp.pixels) && comp.pselect == old(comp.pselect)
      else
        && fresh(comp.pixels) && fresh(comp.pselect)
        && comp.pselect.Length == Masks.MaskSize(comp.canvasWidth) * Masks.MaskSize(comp.canvasHeight)
        && forall i :: 0 <= i < comp.pselect.Length ==> comp.pselect[i] == 0
    }

    /** `setup` then `resetcoords`: the bounds from the configuration,
        clamped to the projectors' coverage; no visualizer, nobody present;
        the first canvas, with every pixel owned by projector 0. Without a
        projector `makeCanvases` would index an empty mask list. */
    constructor (config: Bounds, lidar: Bounds, pb: seq<seq<Point>>, canvasSize: Bounds -> (nat, nat))
      requires |pb| > 0
      ensures Valid() && fresh(vis) && fresh(alignCorners) && fresh(comp)
      ensures Floor() == Clamp(config, CoverageOf(pb))
      ensures lidarminx == lidar.minx && lidarmaxx == lidar.maxx
      ensures lidarminy == lidar.miny && lidarmaxy == lidar.maxy && lidarRotation == 0.0
      ensures projBounds == pb && this.canvasSize == canvasSize
      ensures |screen2world| == |pb| && forall i :: 0 <= i < |pb| ==> screen2world[i].None? && world2screen[i].None?
      ensures vis.Length == 0 && currentvis == -1 && people == map[] && alignCorners.Length == 0
      ensures CanvasFits() && forall i :: 0 <= i < comp.pselect.Length ==> comp.pselect[i] == 0
    {
      minx, maxx, miny, maxy := config.minx, config.maxx, config.miny, config.maxy;
      lidarminx, lidarmaxx, lidarminy, lidarmaxy := lidar.minx, lidar.maxx, lidar.miny, lidar.maxy;
      lidarRotation := 0.0;
      projBounds := pb;
      screen2world := seq(|pb|, _ => None);
      world2screen := seq(|pb|, _ => None);
      vis := new Visualizer[0];
      currentvis := -1;
      people := map[];
      alignCorners := new Option<Point>[0];
      comp := new Masks.Compositor(|pb|);
      this.canvasSize := canvasSize;
      new;
      ResetCoords();
    }

    /** `resetcoords`: the bounding box of every projector's bounds, then the
        display bounds constrained to it, then `makeCanvases` for them. */
    method ResetCoords()
      requires Valid()
      modifies this`minx, this`maxx, this`miny, this`maxy, comp
      ensures Valid()
      ensures Floor() == Clamp(old(Floor()), CoverageOf(projBounds))
      ensures CanvasRemade()
    {
      var e := CoverageLoop(projBounds);
      var r := Clamp(Floor(), e);
      minx, maxx, miny, maxy := r.minx, r.maxx, r.miny, r.maxy;
      var size := canvasSize(Floor());
      comp.MakeCanvases(size.0, size.1);
    }

    /** `setminx`: accepted only below `maxx - 1`, then the bounds are reset. */
    method SetMinX(v: real)
      requires Valid()
      modifies this`minx, this`maxx, this`miny, this`maxy, comp
      ensures Valid()
      ensures v < old(maxx) - 1.0 ==>
        Floor() == Clamp(old(Floor()).(minx := v), CoverageOf(projBounds)) && CanvasRemade()
      ensures !(v < old(maxx) - 1.0) ==> Floor() == old(Floor()) && unchanged(comp)
    {
      if v < maxx - 1.0 {
        minx := v;
        ResetCoords();
      }
    }

    /** `setmaxx`: accepted only above `minx + 1`. */
    method SetMaxX(v: real)
      requires Valid()
      modifies this`minx, this`maxx, this`miny, this`maxy, comp
      ensures Valid()
      ensures v > old(minx) + 1.0 ==>
        Floor() == Clamp(old(Floor()).(maxx := v), CoverageOf(projBounds)) && CanvasRemade()
      ensures !(v > old(minx) + 1.0) ==> Floor() == old(Floor()) && unchanged(comp)
    {
      if v > minx + 1.0 {
        maxx := v;
        ResetCoords();
      }
    }

    /** `setminy`: accepted only below `maxy - 1`. */
    method SetMinY(v: real)
      requires Valid()
      modifies this`minx, this`maxx, this`miny, this`maxy, comp
      ensures Valid()
      ensures v < old(maxy) - 1.0 ==>
        Floor() == Clamp(old(Floor()).(miny := v), CoverageOf(projBounds)) && CanvasRemade()
      ensures !(v < old(maxy) - 1.0) ==> Floor() == old(Floor()) && unchanged(comp)
    {
      if v < maxy - 1.0 {
        miny := v;
        ResetCoords();
      }
    }

    /** `setmaxy`: accepted only above `miny + 1`. */
    method SetMaxY(v: real)
      requires Valid()
      modifies this`minx, this`maxx, this`miny, this`maxy, comp
      ensures Valid()
      ensures v > old(miny) + 1.0 ==>
        Floor() == Clamp(old(Floor()).(maxy := v), CoverageOf(projBounds)) && CanvasRemade()
      ensures !(v > old(miny) + 1.0) ==> Floor() == old(Floor()) && unchanged(comp)
    {
      if v > miny + 1.0 {
        maxy := v;
        ResetCoords();
      }
    }

    /** `pfsetminx`: a changed tracking bound is stored and the display
        bounds are reset; an unchanged one does nothing. */
    method PfSetMinX(v: real)
      requires Valid()
      modifies this`lidarminx, this`minx, this`maxx, this`miny, this`maxy, comp
      ensures Valid() && lidarminx == v
      ensures v != old(lidarminx) ==> Floor() == Clamp(old(Floor()), CoverageOf(projBounds)) && CanvasRemade()
      ensures v == old(lidarminx) ==> Floor() == old(Floor()) && unchanged(comp)
    {
      if lidarminx != v {
        lidarminx := v;
        ResetCoords();
      }
    }

    /** `pfsetmaxx`. */
    method PfSetMaxX(v: real)
      requires Valid()
      modifies this`lidarmaxx, this`minx, this`maxx, this`miny, this`maxy, comp
      ensures Valid() && lidarmaxx == v
      ensures v != old(lidarmaxx) ==> Floor() == Clamp(old(Floor()), CoverageOf(projBounds)) && CanvasRemade()
      ensures v == old(lidarmaxx) ==> Floor() == old(Floor()) && unchanged(comp)
    {
      if lidarmaxx != v {
        lidarmaxx := v;
        ResetCoords();
      }
    }

    /** `pfsetminy`. */
    method PfSetMinY(v: real)
      requires Valid()
      modifies this`lidarminy, this`minx, this`maxx, this`miny, this`maxy, comp
      ensures Valid() && lidarminy == v
      ensures v != old(lidarminy) ==> Floor() == Clamp(old(Floor()), CoverageOf(projBounds)) && CanvasRemade()
      ensures v == old(lidarminy) ==> Floor() == old(Floor()) && unchanged(comp)
    {
      if lidarminy != v {
        lidarminy := v;
        ResetCoords();
      }
    }

    /** `pfsetmaxy`. */
    method PfSetMaxY(v: real)
      requires Valid()
      modifies this`lidarmaxy, this`minx, this`maxx, this`miny, this`maxy, comp
      ensures Valid() && lidarmaxy == v
      ensures v != old(lidarmaxy) ==> Floor() == Clamp(old(Floor()), CoverageOf(projBounds)) && CanvasRemade()
      ensures v == old(lidarmaxy) ==> Floor() == old(Floor()) && unchanged(comp)
    {
      if lidarmaxy != v {
        lidarmaxy := v;
        ResetCoords();
      }
    }

    /** `pfsetrotation`. */
    method PfSetRotation(deg: real)
      requires Valid()
      modifies this`lidarRotation, this`minx, this`maxx, this`miny, this`maxy, comp
      ensures Valid() && lidarRotation == deg
      ensures deg != old(lidarRotation) ==> Floor() == Clamp(old(Floor()), CoverageOf(projBounds)) && CanvasRemade()
      ensures deg == old(lidarRotation) ==> Floor() == old(Floor()) && unchanged(comp)
    {
      if lidarRotation != deg {
        lidarRotation := deg;
        ResetCoords();
      }
    }

    /** `addVis`: a copy of the list one longer, the new visualizer last. */
    method AddVis(name: string, selectable: bool)
      requires Valid()
      modifies this`vis
      ensures Valid() && fresh(vis)
      ensures vis[..] == old(vis[..]) + [Visualizer(name, selectable)]
    {
      var tvis := vis;
      var nv := new Visualizer[tvis.Length + 1](_ => Visualizer(name, selectable));
      for i := 0 to tvis.Length
        modifies nv
        invariant nv[..i] == tvis[..i]
        invariant nv[tvis.Length] == Visualizer(name, selectable)
      {
        nv[i] := tvis[i];
      }
      vis := nv;
    }

    /** `getAppIndex`: the first visualizer with this name, or -1. */
    method GetAppIndex(name: string) returns (r: int)
      ensures -1 <= r < vis.Length
      ensures r == -1 <==> forall i :: 0 <= i < vis.Length ==> vis[i].name != name
      ensures r >= 0 ==> vis[r].name == name && forall i :: 0 <= i < r ==> vis[i].name != name
    {
      for i := 0 to vis.Length
        invariant forall k :: 0 <= k < i ==> vis[k].name != name
      {
        if vis[i].name == name {
          return i;
        }
      }
      return -1;
    }

    /** `setapp`, with the guard of `SetAppTarget`. */
    method SetApp(appNum: int)
      requires Valid()
      modifies this`currentvis
      ensures Valid()
      ensures currentvis == SetAppTarget(vis.Length, old(currentvis), appNum)
    {
      if appNum < 0 || appNum >= vis.Length {
        return;
      }
      if appNum == currentvis {
        return;
      }
      currentvis := appNum;
    }

    /** `vsetapp`: the button pressed selects the visualizer shown on it; a
        button of no visualizer changes nothing. */
    method VSetApp(button: Button)
      requires Valid()
      modifies this`currentvis
      ensures Valid()
      ensures forall i :: 0 <= i < vis.Length && VisPos(i) == button ==> currentvis == i
      ensures (forall i :: 0 <= i < vis.Length ==> VisPos(i) != button) ==> currentvis == old(currentvis)
    {
      for i := 0 to vis.Length
        invariant forall k :: 0 <= k < i ==> VisPos(k) != button
        invariant currentvis == old(currentvis)
      {
        if VisPos(i) == button {
          SetApp(i);
          forall k | 0 <= k < vis.Length && VisPos(k) == button
            ensures k == i
          {
            VisPosInjective(k, i);
          }
          return;
        }
      }
    }

    /** `cycle`: step to the next selectable visualizer, wrapping around,
        and select it. The source's do-while loop never ends when no
        visualizer is selectable, hence the precondition. */
    method Cycle()
      requires Valid() && vis.Length > 0
      requires exists j :: 0 <= j < vis.Length && vis[j].selectable
      modifies this`currentvis
      ensures Valid()
      ensures currentvis == CycleTarget(Selectables(vis[..]), old(currentvis))
    {
      var newvis := NextIndex(Selectables(vis[..]), currentvis);
      SetApp(newvis);
    }

    /** `pfsetnpeople`: the `setapp(currentvis)` meant as a reset, which
        changes nothing at all. How the people record handles the count is
        not part of this model. */
    method PfSetNPeopleReset()
      requires Valid()
      modifies this`currentvis
      ensures Valid() && currentvis == old(currentvis)
    {
      SetApp(currentvis);
      ResetIsNoOp(vis.Length, old(currentvis));
    }

    /** `pfupdate`. */
    method PfUpdate(id: int, pos: Point, vel: Point, groupid: int, groupsize: int, elapsed: real, channel: int)
      requires Valid()
      modifies this`people
      ensures Valid()
      ensures people == People.Update(old(people), id, channel, pos, vel, groupid, groupsize, elapsed)
    {
      people := People.Update(people, id, channel, pos, vel, groupid, groupsize, elapsed);
    }

    /** `pfbody`. */
    method PfBody(id: int, diam: real, sep: real)
      requires Valid()
      modifies this`people
      ensures Valid()
      ensures people == People.Body(old(people), id, sep, diam)
    {
      people := People.Body(people, id, sep, diam);
    }

    /** `pfleg`, with sin and cos of the heading given; `thrown` when the
        leg index is outside the person's legs. */
    method PfLeg(id: int, leg: int, pos: Point, spd: real, sinH: real, cosH: real) returns (thrown: bool)
      requires Valid()
      modifies this`people
      ensures Valid()
      ensures var r := People.Leg(old(people), id, leg, pos, spd, sinH, cosH);
        thrown == r.None? && people == (if r.Some? then r.value else old(people))
    {
      var r := People.Leg(people, id, leg, pos, spd, sinH, cosH);
      thrown := r.None?;
      if r.Some? {
        people := r.value;
      }
    }

    /** `pfexit`; the automatic cycling after the last exit is switched off
        in the source (`autocycle` is false). */
    method PfExit(id: int)
      requires Valid()
      modifies this`people
      ensures Valid()
      ensures people == People.Exit(old(people), id)
    {
      people := People.Exit(people, id);
    }

    /** `pfentry`. */
    method PfEntry(id: int, channel: int)
      requires Valid()
      modifies this`people
      ensures Valid()
      ensures people == People.Entry(old(people), id, channel)
    {
      people := People.Entry(people, id, channel);
    }

    /** `pfaligncorner`. */
    method PfAlignCorner(cornerNumber: int, numCorners: int, x: real, y: real) returns (thrown: bool)
      requires Valid()
      modifies this`alignCorners, alignCorners
      ensures Valid()
      ensures var r := AlignCorner(old(alignCorners[..]), cornerNumber, numCorners, Point(x, y));
        alignCorners[..] == r.corners && thrown == r.thrown
      ensures numCorners >= 0 && old(alignCorners.Length) != numCorners ==> fresh(alignCorners)
    {
      if alignCorners.Length != numCorners {
        if numCorners < 0 {
          return true;
        }
        alignCorners := new Option<Point>[numCorners](_ => None);
      }
      if cornerNumber >= 0 {
        if cornerNumber >= alignCorners.Length {
          return true;
        }
        alignCorners[cornerNumber] := Some(Point(x, y));
      }
      return false;
    }

    /** `setscreen2world`: a projector number out of range is refused;
        otherwise the projector takes the new calibration and recomputes its
        floor outline from it. That recomputation belongs to the projector
        class, which is not part of this model: its result is `coverage`. */
    method SetScreen2World(proj: int, h: seq<real>, coverage: seq<Point>)
      requires Valid() && |h| == 9
      modifies this`screen2world, this`projBounds
      ensures Valid()
      ensures 0 <= proj < |old(screen2world)| ==>
        screen2world == old(screen2world)[proj := Some(Screen2World(h))] &&
        projBounds == old(projBounds)[proj := coverage]
      ensures !(0 <= proj < |old(screen2world)|) ==>
        screen2world == old(screen2world) && projBounds == old(projBounds)
    {
      if proj < 0 || proj >= |projBounds| {
        return;
      }
      screen2world := screen2world[proj := Some(Screen2World(h))];
      projBounds := projBounds[proj := coverage];
    }

    /** `setworld2screen`: a projector number out of range is refused. */
    method SetWorld2Screen(proj: int, h: seq<real>)
      requires Valid() && |h| == 9
      modifies this`world2screen
      ensures Valid()
      ensures 0 <= proj < |old(world2screen)| ==> world2screen == old(world2screen)[proj := Some(World2Screen(h))]
      ensures !(0 <= proj < |old(world2screen)|) ==> world2screen == old(world2screen)
    {
      if proj < 0 || proj >= |projBounds| {
        return;
      }
      world2screen := world2screen[proj := Some(World2Screen(h))];
    }
  }

}
