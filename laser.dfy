// The laser driver: blank points inserted for a slew between two device
// points, and the rule that a rendered drawing is written to the DAC only
// when it has at least two points. The Ether Dream library itself (opening
// the DAC, waiting for it, writing the points) is not part of this model.

module Laser {
  import opened Common

  type Int16 = x: int | -0x8000 <= x < 0x8000
  type UInt16 = x: int | 0 <= x < 0x1_0000

  /** A DAC point: device coordinates, colour, intensity and two user
      channels. */
  datatype EtherdreamPoint = EtherdreamPoint(x: Int16, y: Int16, r: UInt16, g: UInt16, b: UInt16,
                                             i: UInt16, u1: UInt16, u2: UInt16)

  /** The largest device distance the mirrors cross in one point period. */
  const MaxSlewDistance: int := 65535 / 20

  /** Chebyshev distance between two device points. */
  function DevDist(initial: EtherdreamPoint, final: EtherdreamPoint): (d: nat)
    ensures d == 0 <==> initial.x == final.x && initial.y == final.y
    ensures d <= 0xFFFF
  {
    var dx, dy := AbsI(initial.x - final.x), AbsI(initial.y - final.y);
    if dx >= dy then dx else dy
  }

  /** The number of blanks for a slew: the distance over the slew limit,
      rounded down (the `ceil` of an integer quotient rounds nothing), plus
      ten; none when the points coincide. */
  function BlankCount(initial: EtherdreamPoint, final: EtherdreamPoint): nat
  {
    var d := DevDist(initial, final);
    if d > 0 then d / MaxSlewDistance + 10 else 0
  }

  /** A moving slew takes between 10 and 30 blanks: the device range is
      65535 wide and the slew limit is 3276. */
  lemma BlankCountBounds(initial: EtherdreamPoint, final: EtherdreamPoint)
    ensures BlankCount(initial, final) == 0 <==> initial.x == final.x && initial.y == final.y
    ensures BlankCount(initial, final) > 0 ==> 10 <= BlankCount(initial, final) <= 30
  {
    assert MaxSlewDistance == 3276;
  }

  /** A longer slew never takes fewer blanks. */
  lemma {:induction false} BlankCountMonotonic(a: EtherdreamPoint, b: EtherdreamPoint, c: EtherdreamPoint, d: EtherdreamPoint)
    requires 0 < DevDist(a, b) <= DevDist(c, d)
    ensures BlankCount(a, b) <= BlankCount(c, d)
  {
    DivMonotone(DevDist(a, b), DevDist(c, d), MaxSlewDistance);
  }

  lemma DivMonotone(x: nat, y: nat, m: nat)
    requires x <= y && 0 < m
    ensures x / m <= y / m
  {
    var qx, qy := x / m, y / m;
    assert m * qx <= x;
    assert y < m * qy + m;
    assert m * qy + m == m * (qy + 1);
    MulStrict(m, qx, qy + 1);
  }

  lemma MulStrict(m: nat, a: int, b: int)
    requires 0 < m && m * a < m * b
    ensures a < b
  {
  }

  /** The end point with the beam off. */
  function Dark(p: EtherdreamPoint): (q: EtherdreamPoint)
    ensures q.r == 0 && q.g == 0 && q.b == 0
    ensures q.x == p.x && q.y == p.y && q.i == p.i && q.u1 == p.u1 && q.u2 == p.u2
  {
    p.(r := 0, g := 0, b := 0)
  }

  /** `getBlanks`: `BlankCount` copies of the end point with red, green and
      blue off, so the beam rests dark on the target while the mirrors move. */
  method GetBlanks(initial: EtherdreamPoint, final: EtherdreamPoint) returns (result: seq<EtherdreamPoint>)
    ensures |result| == BlankCount(initial, final)
    ensures forall k :: 0 <= k < |result| ==> result[k] == Dark(final)
  {
    result := [];
    var devdist := DevDist(initial, final);
    if devdist > 0 {
      var nblanks := devdist / MaxSlewDistance + 10;
      var blank := Dark(final);
      for i := 0 to nblanks
        invariant |result| == i
        invariant forall k :: 0 <= k < i ==> result[k] == blank
      {
        result := result + [blank];
      }
    }
  }

  /** One projector: whether a DAC has been picked for it, the points last
      rendered, and what has been written to its DAC (one entry per write). */
  class Laser {
    const unit: int
    const pps: int
    const npoints: int
    var hasDac: bool
    var pts: seq<EtherdreamPoint>
    var written: seq<seq<EtherdreamPoint>>

    /** `Laser(unit)` sets the unit, the point rate and the point count but
        not the DAC handle `d`, so whether `update` finds a DAC before `open`
        depends on how the object was allocated (`handleSet`). */
    constructor (unit: int, handleSet: bool)
      ensures this.unit == unit && pps == 30000 && npoints == 600
      ensures hasDac == handleSet && pts == [] && written == []
    {
      this.unit, pps, npoints := unit, 30000, 600;
      hasDac, pts, written := handleSet, [], [];
    }

    /** `open`: with `dacCount` DACs found, pick the one numbered `unit` and
        connect to it (`connectOk`: whether the connection succeeded). The
        DAC is picked before connecting, so a failed connection still leaves
        one picked, and `update` will write to it. */
    method Open(dacCount: nat, connectOk: bool) returns (rc: int)
      modifies this`hasDac
      ensures rc == 0 <==> dacCount > 0 && dacCount > unit && connectOk
      ensures rc == 0 || rc == -1
      ensures hasDac == (old(hasDac) || (dacCount > 0 && dacCount > unit))
    {
      if dacCount == 0 {
        return -1;
      }
      if dacCount <= unit {
        return -1;
      }
      hasDac := true;
      if !connectOk {
        return -1;
      }
      return 0;
    }

    /** `update`: write the current points, unless there are fewer than two
        or no DAC has been picked. */
    method Update()
      modifies this`written
      ensures written == (if |pts| >= 2 && hasDac then old(written) + [pts] else old(written))
    {
      if |pts| < 2 {
        return;
      }
      if !hasDac {
        return;
      }
      written := written + [pts];
    }

    /** `render`: the drawing's points become the current ones; they are
        written only when there are at least two. */
    method Render(drawn: seq<EtherdreamPoint>)
      modifies this`pts, this`written
      ensures pts == drawn
      ensures written == (if |drawn| >= 2 && hasDac then old(written) + [drawn] else old(written))
    {
      pts := drawn;
      if |pts| >= 2 {
        Update();
      }
    }
  }
}
