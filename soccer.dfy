// The soccer visualizer's ball: it rolls, bounces off the four walls of the
// active area, slows down, and is kicked by legs it touches, with a short
// cooldown so one touch counts once.
//
// Lengths are in meters and velocities in meters per second, as the leg
// positions are given. Drawing is not part of this model; the frame time
// (`1 / frameRate`) and the walls (the tracker's bounds) are parameters.

module Soccer {
  import opened Common

  /** Coefficient of restitution. */
  const Restitution: real := 0.7
  /** Rolling deceleration, 0.07 g. */
  const Deceleration: real := 0.07 * 9.81
  /** Mass of the ball in kilograms. */
  const BallMass: real := 0.430
  /** Radius of the ball in meters: 0.69 / (2 pi), to float precision. */
  const BallRadius: real := 0.1098169

  /** The walls of the active area. */
  datatype Walls = Walls(minx: real, maxx: real, miny: real, maxy: real)

  /** A mass in kilograms. */
  type Kg = m: real | 0.0 <= m

  /** What the ball needs to know about a leg. */
  datatype LegInfo = LegInfo(origin: Point, velocity: Point, diameter: real, mass: Kg)

  /** A tracked person's two legs. */
  datatype Body = Body(leg0: LegInfo, leg1: LegInfo)

  function LegOf(b: Body, i: int): LegInfo
  {
    if i == 0 then b.leg0 else b.leg1
  }

  datatype BallState = BallState(position: Point, velocity: Point, inCollision: int)

  /** One wall on one axis: past `wall` while still moving outwards, the
      position is mirrored in the wall and the velocity reversed and scaled
      by the restitution. `past` is the source's test for this wall. */
  function Bounce(x: real, v: real, wall: real, past: bool): (r: (real, real))
    ensures past ==> r.0 - wall == wall - x && r.1 == -Restitution * v
    ensures !past ==> r == (x, v)
  {
    if past then (2.0 * wall - x, v * -Restitution) else (x, v)
  }

  /** The four walls in the order the source tests them. */
  function Walled(p: Point, v: Point, w: Walls): (r: (Point, Point))
  {
    var (x1, vx1) := Bounce(p.x, v.x, w.maxx, p.x > w.maxx && v.x > 0.0);
    var (x2, vx2) := Bounce(x1, vx1, w.minx, x1 < w.minx && vx1 < 0.0);
    var (y1, vy1) := Bounce(p.y, v.y, w.maxy, p.y > w.maxy && v.y > 0.0);
    var (y2, vy2) := Bounce(y1, vy1, w.miny, y1 < w.miny && vy1 < 0.0);
    (Point(x2, y2), Point(vx2, vy2))
  }

  /** `Ball.update`: move by velocity times the frame time, bounce, slow
      down, and count the cooldown down to zero. */
  function Step(s: BallState, elapsed: real, w: Walls): (r: BallState)
    ensures r.inCollision == (if s.inCollision > 0 then s.inCollision - 1 else 0)
  {
    var moved := s.position.Plus(s.velocity.Scale(elapsed));
    var (p, v) := Walled(moved, s.velocity, w);
    BallState(p, v.Scale(1.0 - Deceleration * elapsed), MaxI(0, s.inCollision - 1))
  }

  /** Whether a leg touches the ball and is not moving with it: closer than
      the sum of the radii (compared squared, which is the same test for a
      positive sum and never true otherwise), and the velocities do not point
      the same way. */
  predicate Hits(s: BallState, leg: LegInfo)
  {
    var minSep := leg.diameter / 2.0 + BallRadius;
    var d := leg.origin.Minus(s.position);
    minSep > 0.0 && d.NormSq() < minSep * minSep && s.velocity.Dot(leg.velocity) <= 0.0
  }

  /** The kick: the leg's velocity, scaled by the mass ratio and the
      restitution. */
  function Kick(leg: LegInfo): Point
  {
    leg.velocity.Scale(leg.mass / (leg.mass + BallMass) * (1.0 + Restitution))
  }

  /** One leg's test. The cooldown is checked once before both legs, so the
      second leg can kick again in the same call. */
  function Touch(s: BallState, leg: LegInfo): (r: BallState)
    ensures r.position == s.position
    ensures Hits(s, leg) ==> r.velocity == Kick(leg) && r.inCollision == 2
    ensures !Hits(s, leg) ==> r == s
  {
    if Hits(s, leg) then s.(velocity := Kick(leg), inCollision := 2) else s
  }

  /** `collisionDetect` with one person. */
  function Detect(s: BallState, b: Body): BallState
  {
    if s.inCollision > 0 then s else Touch(Touch(s, b.leg0), b.leg1)
  }

  /** The cooldown: a detection while cooling down changes nothing; a kick
      starts a cooldown of two frames, during which nothing else counts. */
  lemma {:induction false} CooldownBlocksRepeatHits(s: BallState, b: Body, c: Body, elapsed: real, w: Walls)
    requires s.inCollision >= 0
    requires var d := Detect(s, b); d != s
    ensures Detect(s, b).inCollision == 2
    ensures var s1 := Step(Detect(s, b), elapsed, w); s1.inCollision == 1 && Detect(s1, c) == s1
    ensures Step(Step(Detect(s, b), elapsed, w), elapsed, w).inCollision == 0
  {
    var t0 := Touch(s, b.leg0);
    if !Hits(s, b.leg0) && !Hits(t0, b.leg1) {
      assert false;
    }
  }

  /** A kick sends the ball along the leg's direction of motion, at less
      than 1.7 times the leg's speed. */
  lemma {:induction false} KickFollowsLeg(leg: LegInfo)
    ensures var k := leg.mass / (leg.mass + BallMass) * (1.0 + Restitution);
      0.0 <= k < 1.0 + Restitution && Kick(leg) == leg.velocity.Scale(k)
  {
    var m := leg.mass;
    assert m / (m + BallMass) < 1.0 by {
      assert m < m + BallMass;
    }
  }

  /** A bounce never speeds the ball up. */
  lemma {:induction false} BounceDamps(x: real, v: real, wall: real, past: bool)
    ensures var r := Bounce(x, v, wall, past); r.1 * r.1 <= v * v
  {
    if past {
      assert (-Restitution * v) * (-Restitution * v) == 0.49 * (v * v);
    }
  }

  /** The walls keep or shrink each component of the velocity. */
  lemma {:induction false} WalledDamps(p: Point, v: Point, w: Walls)
    ensures var v' := Walled(p, v, w).1; v'.x * v'.x <= v.x * v.x && v'.y * v'.y <= v.y * v.y
  {
    var (x1, vx1) := Bounce(p.x, v.x, w.maxx, p.x > w.maxx && v.x > 0.0);
    BounceDamps(p.x, v.x, w.maxx, p.x > w.maxx && v.x > 0.0);
    BounceDamps(x1, vx1, w.minx, x1 < w.minx && vx1 < 0.0);
    var (y1, vy1) := Bounce(p.y, v.y, w.maxy, p.y > w.maxy && v.y > 0.0);
    BounceDamps(p.y, v.y, w.maxy, p.y > w.maxy && v.y > 0.0);
    BounceDamps(y1, vy1, w.miny, y1 < w.miny && vy1 < 0.0);
  }

  /** For a frame time under a second, an update never speeds the ball up:
      bounces keep or shrink each component and the deceleration factor lies
      in (0, 1]. */
  lemma {:induction false} StepNeverSpeedsUp(s: BallState, elapsed: real, w: Walls)
    requires 0.0 <= elapsed <= 1.0
    ensures Step(s, elapsed, w).velocity.NormSq() <= s.velocity.NormSq()
  {
    var moved := s.position.Plus(s.velocity.Scale(elapsed));
    var v := Walled(moved, s.velocity, w).1;
    WalledDamps(moved, s.velocity, w);
    var f := 1.0 - Deceleration * elapsed;
    assert 0.0 < f <= 1.0;
    ScaleShrinks(v, f);
  }

  lemma ScaleShrinks(v: Point, f: real)
    requires 0.0 <= f <= 1.0
    ensures v.Scale(f).NormSq() <= v.NormSq()
  {
    var n := v.NormSq();
    assert n >= 0.0;
    assert v.Scale(f).NormSq() == (f * f) * n;
    assert f * f <= 1.0 by {
      assert f * f <= f * 1.0;
    }
    assert (f * f) * n <= 1.0 * n;
  }

  /** A ball that overshoots a wall by less than the width of the area
      comes back between the walls on that axis. */
  lemma {:induction false} BounceReturnsInside(x: real, v: real, lo: real, hi: real)
    requires lo < hi && hi < x < 2.0 * hi - lo && v > 0.0
    ensures var r := Bounce(x, v, hi, true); lo < r.0 < hi && r.1 < 0.0
  {
  }

  /** The ball. */
  class Ball {
    var position: Point
    var velocity: Point
    var inCollision: int

    function State(): BallState
      reads this
    {
      BallState(position, velocity, inCollision)
    }

    /** A new ball is not in a collision. */
    constructor (position: Point, velocity: Point)
      ensures State() == BallState(position, velocity, 0)
    {
      this.position, this.velocity, inCollision := position, velocity, 0;
    }

    /** `update`, with the frame time and the walls given. */
    method Update(elapsed: real, w: Walls)
      modifies this
      ensures State() == Step(old(State()), elapsed, w)
      ensures old(inCollision) >= 0 ==> inCollision >= 0
    {
      position := position.Plus(velocity.Scale(elapsed));
      var x, vx, y, vy := position.x, velocity.x, position.y, velocity.y;
      if x > w.maxx && vx > 0.0 {
        vx := vx * -Restitution;
        x := 2.0 * w.maxx - x;
      }
      if x < w.minx && vx < 0.0 {
        vx := vx * -Restitution;
        x := 2.0 * w.minx - x;
      }
      if y > w.maxy && vy > 0.0 {
        vy := vy * -Restitution;
        y := 2.0 * w.maxy - y;
      }
      if y < w.miny && vy < 0.0 {
        vy := vy * -Restitution;
        y := 2.0 * w.miny - y;
      }
      position := Point(x, y);
      velocity := Point(vx, vy).Scale(1.0 - Deceleration * elapsed);
      inCollision := MaxI(0, inCollision - 1);
    }

    /** `collisionDetect` with one person: nothing while cooling down;
        otherwise each of the two legs in turn may kick the ball. */
    method CollisionDetect(b: Body)
      modifies this
      ensures State() == Detect(old(State()), b)
    {
      if inCollision > 0 {
        return;
      }
      for i := 0 to 2
        invariant State() == (if i == 0 then old(State()) else if i == 1 then Touch(old(State()), b.leg0)
                              else Touch(Touch(old(State()), b.leg0), b.leg1))
      {
        var leg := LegOf(b, i);
        var minSep := leg.diameter / 2.0 + BallRadius;
        var d := leg.origin.Minus(position);
        if minSep > 0.0 && d.NormSq() < minSep * minSep && velocity.Dot(leg.velocity) <= 0.0 {
          velocity := leg.velocity.Scale(leg.mass / (leg.mass + BallMass) * (1.0 + Restitution));
          inCollision := 2;
        }
      }
    }
  }

  /** The visualizer holds a ball only while it is the active app. */
  class VisualizerSoccer {
    var ball: Ball?

    constructor ()
      ensures ball == null
    {
      ball := null;
    }

    /** `start`: a fresh ball at the given place and speed. */
    method Start(p0: Point, v0: Point)
      modifies this
      ensures ball != null && fresh(ball)
      ensures ball.State() == BallState(p0, v0, 0)
    {
      ball := new Ball(p0, v0);
    }

    /** `stop`: the ball is dropped. */
    method Stop()
      modifies this
      ensures ball == null
    {
      ball := null;
    }

    /** `update`: move the ball, then test it against every person. */
    method Update(elapsed: real, w: Walls, people: seq<Body>)
      requires ball != null
      modifies ball
      ensures ball.State() == DetectAll(Step(old(ball.State()), elapsed, w), people)
    {
      ball.Update(elapsed, w);
      for k := 0 to |people|
        invariant ball.State() == DetectAll(Step(old(ball.State()), elapsed, w), people[..k])
      {
        assert people[..k + 1][..k] == people[..k];
        ball.CollisionDetect(people[k]);
      }
      assert people[..|people|] == people;
    }
  }

  /** `collisionDetect` with each person in turn. */
  function DetectAll(s: BallState, people: seq<Body>): BallState
  {
    if |people| == 0 then s else Detect(DetectAll(s, people[..|people| - 1]), people[|people| - 1])
  }

  /** Once a kick has started the cooldown, the people after it in the
      frame change nothing. */
  lemma {:induction false} CoolingBallIgnoresEveryone(s: BallState, people: seq<Body>)
    requires s.inCollision > 0
    ensures DetectAll(s, people) == s
    decreases |people|
  {
    if |people| > 0 {
      CoolingBallIgnoresEveryone(s, people[..|people| - 1]);
    }
  }

  /** Within one frame at most one person kicks: from a ball out of
      collision, the whole pass is the detection of the first person whose
      legs change the ball, or changes nothing when nobody's do. */
  lemma {:induction false} OneKickPerFrame(s: BallState, people: seq<Body>)
    requires s.inCollision == 0
    ensures (forall j :: 0 <= j < |people| ==> Detect(s, people[j]) == s) ==> DetectAll(s, people) == s
    ensures forall k :: (0 <= k < |people| && Detect(s, people[k]) != s &&
                         (forall j :: 0 <= j < k ==> Detect(s, people[j]) == s)) ==>
      DetectAll(s, people) == Detect(s, people[k])
    decreases |people|
  {
    if |people| > 0 {
      var n := |people| - 1;
      var init := people[..n];
      OneKickPerFrame(s, init);
      forall k | 0 <= k < n && Detect(s, people[k]) != s && (forall j :: 0 <= j < k ==> Detect(s, people[j]) == s)
        ensures DetectAll(s, people) == Detect(s, people[k])
      {
        assert init[k] == people[k];
        var d := Detect(s, people[k]);
        assert d.inCollision == 2;
        assert DetectAll(s, init) == d;
      }
      if forall j :: 0 <= j < n ==> Detect(s, people[j]) == s {
        assert forall j :: 0 <= j < n ==> Detect(s, init[j]) == s;
        assert DetectAll(s, init) == s;
      }
    }
  }
}
