/** What the forward simulation and the choice of an action mean in the robot's surroundings. */
module ZoneMotion {
  import opened PointInPolygon
  import opened CollisionMonitor

  // ---------------------------------------------------------------- counting

  /** Where in the list the points inside the zone stand. */
  ghost function InsideAt(poly: seq<Point>, points: seq<Point>): set<int> {
    set i | 0 <= i < |points| && Inside(poly, points[i])
  }

  lemma {:induction false} CountIsSize(poly: seq<Point>, points: seq<Point>)
    ensures CountInside(poly, points) == |InsideAt(poly, points)|
  {
    hide Inside;
    if points == [] {
      assert InsideAt(poly, points) == {};
    } else {
      var init, n := points[..|points| - 1], |points| - 1;
      CountIsSize(poly, init);
      assert InsideAt(poly, points) == InsideAt(poly, init) + if Inside(poly, points[n]) then {n} else {};
    }
  }

  // ---------------------------------------------------------------- the motion

  predicate AnglesAdd(g: Trig, a: real, b: real) {
    && g.cos(a + b) == g.cos(a) * g.cos(b) - g.sin(a) * g.sin(b)
    && g.sin(a + b) == g.sin(a) * g.cos(b) + g.cos(a) * g.sin(b)
  }

  predicate OnCircle(g: Trig, a: real) {
    g.cos(a) * g.cos(a) + g.sin(a) * g.sin(a) == 1.0
  }

  predicate ZeroAngle(g: Trig) {
    g.cos(0.0) == 1.0 && g.sin(0.0) == 0.0
  }

  /** The laws of sine and cosine the simulation relies on. */
  ghost predicate AngleLaws(g: Trig) {
    ZeroAngle(g) && (forall a :: OnCircle(g, a)) && (forall a, b :: AnglesAdd(g, a, b))
  }

  /** A velocity turned by an angle. */
  function Turned(g: Trig, v: Velocity, angle: real): Velocity {
    Velocity(TurnedX(v.x, v.y, g.cos(angle), g.sin(angle)), TurnedY(v.x, v.y, g.cos(angle), g.sin(angle)), v.tw)
  }

  /** `k` times an amount. */
  function Times(k: nat, amount: real): real {
    k as real * amount
  }

  lemma OnceMore(k: nat, amount: real)
    ensures Times(0, amount) == 0.0 && Times(k + 1, amount) == Times(k, amount) + amount
  {
  }

  /** How far the robot has turned after `k` steps. */
  function Heading(dt: real, v: Velocity, k: nat): real {
    Times(k, Step(v.tw, dt))
  }

  /** Where it is then, each step along the velocity turned by the heading so far. */
  function Travelled(g: Trig, dt: real, v: Velocity, k: nat): Point {
    if k == 0 then Point(0.0, 0.0)
    else
      var before, now := Travelled(g, dt, v, k - 1), Turned(g, v, Heading(dt, v, k - 1));
      Point(before.x + Step(now.x, dt), before.y + Step(now.y, dt))
  }

  lemma TurnedTwice(g: Trig, v: Velocity, a: real, b: real)
    requires AnglesAdd(g, a, b)
    ensures Turned(g, Turned(g, v, a), b) == Turned(g, v, a + b)
  {
    Rotated(v.x, v.y, g.cos(a), g.sin(a), g.cos(b), g.sin(b), g.cos(a + b), g.sin(a + b));
    hide TurnedX, TurnedY;
  }

  lemma Rotated(x: real, y: real, ca: real, sa: real, cb: real, sb: real, c: real, s: real)
    requires c == ca * cb - sa * sb && s == sa * cb + ca * sb
    ensures TurnedX(TurnedX(x, y, ca, sa), TurnedY(x, y, ca, sa), cb, sb) == TurnedX(x, y, c, s)
    ensures TurnedY(TurnedX(x, y, ca, sa), TurnedY(x, y, ca, sa), cb, sb) == TurnedY(x, y, c, s)
  {
    assert (x * ca - y * sa) * cb - (x * sa + y * ca) * sb == x * (ca * cb - sa * sb) - y * (sa * cb + ca * sb);
    assert (x * ca - y * sa) * sb + (x * sa + y * ca) * cb == x * (sa * cb + ca * sb) + y * (ca * cb - sa * sb);
  }

  /** After `k` steps the robot is where those steps lead, turned by `k` times the turn of one, and its
      velocity is the commanded one turned likewise. */
  lemma {:induction false} MotionExactly(g: Trig, dt: real, v: Velocity, k: nat)
    requires AngleLaws(g)
    ensures var p := Travelled(g, dt, v, k);
            MotionAfter(g, dt, v, k) == Motion(Pose(p.x, p.y, Heading(dt, v, k)), Turned(g, v, Heading(dt, v, k)))
  {
    hide TurnedX, TurnedY, Step, Times;
    if k == 0 {
      OnceMore(0, Step(v.tw, dt));
      NotTurned(v.x, v.y);
    } else {
      MotionExactly(g, dt, v, k - 1);
      OnceMore(k - 1, Step(v.tw, dt));
      var h := Heading(dt, v, k - 1);
      assert AnglesAdd(g, h, Step(v.tw, dt));
      hide AngleLaws, AnglesAdd;
      TurnedTwice(g, v, h, Step(v.tw, dt));
    }
  }

  lemma NotTurned(x: real, y: real)
    ensures TurnedX(x, y, 1.0, 0.0) == x && TurnedY(x, y, 1.0, 0.0) == y
  {
  }

  /** That motion in numbers: it starts at the origin, and each step adds to the position the velocity
      turned by the heading so far, times the length of the step. */
  lemma MotionInNumbers(g: Trig, dt: real, v: Velocity, k: nat)
    ensures Heading(dt, v, k) == k as real * (v.tw * dt)
    ensures Travelled(g, dt, v, 0) == Point(0.0, 0.0)
    ensures var h, here, next := Heading(dt, v, k), Travelled(g, dt, v, k), Travelled(g, dt, v, k + 1);
            && next.x == here.x + (v.x * g.cos(h) - v.y * g.sin(h)) * dt
            && next.y == here.y + (v.x * g.sin(h) + v.y * g.cos(h)) * dt
  {
  }

  // ---------------------------------------------------------------- the zone on its way

  /** Point `q` of the robot's own frame, in the frame the robot started from. */
  function Place(g: Trig, pose: Pose, q: Point): Point {
    Point(pose.x + (q.x * g.cos(pose.theta) - q.y * g.sin(pose.theta)),
          pose.y + (q.x * g.sin(pose.theta) + q.y * g.cos(pose.theta)))
  }

  lemma TransformInverts(g: Trig, pose: Pose, p: Point, q: Point)
    requires OnCircle(g, pose.theta)
    ensures p == Place(g, pose, q) <==> TransformPoint(g, pose, p) == q
  {
    var c, s := g.cos(pose.theta), g.sin(pose.theta);
    TurnsBack(q.x, q.y, c, s);
    TurnsForth(p.x - pose.x, p.y - pose.y, c, s);
  }

  lemma TurnsBack(x: real, y: real, c: real, s: real)
    requires c * c + s * s == 1.0
    ensures (x * c - y * s) * c + (x * s + y * c) * s == x
    ensures -(x * c - y * s) * s + (x * s + y * c) * c == y
  {
    assert x * (c * c + s * s) == x && y * (c * c + s * s) == y;
  }

  lemma TurnsForth(x: real, y: real, c: real, s: real)
    requires c * c + s * s == 1.0
    ensures (x * c + y * s) * c - (-x * s + y * c) * s == x
    ensures (x * c + y * s) * s + (-x * s + y * c) * c == y
  {
    assert x * (c * c + s * s) == x && y * (c * c + s * s) == y;
  }

  /** `p` lies in the zone placed at `pose`. */
  ghost predicate InPlacedZone(g: Trig, poly: seq<Point>, pose: Pose, p: Point) {
    exists q :: Inside(poly, q) && p == Place(g, pose, q)
  }

  ghost function PlacedAt(g: Trig, poly: seq<Point>, pose: Pose, points: seq<Point>): set<int> {
    set i | 0 <= i < |points| && InPlacedZone(g, poly, pose, points[i])
  }

  /** A simulation step counts exactly the obstacle points in the zone at the pose the robot has reached. */
  lemma SimulationCountsZone(g: Trig, z: Polygon, points: seq<Point>, v: Velocity, k: nat)
    requires AngleLaws(g)
    ensures var p := Travelled(g, z.simulationTimeStep, v, k + 1);
            var pose := Pose(p.x, p.y, Heading(z.simulationTimeStep, v, k + 1));
            SimulatedCount(g, z, points, v, k) == |PlacedAt(g, z.poly, pose, points)|
  {
    MotionExactly(g, z.simulationTimeStep, v, k + 1);
    var pose := MotionAfter(g, z.simulationTimeStep, v, k + 1).pose;
    assert OnCircle(g, pose.theta);
    CountIsSize(z.poly, TransformPoints(g, pose, points));
    hide AngleLaws, MotionAfter, Travelled, OnCircle;
    SeenFromRobot(g, z.poly, pose, points);
  }

  lemma SeenFromRobot(g: Trig, poly: seq<Point>, pose: Pose, points: seq<Point>)
    requires OnCircle(g, pose.theta)
    ensures InsideAt(poly, TransformPoints(g, pose, points)) == PlacedAt(g, poly, pose, points)
  {
    hide Inside, Place, TransformPoint;
    forall p | p in points ensures Inside(poly, TransformPoint(g, pose, p)) <==> InPlacedZone(g, poly, pose, p) {
      TransformInverts(g, pose, p, TransformPoint(g, pose, p));
      forall q | Inside(poly, q) && p == Place(g, pose, q) ensures TransformPoint(g, pose, p) == q {
        TransformInverts(g, pose, p, q);
      }
    }
  }

  // ---------------------------------------------------------------- straight ahead

  /** The zone moved by (dx, dy). */
  function Moved(poly: seq<Point>, dx: real, dy: real): seq<Point> {
    seq(|poly|, i requires 0 <= i < |poly| => Point(poly[i].x + dx, poly[i].y + dy))
  }

  lemma CrossesMoves(a: Point, b: Point, dx: real, dy: real, p: Point)
    ensures Crosses(Point(a.x + dx, a.y + dy), Point(b.x + dx, b.y + dy), p) ==
            Crosses(a, b, Point(p.x - dx, p.y - dy))
  {
    var a', b', p' := Point(a.x + dx, a.y + dy), Point(b.x + dx, b.y + dy), Point(p.x - dx, p.y - dy);
    CrossesByOrientation(a', b', p);
    CrossesByOrientation(a, b, p');
    assert Orient(a', b', p) == Orient(a, b, p');
    hide Crosses, Orient;
  }

  lemma {:induction false} ParityMoves(path: seq<Point>, dx: real, dy: real, p: Point)
    ensures PathParity(Moved(path, dx, dy), p) == PathParity(path, Point(p.x - dx, p.y - dy))
  {
    hide Crosses;
    var n := |path|;
    if n < 2 {
    } else {
      assert Moved(path, dx, dy)[..n - 1] == Moved(path[..n - 1], dx, dy);
      ParityMoves(path[..n - 1], dx, dy, p);
      CrossesMoves(path[n - 2], path[n - 1], dx, dy, p);
    }
  }

  /** A point is in the moved zone exactly if, moved back, it is in the zone. */
  lemma InsideMoves(poly: seq<Point>, dx: real, dy: real, p: Point)
    ensures Inside(Moved(poly, dx, dy), p) == Inside(poly, Point(p.x - dx, p.y - dy))
  {
    hide Crosses, PathParity;
    if poly != [] {
      ParityMoves(poly, dx, dy, p);
      CrossesMoves(poly[|poly| - 1], poly[0], dx, dy, p);
    }
  }

  /** The distance covered by `k` steps. */
  function Covered(dt: real, speed: real, k: nat): (d: real)
    ensures d == k as real * (speed * dt)
  {
    Times(k, Step(speed, dt))
  }

  lemma {:induction false} StraightMotion(g: Trig, dt: real, v: Velocity, k: nat)
    requires ZeroAngle(g) && v.tw == 0.0
    ensures MotionAfter(g, dt, v, k) == Motion(Pose(Covered(dt, v.x, k), Covered(dt, v.y, k), 0.0), v)
  {
    hide TurnedX, TurnedY, Step, Times;
    if k == 0 {
      OnceMore(0, Step(v.x, dt));
      OnceMore(0, Step(v.y, dt));
    } else {
      StraightMotion(g, dt, v, k - 1);
      OnceMore(k - 1, Step(v.x, dt));
      OnceMore(k - 1, Step(v.y, dt));
      StandsStill(dt);
      NotTurned(v.x, v.y);
    }
  }

  lemma StandsStill(dt: real)
    ensures Step(0.0, dt) == 0.0
  {
  }

  /** How many of the points lie in the zone as it will be at the end of step `k`. */
  ghost function Ahead(z: Polygon, points: seq<Point>, v: Velocity, k: nat): nat {
    var dx, dy := Covered(z.simulationTimeStep, v.x, k + 1), Covered(z.simulationTimeStep, v.y, k + 1);
    |InsideAt(Moved(z.poly, dx, dy), points)|
  }

  /** Without rotation, step `k` counts exactly the points in the zone moved by k + 1 steps. */
  lemma StraightCounts(g: Trig, z: Polygon, points: seq<Point>, v: Velocity, k: nat)
    requires ZeroAngle(g) && v.tw == 0.0
    ensures SimulatedCount(g, z, points, v, k) == Ahead(z, points, v, k)
  {
    var dx, dy := Covered(z.simulationTimeStep, v.x, k + 1), Covered(z.simulationTimeStep, v.y, k + 1);
    StraightMotion(g, z.simulationTimeStep, v, k + 1);
    var seen := TransformPoints(g, Pose(dx, dy, 0.0), points);
    CountIsSize(z.poly, seen);
    assert forall i :: 0 <= i < |points| ==> seen[i] == Point(points[i].x - dx, points[i].y - dy);
    hide MotionAfter, Covered, Inside, TransformPoints;
    forall i | 0 <= i < |points| ensures Inside(z.poly, seen[i]) == Inside(Moved(z.poly, dx, dy), points[i]) {
      InsideMoves(z.poly, dx, dy, points[i]);
    }
    assert InsideAt(z.poly, seen) == InsideAt(Moved(z.poly, dx, dy), points);
  }

  /** The time reported for a robot that drives straight: zero if the zone already holds the limit;
      otherwise the start of the first step, up to the horizon, at whose end the zone holds more than
      the limit; and -1 if there is none. */
  lemma StraightCollisionTime(g: Trig, z: Polygon, points: seq<Point>, v: Velocity, t: real)
    requires ZeroAngle(g) && v.tw == 0.0 && IsCollisionTime(g, z, points, v, t)
    ensures |InsideAt(z.poly, points)| >= z.maxPoints ==> t == 0.0
    ensures |InsideAt(z.poly, points)| < z.maxPoints ==>
              || (t == -1.0 && forall k: nat :: k as real * z.simulationTimeStep <= z.timeBeforeCollision ==>
                    Ahead(z, points, v, k) <= z.maxPoints)
              || (exists k: nat ::
                    && t == k as real * z.simulationTimeStep && t <= z.timeBeforeCollision
                    && Ahead(z, points, v, k) > z.maxPoints
                    && forall j: nat :: j < k ==> Ahead(z, points, v, j) <= z.maxPoints)
  {
    hide SimulatedCount, Ahead, Inside, InsideAt, CountInside, Simulated;
    CountIsSize(z.poly, points);
    if |InsideAt(z.poly, points)| < z.maxPoints {
      if t == -1.0 && forall k: nat :: Simulated(z, k) ==> SimulatedCount(g, z, points, v, k) <= z.maxPoints {
        forall k: nat | k as real * z.simulationTimeStep <= z.timeBeforeCollision
          ensures Ahead(z, points, v, k) <= z.maxPoints
        {
          StraightCounts(g, z, points, v, k);
          SimulatedMeans(z, k);
        }
      } else {
        var k: nat :| CollidesFirstAt(g, z, points, v, k) && t == k as real * z.simulationTimeStep;
        StraightCounts(g, z, points, v, k);
        SimulatedMeans(z, k);
        forall j: nat | j < k ensures Ahead(z, points, v, j) <= z.maxPoints {
          StraightCounts(g, z, points, v, j);
        }
      }
    }
  }

  lemma SimulatedMeans(z: Polygon, k: nat)
    ensures Simulated(z, k) <==> k as real * z.simulationTimeStep <= z.timeBeforeCollision
  {
  }

  // ---------------------------------------------------------------- the chosen action

  /** More obstacle points than the limit are in the enabled zone. */
  ghost predicate Triggered(z: Polygon, points: seq<Point>) {
    z.enabled && |InsideAt(z.poly, points)| > z.maxPoints
  }

  predicate IsScaled(v: Velocity, k: real, scaled: Velocity) {
    scaled.x == v.x * k && scaled.y == v.y * k && scaled.tw == v.tw * k
  }

  /** `u` is no faster than `v`, counting all three components. */
  predicate NoFaster(u: Velocity, v: Velocity) {
    u.x * u.x + u.y * u.y + u.tw * u.tw <= v.x * v.x + v.y * v.y + v.tw * v.tw
  }

  /** The approach zone `z` reports time `t` for this velocity. */
  ghost predicate Approaches(g: Trig, z: Polygon, points: seq<Point>, v: Velocity, t: real) {
    && z.enabled && z.actionType == APPROACH && z.timeBeforeCollision != 0.0
    && IsCollisionTime(g, z, points, v, t) && t >= 0.0
  }

  lemma ScaleIs(v: Velocity, k: real)
    ensures IsScaled(v, k, v.Scale(k))
  {
  }

  lemma ScaledIsScale(v: Velocity, k: real, u: Velocity)
    requires IsScaled(v, k, u)
    ensures u == v.Scale(k)
  {
  }

  lemma NormIs(u: Velocity, v: Velocity)
    ensures NoFaster(u, v) <==> u.Norm2() <= v.Norm2()
  {
  }

  lemma TriggeredIs(z: Polygon, points: seq<Point>)
    ensures Triggered(z, points) <==> z.enabled && TooManyPoints(z, points)
  {
    CountIsSize(z.poly, points);
  }

  /** What a chosen action says: it stops the robot, with zero velocity, exactly if some stop zone is
      triggered; a slowdown or an approach scales the command by the ratio of one such zone, an
      approach by the reported time over the horizon; otherwise the command passes as it is. */
  lemma ActionMeans(g: Trig, zones: seq<Polygon>, points: seq<Point>, v: Velocity, a: Action)
    requires Safest(g, zones, points, v, a)
    ensures a.actionType == STOP <==> exists z :: z in zones && z.actionType == STOP && Triggered(z, points)
    ensures a.actionType == STOP ==> a.reqVel == Velocity(0.0, 0.0, 0.0)
    ensures a.actionType == SLOWDOWN ==> exists z ::
              z in zones && z.actionType == SLOWDOWN && Triggered(z, points) && IsScaled(v, z.slowdownRatio, a.reqVel)
    ensures a.actionType == APPROACH ==> exists z, t ::
              z in zones && Approaches(g, z, points, v, t) && IsScaled(v, t / z.timeBeforeCollision, a.reqVel)
    ensures a.actionType == DO_NOTHING ==> a.reqVel == v
  {
    hide Inside, InsideAt, IsCollisionTime, TooManyPoints, Triggered, Velocity.Norm2, Velocity.Scale;
    forall z ensures Triggered(z, points) <==> z.enabled && TooManyPoints(z, points) {
      TriggeredIs(z, points);
    }
    forall k ensures IsScaled(v, k, v.Scale(k)) {
      ScaleIs(v, k);
    }
    hide IsScaled;
    if a != Action(DO_NOTHING, v) {
      var z :| z in zones && a.actionType == z.actionType && Demands(g, z, points, v, a.reqVel);
      if z.actionType == APPROACH {
        var t :| IsCollisionTime(g, z, points, v, t) && t >= 0.0 &&
                 z.timeBeforeCollision != 0.0 && a.reqVel == v.Scale(t / z.timeBeforeCollision);
        assert Approaches(g, z, points, v, t);
      }
    }
  }

  /** It is no faster than the command, nor than what any zone asks for. */
  lemma ActionIsSafest(g: Trig, zones: seq<Polygon>, points: seq<Point>, v: Velocity, a: Action,
                       z: Polygon, t: real, u: Velocity)
    requires Safest(g, zones, points, v, a) && z in zones
    ensures NoFaster(a.reqVel, v)
    ensures z.actionType == SLOWDOWN && Triggered(z, points) && IsScaled(v, z.slowdownRatio, u) ==>
              NoFaster(a.reqVel, u)
    ensures Approaches(g, z, points, v, t) && IsScaled(v, t / z.timeBeforeCollision, u) ==> NoFaster(a.reqVel, u)
  {
    hide Inside, InsideAt, IsCollisionTime, TooManyPoints, Triggered, Velocity.Norm2, Velocity.Scale, IsScaled;
    hide NoFaster;
    TriggeredIs(z, points);
    NormIs(a.reqVel, v);
    NormIs(a.reqVel, u);
    if z.actionType == SLOWDOWN && Triggered(z, points) && IsScaled(v, z.slowdownRatio, u) {
      ScaledIsScale(v, z.slowdownRatio, u);
      assert Demands(g, z, points, v, u);
    }
    if Approaches(g, z, points, v, t) && IsScaled(v, t / z.timeBeforeCollision, u) {
      ScaledIsScale(v, t / z.timeBeforeCollision, u);
      assert Demands(g, z, points, v, u);
    }
  }
}
