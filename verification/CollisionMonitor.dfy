/** Safety zones around the robot: forward simulation, choice of the safest action, and the
    timed publication of stop commands. */
module CollisionMonitor {
  import opened Common
  import opened PointInPolygon

  datatype Velocity = Velocity(x: real, y: real, tw: real) {
    /** The quantity `operator<` compares. */
    function Norm2(): real {
      x * x + y * y + tw * tw
    }

    function Scale(k: real): Velocity {
      Velocity(x * k, y * k, tw * k)
    }

    predicate IsZero() {
      x == 0.0 && y == 0.0 && tw == 0.0
    }
  }

  const ZERO := Velocity(0.0, 0.0, 0.0)

  datatype ActionType = DO_NOTHING | STOP | SLOWDOWN | APPROACH

  datatype Action = Action(actionType: ActionType, reqVel: Velocity)

  datatype Polygon = Polygon(enabled: bool, actionType: ActionType, maxPoints: int, slowdownRatio: real,
                             timeBeforeCollision: real, simulationTimeStep: real, poly: seq<Point>)

  datatype Pose = Pose(x: real, y: real, theta: real)

  datatype Motion = Motion(pose: Pose, vel: Velocity)

  /** The trigonometric functions, which only have to be functions here. */
  datatype Trig = Trig(cos: real -> real, sin: real -> real)

  // ---------------------------------------------------------------- forward simulation

  /** How far a rate leads in a time. */
  function Step(rate: real, dt: real): real {
    rate * dt
  }

  /** The coordinates of (x, y) turned by the angle with this cosine and sine. */
  function TurnedX(x: real, y: real, cos: real, sin: real): real {
    x * cos - y * sin
  }

  function TurnedY(x: real, y: real, cos: real, sin: real): real {
    x * sin + y * cos
  }

  /** `projectState`: advance the pose, turn the velocity. */
  function ProjectState(g: Trig, dt: real, s: Motion): Motion {
    var theta := Step(s.vel.tw, dt);
    Motion(
      Pose(s.pose.x + Step(s.vel.x, dt), s.pose.y + Step(s.vel.y, dt), s.pose.theta + theta),
      Velocity(TurnedX(s.vel.x, s.vel.y, g.cos(theta), g.sin(theta)),
               TurnedY(s.vel.x, s.vel.y, g.cos(theta), g.sin(theta)),
               s.vel.tw))
  }

  function TransformPoint(g: Trig, pose: Pose, p: Point): Point {
    var mx, my := p.x - pose.x, p.y - pose.y;
    Point(mx * g.cos(pose.theta) + my * g.sin(pose.theta), -mx * g.sin(pose.theta) + my * g.cos(pose.theta))
  }

  function TransformPoints(g: Trig, pose: Pose, points: seq<Point>): seq<Point> {
    seq(|points|, i requires 0 <= i < |points| => TransformPoint(g, pose, points[i]))
  }

  /** The simulated motion after `k` steps of length `dt`. */
  function MotionAfter(g: Trig, dt: real, vel: Velocity, k: nat): Motion {
    if k == 0 then Motion(Pose(0.0, 0.0, 0.0), vel) else ProjectState(g, dt, MotionAfter(g, dt, vel, k - 1))
  }

  function CountInside(poly: seq<Point>, points: seq<Point>): nat {
    if points == [] then 0
    else CountInside(poly, points[..|points| - 1]) + (if Inside(poly, points[|points| - 1]) then 1 else 0)
  }

  /** Obstacle points in the zone at simulation step `k`, seen from the moved robot. */
  function SimulatedCount(g: Trig, z: Polygon, points: seq<Point>, vel: Velocity, k: nat): nat {
    CountInside(z.poly, TransformPoints(g, MotionAfter(g, z.simulationTimeStep, vel, k + 1).pose, points))
  }

  /** Simulation times are the multiples of the step up to the horizon. */
  predicate Simulated(z: Polygon, k: nat) {
    k as real * z.simulationTimeStep <= z.timeBeforeCollision
  }

  /** A bound on the number of simulation steps. */
  function StepLimit(z: Polygon): nat
    requires z.simulationTimeStep > 0.0
  {
    var n := (z.timeBeforeCollision / z.simulationTimeStep).Floor + 1;
    if n < 0 then 0 else n
  }

  lemma StepsLimited(z: Polygon, k: nat)
    requires z.simulationTimeStep > 0.0 && Simulated(z, k)
    ensures k < StepLimit(z)
  {
    var q := z.timeBeforeCollision / z.simulationTimeStep;
    assert q * z.simulationTimeStep == z.timeBeforeCollision;
    Divides(k as real, q, z.simulationTimeStep);
  }

  lemma Divides(a: real, b: real, step: real)
    requires step > 0.0 && a * step <= b * step
    ensures a <= b
  {
    assert (b - a) * step >= 0.0;
  }

  /** The reported time `t` of the zone: zero when the zone is already full (at least the limit), the
      earliest simulated time with more than the limit, or -1 when there is none. */
  ghost predicate IsCollisionTime(g: Trig, z: Polygon, points: seq<Point>, vel: Velocity, t: real) {
    if CountInside(z.poly, points) >= z.maxPoints then t == 0.0
    else (
      || (t == -1.0 && forall k: nat :: Simulated(z, k) ==> SimulatedCount(g, z, points, vel, k) <= z.maxPoints)
      || (exists k: nat :: CollidesFirstAt(g, z, points, vel, k) && t == k as real * z.simulationTimeStep)
    )
  }

  ghost predicate CollidesFirstAt(g: Trig, z: Polygon, points: seq<Point>, vel: Velocity, k: nat) {
    && Simulated(z, k) && SimulatedCount(g, z, points, vel, k) > z.maxPoints
    && forall j: nat :: j < k ==> SimulatedCount(g, z, points, vel, j) <= z.maxPoints
  }

  lemma CollisionTimeRange(g: Trig, z: Polygon, points: seq<Point>, vel: Velocity, t: real)
    requires IsCollisionTime(g, z, points, vel, t) && z.simulationTimeStep > 0.0
    ensures t == -1.0 || t == 0.0 || 0.0 <= t <= z.timeBeforeCollision
  {
    hide SimulatedCount;
    if CountInside(z.poly, points) < z.maxPoints && t != -1.0 {
      var k: nat :| CollidesFirstAt(g, z, points, vel, k) && t == k as real * z.simulationTimeStep;
      assert 0.0 <= k as real * z.simulationTimeStep;
    }
  }

  /** The reported time is determined by the scene. */
  lemma CollisionTimeUnique(g: Trig, z: Polygon, points: seq<Point>, vel: Velocity, t: real, u: real)
    requires IsCollisionTime(g, z, points, vel, t) && IsCollisionTime(g, z, points, vel, u)
    ensures t == u
  {
    hide SimulatedCount, CountInside, Simulated;
    if CountInside(z.poly, points) < z.maxPoints && t != -1.0 && u != -1.0 {
      var k: nat :| CollidesFirstAt(g, z, points, vel, k) && t == k as real * z.simulationTimeStep;
      var j: nat :| CollidesFirstAt(g, z, points, vel, j) && u == j as real * z.simulationTimeStep;
    }
  }

  method GetPointsInside(poly: seq<Point>, points: seq<Point>) returns (num: nat)
    ensures num == CountInside(poly, points)
  {
    hide Inside;
    num := 0;
    for i := 0 to |points|
      invariant num == CountInside(poly, points[..i])
    {
      assert points[..i + 1][..i] == points[..i];
      var inside := IsPointInside(poly, points[i]);
      if inside {
        num := num + 1;
      }
    }
    assert points[..|points|] == points;
  }

  method GetCollisionTime(g: Trig, z: Polygon, collisionPoints: seq<Point>, velocity: Velocity) returns (t: real)
    requires z.simulationTimeStep > 0.0
    ensures IsCollisionTime(g, z, collisionPoints, velocity, t)
  {
    hide CountInside, ProjectState;
    var inside := GetPointsInside(z.poly, collisionPoints);
    if inside >= z.maxPoints {
      return 0.0;
    }
    var s := Motion(Pose(0.0, 0.0, 0.0), velocity);
    var time := 0.0;
    ghost var k: nat := 0;
    while time <= z.timeBeforeCollision
      invariant time == k as real * z.simulationTimeStep
      invariant s == MotionAfter(g, z.simulationTimeStep, velocity, k)
      invariant forall j: nat :: j < k ==> SimulatedCount(g, z, collisionPoints, velocity, j) <= z.maxPoints
      decreases StepLimit(z) - k
    {
      StepsLimited(z, k);
      s := ProjectState(g, z.simulationTimeStep, s);
      var pointsTransformed := TransformPoints(g, s.pose, collisionPoints);
      assert s == MotionAfter(g, z.simulationTimeStep, velocity, k + 1);
      inside := GetPointsInside(z.poly, pointsTransformed);
      if inside > z.maxPoints {
        assert CollidesFirstAt(g, z, collisionPoints, velocity, k);
        return time;
      }
      NextTime(k, z.simulationTimeStep);
      time := time + z.simulationTimeStep;
      k := k + 1;
    }
    LaterTimes(z, k);
    return -1.0;
  }

  lemma NextTime(k: nat, step: real)
    ensures k as real * step + step == (k + 1) as real * step
  {
  }

  /** Once the horizon is passed, it stays passed. */
  lemma LaterTimes(z: Polygon, k: nat)
    requires z.simulationTimeStep > 0.0 && !Simulated(z, k)
    ensures forall j: nat :: Simulated(z, j) ==> j < k
  {
    forall j: nat | Simulated(z, j) ensures j < k {
      TimesGrow(k, j, z.simulationTimeStep);
    }
  }

  lemma TimesGrow(k: nat, j: nat, step: real)
    requires step > 0.0
    ensures k <= j ==> k as real * step <= j as real * step
  {
    assert j as real * step - k as real * step == (j - k) as real * step;
    if k <= j { assert 0.0 <= (j - k) as real * step; }
  }

  // ---------------------------------------------------------------- the safest action

  /** A zone the monitor can evaluate: an approach zone needs a positive step and a horizon to divide by. */
  predicate Usable(z: Polygon) {
    z.actionType == APPROACH ==> z.simulationTimeStep > 0.0 && z.timeBeforeCollision != 0.0
  }

  predicate TooManyPoints(z: Polygon, points: seq<Point>) {
    CountInside(z.poly, points) > z.maxPoints
  }

  /** The enabled STOP zone `z` is triggered. */
  predicate Stops(z: Polygon, points: seq<Point>) {
    z.enabled && z.actionType == STOP && TooManyPoints(z, points)
  }

  /** The zone `z` is triggered and asks for velocity `v`. */
  ghost predicate Demands(g: Trig, z: Polygon, points: seq<Point>, vel: Velocity, v: Velocity) {
    z.enabled &&
    match z.actionType
    case DO_NOTHING => false
    case STOP => TooManyPoints(z, points) && v == ZERO
    case SLOWDOWN => TooManyPoints(z, points) && v == vel.Scale(z.slowdownRatio)
    case APPROACH => exists t :: IsCollisionTime(g, z, points, vel, t) && t >= 0.0 &&
                                 z.timeBeforeCollision != 0.0 && v == vel.Scale(t / z.timeBeforeCollision)
  }

  /** `a` is the safest answer to `vel` among the demands of `zones`. */
  ghost predicate Safest(g: Trig, zones: seq<Polygon>, points: seq<Point>, vel: Velocity, a: Action) {
    && (a.actionType == STOP <==> exists z :: z in zones && Stops(z, points))
    && (a.actionType == STOP ==> a.reqVel == ZERO)
    && a.reqVel.Norm2() <= vel.Norm2()
    && (forall z, v :: z in zones && Demands(g, z, points, vel, v) ==> a.reqVel.Norm2() <= v.Norm2())
    && (a == Action(DO_NOTHING, vel) ||
        exists z :: z in zones && a.actionType == z.actionType && Demands(g, z, points, vel, a.reqVel))
  }

  lemma ZeroIsLeast(v: Velocity)
    ensures ZERO.Norm2() == 0.0 <= v.Norm2()
  {
    hide Velocity.Norm2;
    Norm2NonNegative(v);
    ZeroNorm2();
  }

  lemma ZeroNorm2()
    ensures ZERO.Norm2() == 0.0
  {
  }

  lemma Norm2NonNegative(v: Velocity)
    ensures 0.0 <= v.Norm2()
  {
    SumOfSquares(v.x, v.y, v.tw);
  }

  lemma SumOfSquares(x: real, y: real, z: real)
    ensures 0.0 <= x * x + y * y + z * z
  {
    SquareNonNegative(x);
    SquareNonNegative(y);
    SquareNonNegative(z);
  }

  lemma SquareNonNegative(x: real)
    ensures x * x >= 0.0
  {
  }

  method ProcessStopSlowdown(g: Trig, z: Polygon, points: seq<Point>, velocity: Velocity, action: Action)
    returns (next: Action)
    requires z.enabled && (z.actionType == STOP || z.actionType == SLOWDOWN)
    ensures next == if !TooManyPoints(z, points) then action
                    else if z.actionType == STOP then Action(STOP, ZERO)
                    else if velocity.Scale(z.slowdownRatio).Norm2() < action.reqVel.Norm2()
                    then Action(SLOWDOWN, velocity.Scale(z.slowdownRatio)) else action
  {
    hide CountInside;
    next := action;
    var inside := GetPointsInside(z.poly, points);
    if inside > z.maxPoints {
      if z.actionType == STOP {
        next := Action(STOP, Velocity(0.0, 0.0, 0.0));
      } else {
        var safeVel := velocity.Scale(z.slowdownRatio);
        if safeVel.Norm2() < action.reqVel.Norm2() {
          next := Action(SLOWDOWN, safeVel);
        }
      }
    }
  }

  method ProcessApproach(g: Trig, z: Polygon, points: seq<Point>, velocity: Velocity, action: Action)
    returns (next: Action, ghost collisionTime: real)
    requires Usable(z) && z.actionType == APPROACH
    ensures IsCollisionTime(g, z, points, velocity, collisionTime)
    ensures next == if collisionTime < 0.0 then action
                    else var v := velocity.Scale(collisionTime / z.timeBeforeCollision);
                         if v.Norm2() < action.reqVel.Norm2() then Action(APPROACH, v) else action
    ensures next == action || (next.actionType == APPROACH && next.reqVel.Norm2() < action.reqVel.Norm2())
  {
    next := action;
    var t := GetCollisionTime(g, z, points, velocity);
    collisionTime := t;
    if t >= 0.0 {
      var changeRatio := t / z.timeBeforeCollision;
      var safeVel := velocity.Scale(changeRatio);
      if safeVel.Norm2() < action.reqVel.Norm2() {
        next := Action(APPROACH, safeVel);
      }
    }
  }

  /** One zone more: the fold step, given what the zone's processing returned. */
  lemma FoldOne(g: Trig, zones: seq<Polygon>, points: seq<Point>, vel: Velocity, a: Action, z: Polygon, next: Action)
    requires Safest(g, zones, points, vel, a) && a.actionType != STOP
    requires z.enabled ==>
               && (forall v :: Demands(g, z, points, vel, v) ==> next.reqVel.Norm2() <= v.Norm2())
               && (next == a || (next.actionType == z.actionType && Demands(g, z, points, vel, next.reqVel)))
               && next.reqVel.Norm2() <= a.reqVel.Norm2()
               && (Stops(z, points) <==> next.actionType == STOP)
               && (next.actionType == STOP ==> next.reqVel == ZERO)
    requires !z.enabled ==> next == a
    ensures Safest(g, zones + [z], points, vel, next)
  {
    hide IsCollisionTime, TooManyPoints, Velocity.Norm2, Velocity.Scale;
    var after := zones + [z];
    assert forall y :: y in after <==> y in zones || y == z;
    forall y, v | y in after && Demands(g, y, points, vel, v) ensures next.reqVel.Norm2() <= v.Norm2() {
      if y in zones { assert a.reqVel.Norm2() <= v.Norm2(); }
    }
  }

  /** Once stopped, further zones change nothing. */
  lemma StopsForGood(g: Trig, zones: seq<Polygon>, more: seq<Polygon>, points: seq<Point>, vel: Velocity, a: Action)
    requires Safest(g, zones, points, vel, a) && a.actionType == STOP
    ensures Safest(g, zones + more, points, vel, a)
  {
    hide IsCollisionTime, Demands, Stops, Velocity.Norm2;
    var after := zones + more;
    assert forall y :: y in zones ==> y in after;
    ZeroIsLeast(vel);
    forall y, v | y in after && Demands(g, y, points, vel, v) ensures a.reqVel.Norm2() <= v.Norm2() {
      ZeroIsLeast(v);
    }
  }

  /** The loop of `process` over the zones. */
  method ChooseAction(g: Trig, zones: seq<Polygon>, points: seq<Point>, velocity: Velocity) returns (action: Action)
    requires forall z :: z in zones ==> Usable(z)
    ensures Safest(g, zones, points, velocity, action)
  {
    hide IsCollisionTime, TooManyPoints, Safest;
    action := Action(DO_NOTHING, velocity);
    NoZones(g, points, velocity);
    for i := 0 to |zones|
      invariant Safest(g, zones[..i], points, velocity, action)
    {
      var z := zones[i];
      assert zones[..i + 1] == zones[..i] + [z];
      if !z.enabled {
        if action.actionType == STOP { StopsForGood(g, zones[..i], [z], points, velocity, action); }
        else { FoldOne(g, zones[..i], points, velocity, action, z, action); }
        continue;
      }
      if action.actionType == STOP {
        assert zones == zones[..i] + zones[i..];
        StopsForGood(g, zones[..i], zones[i..], points, velocity, action);
        return;
      }
      var next := action;
      if z.actionType == STOP || z.actionType == SLOWDOWN {
        next := ProcessStopSlowdown(g, z, points, velocity, action);
        StopSlowdownStep(g, z, points, velocity, action, next);
      } else if z.actionType == APPROACH {
        ghost var t;
        next, t := ProcessApproach(g, z, points, velocity, action);
        ApproachStep(g, z, points, velocity, action, next, t);
      }
      NotStopped(g, zones[..i], points, velocity, action);
      FoldOne(g, zones[..i], points, velocity, action, z, next);
      action := next;
    }
    assert zones[..|zones|] == zones;
  }

  lemma NoZones(g: Trig, points: seq<Point>, vel: Velocity)
    ensures Safest(g, [], points, vel, Action(DO_NOTHING, vel))
  {
  }

  lemma NotStopped(g: Trig, zones: seq<Polygon>, points: seq<Point>, vel: Velocity, a: Action)
    requires Safest(g, zones, points, vel, a)
    ensures a.actionType == STOP ==> a.reqVel == ZERO
  {
  }

  lemma StopSlowdownStep(g: Trig, z: Polygon, points: seq<Point>, vel: Velocity, a: Action, next: Action)
    requires z.enabled && (z.actionType == STOP || z.actionType == SLOWDOWN) && a.actionType != STOP
    requires next == if !TooManyPoints(z, points) then a
                     else if z.actionType == STOP then Action(STOP, ZERO)
                     else if vel.Scale(z.slowdownRatio).Norm2() < a.reqVel.Norm2()
                     then Action(SLOWDOWN, vel.Scale(z.slowdownRatio)) else a
    ensures forall v :: Demands(g, z, points, vel, v) ==> next.reqVel.Norm2() <= v.Norm2()
    ensures next == a || (next.actionType == z.actionType && Demands(g, z, points, vel, next.reqVel))
    ensures next.reqVel.Norm2() <= a.reqVel.Norm2()
    ensures Stops(z, points) <==> next.actionType == STOP
    ensures next.actionType == STOP ==> next.reqVel == ZERO
  {
    ZeroIsLeast(a.reqVel);
    hide TooManyPoints, Velocity.Norm2, Velocity.Scale;
  }

  lemma ApproachStep(g: Trig, z: Polygon, points: seq<Point>, vel: Velocity, a: Action, next: Action, t: real)
    requires z.enabled && z.actionType == APPROACH && z.timeBeforeCollision != 0.0 && a.actionType != STOP
    requires IsCollisionTime(g, z, points, vel, t)
    requires next == if t < 0.0 then a
                     else var v := vel.Scale(t / z.timeBeforeCollision);
                          if v.Norm2() < a.reqVel.Norm2() then Action(APPROACH, v) else a
    ensures forall v :: Demands(g, z, points, vel, v) ==> next.reqVel.Norm2() <= v.Norm2()
    ensures next == a || (next.actionType == z.actionType && Demands(g, z, points, vel, next.reqVel))
    ensures next.reqVel.Norm2() <= a.reqVel.Norm2()
    ensures Stops(z, points) <==> next.actionType == STOP
    ensures next.actionType == STOP ==> next.reqVel == ZERO
  {
    hide TooManyPoints, IsCollisionTime, Velocity.Norm2, Velocity.Scale;
    forall v | Demands(g, z, points, vel, v) ensures next.reqVel.Norm2() <= v.Norm2() {
      var u :| IsCollisionTime(g, z, points, vel, u) && u >= 0.0 && v == vel.Scale(u / z.timeBeforeCollision);
      CollisionTimeUnique(g, z, points, vel, t, u);
    }
  }

  // ---------------------------------------------------------------- what the choice means

  /** The order (and repetition) of the zones affects neither whether the robot stops nor how fast
      it may go. */
  lemma OrderIrrelevant(g: Trig, zones: seq<Polygon>, other: seq<Polygon>, points: seq<Point>, vel: Velocity,
                        a: Action, b: Action)
    requires Safest(g, zones, points, vel, a) && Safest(g, other, points, vel, b)
    requires forall z :: z in zones <==> z in other
    ensures a.actionType == STOP <==> b.actionType == STOP
    ensures a.reqVel.Norm2() == b.reqVel.Norm2()
  {
    hide Demands, Stops, Velocity.Norm2;
  }

  /** The ratio an approach zone scales by is a proper fraction. */
  lemma ApproachRatio(g: Trig, z: Polygon, points: seq<Point>, vel: Velocity, t: real)
    requires IsCollisionTime(g, z, points, vel, t) && t >= 0.0
    requires z.simulationTimeStep > 0.0 && z.timeBeforeCollision != 0.0
    ensures 0.0 <= t / z.timeBeforeCollision <= 1.0
  {
    CollisionTimeRange(g, z, points, vel, t);
    hide IsCollisionTime;
    if z.timeBeforeCollision > 0.0 {
      ProperFraction(t, z.timeBeforeCollision);
    }
  }

  lemma ProperFraction(t: real, whole: real)
    requires 0.0 <= t <= whole && whole > 0.0
    ensures 0.0 <= t / whole <= 1.0
  {
    QuotientTimes(t, whole);
    FractionOf(t / whole, whole, t);
  }

  lemma FractionOf(q: real, whole: real, t: real)
    requires q * whole == t && 0.0 <= t <= whole && whole > 0.0
    ensures 0.0 <= q <= 1.0
  {
    if q < 0.0 {
      NegativeTimes(-q, whole);
    }
    if q > 1.0 {
      NegativeTimes(q - 1.0, whole);
    }
  }

  lemma NegativeTimes(k: real, whole: real)
    requires k > 0.0 && whole > 0.0
    ensures k * whole > 0.0
  {
  }

  // ---------------------------------------------------------------- publication

  /** What decides whether a command is published: the previous command and when the robot stopped. */
  datatype PublisherState = PublisherState(prevVel: Velocity, stopStamp: real)

  datatype Command = Command(now: real, vel: Velocity)

  const INITIAL_VELOCITY := Velocity(-1.0, -1.0, -1.0)

  /** `publishVelocity` followed by the update of the previous action. */
  function PublishStep(timeout: real, s: PublisherState, c: Command): (next: PublisherState) {
    PublisherState(c.vel, if c.vel.IsZero() && !s.prevVel.IsZero() then c.now else s.stopStamp)
  }

  predicate Publishes(timeout: real, s: PublisherState, c: Command) {
    c.vel.IsZero() && s.prevVel.IsZero() ==> c.now - s.stopStamp <= timeout
  }

  /** What can happen to the monitor. */
  datatype Event = Received(command: Command) | Activated | Deactivated

  datatype MonitorState = MonitorState(active: bool, publisher: PublisherState)

  /** One event: commands count only while active, and deactivation forgets the last action. */
  function Next(timeout: real, s: MonitorState, e: Event): MonitorState {
    match e
    case Received(c) => if s.active then s.(publisher := PublishStep(timeout, s.publisher, c)) else s
    case Activated => s.(active := true)
    case Deactivated => MonitorState(false, s.publisher.(prevVel := INITIAL_VELOCITY))
  }

  class CollisionMonitor {
    const trig: Trig
    const polygons: seq<Polygon>
    const stopPubTimeout: real
    var processActive: bool
    var robotActionPrev: Action
    var stopStamp: real

    ghost predicate Valid()
      reads this
    {
      forall z :: z in polygons ==> Usable(z)
    }

    ghost function Publisher(): PublisherState
      reads this
    {
      PublisherState(robotActionPrev.reqVel, stopStamp)
    }

    ghost function Monitor(): MonitorState
      reads this
    {
      MonitorState(processActive, Publisher())
    }

    constructor (trig: Trig, polygons: seq<Polygon>, stopPubTimeout: real)
      requires forall z :: z in polygons ==> Usable(z)
      ensures Valid() && !processActive
      ensures this.trig == trig && this.polygons == polygons && this.stopPubTimeout == stopPubTimeout
      ensures Publisher() == PublisherState(INITIAL_VELOCITY, 0.0)
    {
      this.trig, this.polygons, this.stopPubTimeout := trig, polygons, stopPubTimeout;
      processActive := false;
      robotActionPrev := Action(DO_NOTHING, INITIAL_VELOCITY);
      stopStamp := 0.0;
    }

    method Activate()
      modifies this`processActive
      ensures Monitor() == Next(stopPubTimeout, old(Monitor()), Activated)
    {
      processActive := true;
    }

    method Deactivate()
      modifies this`processActive, this`robotActionPrev
      ensures Monitor() == Next(stopPubTimeout, old(Monitor()), Deactivated)
    {
      processActive := false;
      robotActionPrev := Action(DO_NOTHING, INITIAL_VELOCITY);
    }

    method PublishVelocity(action: Action, now: real) returns (published: Option<Velocity>)
      modifies this`stopStamp
      ensures published == if Publishes(stopPubTimeout, old(Publisher()), Command(now, action.reqVel))
                           then Some(action.reqVel) else None
      ensures stopStamp == PublishStep(stopPubTimeout, old(Publisher()), Command(now, action.reqVel)).stopStamp
    {
      if action.reqVel.IsZero() {
        if !robotActionPrev.reqVel.IsZero() {
          stopStamp := now;
        } else if now - stopStamp > stopPubTimeout {
          return None;
        }
      }
      published := Some(action.reqVel);
    }

    /** One incoming velocity command. */
    method Process(cmdVelIn: Velocity, collisionPoints: seq<Point>, now: real)
      returns (published: Option<Velocity>, action: Action)
      requires Valid()
      modifies this`stopStamp, this`robotActionPrev
      ensures Valid()
      ensures Monitor() == Next(stopPubTimeout, old(Monitor()), Received(Command(now, action.reqVel)))
      ensures !processActive ==> published == None
      ensures processActive ==>
                && Safest(trig, polygons, collisionPoints, cmdVelIn, action) && robotActionPrev == action
                && published == if Publishes(stopPubTimeout, old(Publisher()), Command(now, action.reqVel))
                                then Some(action.reqVel) else None
    {
      hide Safest, Usable;
      action := robotActionPrev;
      published := None;
      if !processActive {
        return;
      }
      action := ChooseAction(trig, polygons, collisionPoints, cmdVelIn);
      published := PublishVelocity(action, now);
      robotActionPrev := action;
    }
  }

  /** The monitor before event `n` of a run. */
  function StateAfter(timeout: real, run: seq<Event>, n: nat): MonitorState
    requires n <= |run|
  {
    if n == 0 then MonitorState(false, PublisherState(INITIAL_VELOCITY, 0.0))
    else Next(timeout, StateAfter(timeout, run, n - 1), run[n - 1])
  }

  /** Whether event `i` is a command to stand still. */
  predicate IsStop(run: seq<Event>, i: nat)
    requires i < |run|
  {
    run[i].Received? && run[i].command.vel == ZERO
  }

  predicate IsActive(run: seq<Event>, n: nat)
    requires n <= |run|
  {
    n > 0 && (run[n - 1].Activated? || (run[n - 1].Received? && IsActive(run, n - 1)))
  }

  /** Before event `n` an unbroken stop is in progress that began with event `b`: from there on, only
      commands to stand still and further activations. */
  ghost predicate StoppedSince(run: seq<Event>, n: nat, b: nat)
    requires n <= |run|
  {
    && b < n && IsActive(run, b) && IsStop(run, b)
    && (forall k :: b < k < n ==> IsStop(run, k) || run[k].Activated?)
    && !Stopped(run, b)
  }

  /** A stop is in progress before event `n`. */
  predicate Stopped(run: seq<Event>, n: nat)
    requires n <= |run|
  {
    n > 0 &&
    match run[n - 1]
    case Received(c) => if IsActive(run, n - 1) then c.vel == ZERO else Stopped(run, n - 1)
    case Activated => Stopped(run, n - 1)
    case Deactivated => false
  }

  /** The remembered action tells exactly whether a stop is in progress, and the stamp when it began. */
  lemma {:induction false} StampIsStopTime(timeout: real, run: seq<Event>, n: nat) returns (b: nat)
    requires n <= |run|
    ensures StateAfter(timeout, run, n).active <==> IsActive(run, n)
    ensures StateAfter(timeout, run, n).publisher.prevVel.IsZero() <==> Stopped(run, n)
    ensures Stopped(run, n) ==>
              IsActive(run, n) && StoppedSince(run, n, b)
              && StateAfter(timeout, run, n).publisher.stopStamp == run[b].command.now
  {
    ZeroIsStill();
    hide Velocity.IsZero;
    b := 0;
    InitialNotZero();
    if n == 0 {
    } else {
      b := StampIsStopTime(timeout, run, n - 1);
      if IsActive(run, n - 1) && run[n - 1].Received? && !Stopped(run, n - 1) {
        b := n - 1;
      }
    }
  }

  lemma ZeroIsStill()
    ensures forall v: Velocity :: v.IsZero() <==> v == ZERO
  {
  }

  lemma InitialNotZero()
    ensures INITIAL_VELOCITY != ZERO
  {
  }

  /** Over any run of commands, activations and deactivations: while active every moving command is
      published, and so is the first zero command of a stop, also after a deactivation; a later one is
      published exactly while the stop is not older than the timeout. While inactive nothing is. */
  lemma PublicationOverARun(timeout: real, run: seq<Event>, i: nat)
    requires i < |run| && run[i].Received?
    ensures var s, c := StateAfter(timeout, run, i), run[i].command;
            && (s.active <==> IsActive(run, i))
            && (!Stopped(run, i) ==> Publishes(timeout, s.publisher, c))
            && (Stopped(run, i) ==> exists b: nat ::
                  && StoppedSince(run, i, b)
                  && (Publishes(timeout, s.publisher, c) <==>
                        c.vel != ZERO || c.now - run[b].command.now <= timeout))
  {
    ZeroIsStill();
    hide Velocity.IsZero;
    var b := StampIsStopTime(timeout, run, i);
  }
}
