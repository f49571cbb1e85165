/** Quaternion and rigid-transform algebra of the map-to-odom publisher. */
module HlocTransform {
  import opened Common

  datatype Quat = Quat(x: real, y: real, z: real, w: real)

  datatype Vec = Vec(x: real, y: real, z: real)

  /** A translation and a rotation. */
  datatype Transform = Transform(t: Vec, q: Quat)

  const ONE := Quat(0.0, 0.0, 0.0, 1.0)
  const ORIGIN := Vec(0.0, 0.0, 0.0)
  const IDENTITY := Transform(ORIGIN, ONE)

  // ---------------------------------------------------------------- the program's functions

  function Norm2(q: Quat): real {
    q.x * q.x + q.y * q.y + q.z * q.z + q.w * q.w
  }

  /** None is the ValueError for a zero-length quaternion. */
  function QuatNormalize(sqrt: real -> real, q: Quat): Option<Quat> {
    var n := sqrt(Norm2(q));
    if n == 0.0 then None else Some(Quat(q.x / n, q.y / n, q.z / n, q.w / n))
  }

  function QuatConjugate(q: Quat): Quat {
    Quat(-q.x, -q.y, -q.z, q.w)
  }

  function QuatMultiply(a: Quat, b: Quat): Quat {
    Quat(
      a.w * b.x + a.x * b.w + a.y * b.z - a.z * b.y,
      a.w * b.y - a.x * b.z + a.y * b.w + a.z * b.x,
      a.w * b.z + a.x * b.y - a.y * b.x + a.z * b.w,
      a.w * b.w - a.x * b.x - a.y * b.y - a.z * b.z)
  }

  function Pure(v: Vec): Quat {
    Quat(v.x, v.y, v.z, 0.0)
  }

  /** The vector part of q v q*. */
  function Rotate(q: Quat, v: Vec): Vec {
    var r := QuatMultiply(QuatMultiply(q, Pure(v)), QuatConjugate(q));
    Vec(r.x, r.y, r.z)
  }

  function RotateVector(sqrt: real -> real, q: Quat, v: Vec): Option<Vec> {
    match QuatNormalize(sqrt, q)
    case None => None
    case Some(u) => Some(Rotate(u, v))
  }

  function Negate(v: Vec): Vec {
    Vec(-v.x, -v.y, -v.z)
  }

  function Add(a: Vec, b: Vec): Vec {
    Vec(a.x + b.x, a.y + b.y, a.z + b.z)
  }

  function InvertTransform(sqrt: real -> real, a: Transform): Option<Transform> {
    match QuatNormalize(sqrt, a.q)
    case None => None
    case Some(u) =>
      var inverse := QuatConjugate(u);
      match RotateVector(sqrt, inverse, Negate(a.t))
      case None => None
      case Some(t) => Some(Transform(t, inverse))
  }

  function ComposeTransform(sqrt: real -> real, a: Transform, b: Transform): Option<Transform> {
    match RotateVector(sqrt, a.q, b.t)
    case None => None
    case Some(rotated) =>
      match QuatNormalize(sqrt, QuatMultiply(a.q, b.q))
      case None => None
      case Some(q) => Some(Transform(Add(a.t, rotated), q))
  }

  /** The chain of `process_pose`: map-camera, camera-base, base-odom. */
  function MapToOdom(sqrt: real -> real, mapCamera: Transform, odomBase: Transform,
                     baseCamera: Transform): Option<Transform> {
    match InvertTransform(sqrt, baseCamera)
    case None => None
    case Some(cameraBase) =>
      match ComposeTransform(sqrt, mapCamera, cameraBase)
      case None => None
      case Some(mapBase) =>
        match InvertTransform(sqrt, odomBase)
        case None => None
        case Some(baseOdom) => ComposeTransform(sqrt, mapBase, baseOdom)
  }

  // ---------------------------------------------------------------- quaternion algebra

  // Associativity is proved with products kept whole, so that each step is linear in them.

  function Times(x: real, y: real): real {
    x * y
  }

  function Triple(x: real, y: real, z: real): real {
    x * y * z
  }

  lemma TripleSum(v: real, p1: real, q1: real, p2: real, q2: real, p3: real, q3: real, p4: real, q4: real, k: real)
    requires v == p1 * q1 + p2 * q2 + p3 * q3 + p4 * q4
    ensures Times(v, k) == Triple(p1, q1, k) + Triple(p2, q2, k) + Triple(p3, q3, k) + Triple(p4, q4, k)
    ensures Times(k, v) == Triple(k, p1, q1) + Triple(k, p2, q2) + Triple(k, p3, q3) + Triple(k, p4, q4)
  {
    assert (p1 * q1 + p2 * q2 + p3 * q3 + p4 * q4) * k == p1 * q1 * k + p2 * q2 * k + p3 * q3 * k + p4 * q4 * k;
  }

  lemma TripleNegates(x: real, y: real, z: real)
    ensures Triple(-x, y, z) == -Triple(x, y, z) && Triple(x, -y, z) == -Triple(x, y, z)
  {
  }

  lemma Components(a: Quat, b: Quat)
    ensures var m := QuatMultiply(a, b);
            && m.x == Times(a.w, b.x) + Times(a.x, b.w) + Times(a.y, b.z) - Times(a.z, b.y)
            && m.y == Times(a.w, b.y) - Times(a.x, b.z) + Times(a.y, b.w) + Times(a.z, b.x)
            && m.z == Times(a.w, b.z) + Times(a.x, b.y) - Times(a.y, b.x) + Times(a.z, b.w)
            && m.w == Times(a.w, b.w) - Times(a.x, b.x) - Times(a.y, b.y) - Times(a.z, b.z)
  {
  }

  lemma TimesX(a: Quat, b: Quat, k: real)
    ensures Times(QuatMultiply(a, b).x, k) ==
              Triple(a.w, b.x, k) + Triple(a.x, b.w, k) + Triple(a.y, b.z, k) - Triple(a.z, b.y, k)
    ensures Times(k, QuatMultiply(a, b).x) ==
              Triple(k, a.w, b.x) + Triple(k, a.x, b.w) + Triple(k, a.y, b.z) - Triple(k, a.z, b.y)
  {
    RawComponents(a, b);
    hide QuatMultiply, Times, Triple;
    TripleSum(QuatMultiply(a, b).x, a.w, b.x, a.x, b.w, a.y, b.z, -a.z, b.y, k);
    TripleNegates(a.z, b.y, k);
    TripleNegates(k, a.z, b.y);
  }

  lemma TimesY(a: Quat, b: Quat, k: real)
    ensures Times(QuatMultiply(a, b).y, k) ==
              Triple(a.w, b.y, k) - Triple(a.x, b.z, k) + Triple(a.y, b.w, k) + Triple(a.z, b.x, k)
    ensures Times(k, QuatMultiply(a, b).y) ==
              Triple(k, a.w, b.y) - Triple(k, a.x, b.z) + Triple(k, a.y, b.w) + Triple(k, a.z, b.x)
  {
    RawComponents(a, b);
    hide QuatMultiply, Times, Triple;
    TripleSum(QuatMultiply(a, b).y, a.w, b.y, -a.x, b.z, a.y, b.w, a.z, b.x, k);
    TripleNegates(a.x, b.z, k);
    TripleNegates(k, a.x, b.z);
  }

  lemma TimesZ(a: Quat, b: Quat, k: real)
    ensures Times(QuatMultiply(a, b).z, k) ==
              Triple(a.w, b.z, k) + Triple(a.x, b.y, k) - Triple(a.y, b.x, k) + Triple(a.z, b.w, k)
    ensures Times(k, QuatMultiply(a, b).z) ==
              Triple(k, a.w, b.z) + Triple(k, a.x, b.y) - Triple(k, a.y, b.x) + Triple(k, a.z, b.w)
  {
    RawComponents(a, b);
    hide QuatMultiply, Times, Triple;
    TripleSum(QuatMultiply(a, b).z, a.w, b.z, a.x, b.y, -a.y, b.x, a.z, b.w, k);
    TripleNegates(a.y, b.x, k);
    TripleNegates(k, a.y, b.x);
  }

  lemma TimesW(a: Quat, b: Quat, k: real)
    ensures Times(QuatMultiply(a, b).w, k) ==
              Triple(a.w, b.w, k) - Triple(a.x, b.x, k) - Triple(a.y, b.y, k) - Triple(a.z, b.z, k)
    ensures Times(k, QuatMultiply(a, b).w) ==
              Triple(k, a.w, b.w) - Triple(k, a.x, b.x) - Triple(k, a.y, b.y) - Triple(k, a.z, b.z)
  {
    RawComponents(a, b);
    hide QuatMultiply, Times, Triple;
    TripleSum(QuatMultiply(a, b).w, a.w, b.w, -a.x, b.x, -a.y, b.y, -a.z, b.z, k);
    TripleNegates(a.x, b.x, k);
    TripleNegates(k, a.x, b.x);
    TripleNegates(a.y, b.y, k);
    TripleNegates(k, a.y, b.y);
    TripleNegates(a.z, b.z, k);
    TripleNegates(k, a.z, b.z);
  }

  lemma RawComponents(a: Quat, b: Quat)
    ensures var m := QuatMultiply(a, b);
            && m.x == a.w * b.x + a.x * b.w + a.y * b.z - a.z * b.y
            && m.y == a.w * b.y - a.x * b.z + a.y * b.w + a.z * b.x
            && m.z == a.w * b.z + a.x * b.y - a.y * b.x + a.z * b.w
            && m.w == a.w * b.w - a.x * b.x - a.y * b.y - a.z * b.z
  {
  }

  lemma AssociatesX(a: Quat, b: Quat, c: Quat)
    ensures QuatMultiply(QuatMultiply(a, b), c).x == QuatMultiply(a, QuatMultiply(b, c)).x
  {
    hide QuatMultiply, Times, Triple;
    Components(QuatMultiply(a, b), c);
    Components(a, QuatMultiply(b, c));
    TimesW(a, b, c.x);
    TimesX(a, b, c.w);
    TimesY(a, b, c.z);
    TimesZ(a, b, c.y);
    TimesX(b, c, a.w);
    TimesW(b, c, a.x);
    TimesZ(b, c, a.y);
    TimesY(b, c, a.z);
  }

  lemma AssociatesY(a: Quat, b: Quat, c: Quat)
    ensures QuatMultiply(QuatMultiply(a, b), c).y == QuatMultiply(a, QuatMultiply(b, c)).y
  {
    hide QuatMultiply, Times, Triple;
    Components(QuatMultiply(a, b), c);
    Components(a, QuatMultiply(b, c));
    TimesW(a, b, c.y);
    TimesX(a, b, c.z);
    TimesY(a, b, c.w);
    TimesZ(a, b, c.x);
    TimesY(b, c, a.w);
    TimesZ(b, c, a.x);
    TimesW(b, c, a.y);
    TimesX(b, c, a.z);
  }

  lemma AssociatesZ(a: Quat, b: Quat, c: Quat)
    ensures QuatMultiply(QuatMultiply(a, b), c).z == QuatMultiply(a, QuatMultiply(b, c)).z
  {
    hide QuatMultiply, Times, Triple;
    Components(QuatMultiply(a, b), c);
    Components(a, QuatMultiply(b, c));
    TimesW(a, b, c.z);
    TimesX(a, b, c.y);
    TimesY(a, b, c.x);
    TimesZ(a, b, c.w);
    TimesZ(b, c, a.w);
    TimesY(b, c, a.x);
    TimesX(b, c, a.y);
    TimesW(b, c, a.z);
  }

  lemma AssociatesW(a: Quat, b: Quat, c: Quat)
    ensures QuatMultiply(QuatMultiply(a, b), c).w == QuatMultiply(a, QuatMultiply(b, c)).w
  {
    hide QuatMultiply, Times, Triple;
    Components(QuatMultiply(a, b), c);
    Components(a, QuatMultiply(b, c));
    TimesW(a, b, c.w);
    TimesX(a, b, c.x);
    TimesY(a, b, c.y);
    TimesZ(a, b, c.z);
    TimesW(b, c, a.w);
    TimesX(b, c, a.x);
    TimesY(b, c, a.y);
    TimesZ(b, c, a.z);
  }

  lemma MultiplyAssociates(a: Quat, b: Quat, c: Quat)
    ensures QuatMultiply(QuatMultiply(a, b), c) == QuatMultiply(a, QuatMultiply(b, c))
  {
    hide QuatMultiply;
    AssociatesX(a, b, c);
    AssociatesY(a, b, c);
    AssociatesZ(a, b, c);
    AssociatesW(a, b, c);
  }

  lemma ConjugateReverses(a: Quat, b: Quat)
    ensures QuatConjugate(QuatMultiply(a, b)) == QuatMultiply(QuatConjugate(b), QuatConjugate(a))
  {
    hide QuatMultiply;
    RawComponents(a, b);
    RawComponents(QuatConjugate(b), QuatConjugate(a));
  }

  lemma TimesConjugate(a: Quat)
    ensures QuatMultiply(a, QuatConjugate(a)) == Quat(0.0, 0.0, 0.0, Norm2(a))
    ensures QuatMultiply(QuatConjugate(a), a) == Quat(0.0, 0.0, 0.0, Norm2(a))
    ensures Norm2(QuatConjugate(a)) == Norm2(a)
  {
  }

  /** Norms multiply (Euler's four-square identity). */
  lemma NormMultiplies(a: Quat, b: Quat)
    ensures Norm2(QuatMultiply(a, b)) == Norm2(a) * Norm2(b)
  {
    hide QuatMultiply, Norm2, QuatConjugate;
    var ca, cb := QuatConjugate(a), QuatConjugate(b);
    TimesConjugate(QuatMultiply(a, b));
    ConjugateReverses(a, b);
    MultiplyAssociates(a, b, QuatMultiply(cb, ca));
    MultiplyAssociates(b, cb, ca);
    TimesConjugate(b);
    assert Quat(0.0, 0.0, 0.0, Norm2(b)) == Scaled(ONE, Norm2(b));
    MultiplyScales(ONE, ca, Norm2(b));
    OneIsNeutral(ca);
    MultiplyScales(a, ca, Norm2(b));
    TimesConjugate(a);
  }

  lemma OneIsNeutral(a: Quat)
    ensures QuatMultiply(a, ONE) == a && QuatMultiply(ONE, a) == a
  {
  }

  /** q v q* is again a pure quaternion. */
  lemma RotationIsPure(q: Quat, v: Vec)
    ensures QuatMultiply(QuatMultiply(q, Pure(v)), QuatConjugate(q)) == Pure(Rotate(q, v))
  {
  }

  // ---------------------------------------------------------------- rotations

  lemma PureIsInjective(v: Vec, w: Vec)
    requires Pure(v) == Pure(w)
    ensures v == w
  {
  }

  /** Rotating by a product is rotating twice. */
  lemma RotateComposes(a: Quat, b: Quat, v: Vec)
    ensures Rotate(QuatMultiply(a, b), v) == Rotate(a, Rotate(b, v))
  {
    hide QuatMultiply, Rotate, QuatConjugate, Pure;
    var p, ca, cb := Pure(v), QuatConjugate(a), QuatConjugate(b);
    calc {
      Pure(Rotate(QuatMultiply(a, b), v));
      { RotationIsPure(QuatMultiply(a, b), v); ConjugateReverses(a, b); }
      QuatMultiply(QuatMultiply(QuatMultiply(a, b), p), QuatMultiply(cb, ca));
      { MultiplyAssociates(a, b, p); }
      QuatMultiply(QuatMultiply(a, QuatMultiply(b, p)), QuatMultiply(cb, ca));
      { MultiplyAssociates(QuatMultiply(a, QuatMultiply(b, p)), cb, ca); }
      QuatMultiply(QuatMultiply(QuatMultiply(a, QuatMultiply(b, p)), cb), ca);
      { MultiplyAssociates(a, QuatMultiply(b, p), cb); RotationIsPure(b, v); }
      QuatMultiply(QuatMultiply(a, Pure(Rotate(b, v))), ca);
      { RotationIsPure(a, Rotate(b, v)); }
      Pure(Rotate(a, Rotate(b, v)));
    }
    PureIsInjective(Rotate(QuatMultiply(a, b), v), Rotate(a, Rotate(b, v)));
  }

  function Sum(a: Quat, b: Quat): Quat {
    Quat(a.x + b.x, a.y + b.y, a.z + b.z, a.w + b.w)
  }

  function Scaled(a: Quat, k: real): Quat {
    Quat(a.x * k, a.y * k, a.z * k, a.w * k)
  }

  lemma TimesSum(b: Quat, c: Quat, k: real)
    ensures var s := Sum(b, c);
            && Times(k, s.x) == Times(k, b.x) + Times(k, c.x) && Times(k, s.y) == Times(k, b.y) + Times(k, c.y)
            && Times(k, s.z) == Times(k, b.z) + Times(k, c.z) && Times(k, s.w) == Times(k, b.w) + Times(k, c.w)
            && Times(s.x, k) == Times(b.x, k) + Times(c.x, k) && Times(s.y, k) == Times(b.y, k) + Times(c.y, k)
            && Times(s.z, k) == Times(b.z, k) + Times(c.z, k) && Times(s.w, k) == Times(b.w, k) + Times(c.w, k)
  {
  }

  lemma MultiplyDistributes(a: Quat, b: Quat, c: Quat)
    ensures QuatMultiply(a, Sum(b, c)) == Sum(QuatMultiply(a, b), QuatMultiply(a, c))
    ensures QuatMultiply(Sum(b, c), a) == Sum(QuatMultiply(b, a), QuatMultiply(c, a))
  {
    hide QuatMultiply, Times;
    Components(a, Sum(b, c));
    Components(a, b);
    Components(a, c);
    Components(Sum(b, c), a);
    Components(b, a);
    Components(c, a);
    TimesSum(b, c, a.x);
    TimesSum(b, c, a.y);
    TimesSum(b, c, a.z);
    TimesSum(b, c, a.w);
  }

  lemma TimesScaled(a: Quat, y: real, k: real)
    ensures var s := Scaled(a, k);
            && Times(s.x, y) == Triple(a.x, y, k) && Times(s.y, y) == Triple(a.y, y, k)
            && Times(s.z, y) == Triple(a.z, y, k) && Times(s.w, y) == Triple(a.w, y, k)
            && Times(y, s.x) == Triple(y, a.x, k) && Times(y, s.y) == Triple(y, a.y, k)
            && Times(y, s.z) == Triple(y, a.z, k) && Times(y, s.w) == Triple(y, a.w, k)
  {
  }

  lemma MultiplyScales(a: Quat, b: Quat, k: real)
    ensures QuatMultiply(Scaled(a, k), b) == Scaled(QuatMultiply(a, b), k)
    ensures QuatMultiply(a, Scaled(b, k)) == Scaled(QuatMultiply(a, b), k)
  {
    hide QuatMultiply, Times, Triple;
    Components(Scaled(a, k), b);
    Components(a, Scaled(b, k));
    TimesX(a, b, k);
    TimesY(a, b, k);
    TimesZ(a, b, k);
    TimesW(a, b, k);
    TimesScaled(a, b.x, k);
    TimesScaled(a, b.y, k);
    TimesScaled(a, b.z, k);
    TimesScaled(a, b.w, k);
    TimesScaled(b, a.x, k);
    TimesScaled(b, a.y, k);
    TimesScaled(b, a.z, k);
    TimesScaled(b, a.w, k);
    ScaledIsTimes(QuatMultiply(a, b), k);
  }

  lemma ScaledIsTimes(a: Quat, k: real)
    ensures Scaled(a, k) == Quat(Times(a.x, k), Times(a.y, k), Times(a.z, k), Times(a.w, k))
  {
  }

  lemma RotateAdds(q: Quat, v: Vec, w: Vec)
    ensures Rotate(q, Add(v, w)) == Add(Rotate(q, v), Rotate(q, w))
  {
    hide QuatMultiply;
    MultiplyDistributes(q, Pure(v), Pure(w));
    MultiplyDistributes(QuatConjugate(q), QuatMultiply(q, Pure(v)), QuatMultiply(q, Pure(w)));
  }

  lemma RotateOrigin(q: Quat)
    ensures Rotate(q, ORIGIN) == ORIGIN
  {
    RotateAdds(q, ORIGIN, ORIGIN);
    hide Rotate;
  }

  lemma RotateNegates(q: Quat, v: Vec)
    ensures Rotate(q, Negate(v)) == Negate(Rotate(q, v))
  {
    RotateAdds(q, v, Negate(v));
    RotateOrigin(q);
    assert Add(v, Negate(v)) == ORIGIN;
    hide Rotate;
  }

  /** Rotations by unit quaternions keep lengths: the transforms are rigid. */
  lemma RotationIsIsometry(q: Quat, v: Vec)
    requires Norm2(q) == 1.0
    ensures Norm2(Pure(Rotate(q, v))) == Norm2(Pure(v))
  {
    hide QuatMultiply, Norm2, Rotate;
    RotationIsPure(q, v);
    NormMultiplies(QuatMultiply(q, Pure(v)), QuatConjugate(q));
    NormMultiplies(q, Pure(v));
    TimesConjugate(q);
  }

  // ---------------------------------------------------------------- rigid transforms

  /** Composition and inverse on unit quaternions, without the normalisations. */
  function Compose(a: Transform, b: Transform): Transform {
    Transform(Add(a.t, Rotate(a.q, b.t)), QuatMultiply(a.q, b.q))
  }

  function Inverse(a: Transform): Transform {
    Transform(Rotate(QuatConjugate(a.q), Negate(a.t)), QuatConjugate(a.q))
  }

  predicate Unit(a: Transform) {
    Norm2(a.q) == 1.0
  }

  /** Where a transform takes a point. */
  function Moves(a: Transform, p: Vec): Vec {
    Add(a.t, Rotate(a.q, p))
  }

  /** A composed transform takes a point where the second takes it and then the first. */
  lemma ComposeMoves(a: Transform, b: Transform, p: Vec)
    ensures Moves(Compose(a, b), p) == Moves(a, Moves(b, p))
  {
    hide QuatMultiply, Rotate;
    RotateComposes(a.q, b.q, p);
    RotateAdds(a.q, b.t, Rotate(b.q, p));
  }

  /** An inverted transform takes a point back. */
  lemma InverseMoves(a: Transform, p: Vec)
    requires Unit(a)
    ensures Moves(Inverse(a), Moves(a, p)) == p && Moves(a, Moves(Inverse(a), p)) == p
  {
    hide QuatMultiply, Rotate, Norm2, Compose, Inverse;
    InverseCancels(a);
    ComposeMoves(Inverse(a), a, p);
    ComposeMoves(a, Inverse(a), p);
    IdentityMoves(p);
  }

  lemma IdentityMoves(p: Vec)
    ensures Moves(IDENTITY, p) == p
  {
    hide Rotate;
    RotateOne(p);
  }

  /** Rotating by a quaternion is multiplying by its rotation matrix. */
  lemma RotateIsMatrix(q: Quat, v: Vec)
    ensures var r := Rotate(q, v);
            && r.x == (q.w * q.w + q.x * q.x - q.y * q.y - q.z * q.z) * v.x
                      + 2.0 * (q.x * q.y - q.w * q.z) * v.y + 2.0 * (q.x * q.z + q.w * q.y) * v.z
            && r.y == 2.0 * (q.x * q.y + q.w * q.z) * v.x
                      + (q.w * q.w - q.x * q.x + q.y * q.y - q.z * q.z) * v.y + 2.0 * (q.y * q.z - q.w * q.x) * v.z
            && r.z == 2.0 * (q.x * q.z - q.w * q.y) * v.x
                      + 2.0 * (q.y * q.z + q.w * q.x) * v.y + (q.w * q.w - q.x * q.x - q.y * q.y + q.z * q.z) * v.z
  {
  }

  lemma ComposeAssociates(a: Transform, b: Transform, c: Transform)
    ensures Compose(Compose(a, b), c) == Compose(a, Compose(b, c))
  {
    hide QuatMultiply, Rotate;
    MultiplyAssociates(a.q, b.q, c.q);
    RotateComposes(a.q, b.q, c.t);
    RotateAdds(a.q, b.t, Rotate(b.q, c.t));
  }

  lemma InverseCancels(a: Transform)
    requires Unit(a)
    ensures Compose(Inverse(a), a) == IDENTITY && Compose(a, Inverse(a)) == IDENTITY
    ensures Unit(Inverse(a))
  {
    hide QuatMultiply, Rotate, QuatConjugate, Norm2;
    TimesConjugate(a.q);
    RotateNegates(QuatConjugate(a.q), a.t);
    RotateComposes(a.q, QuatConjugate(a.q), Negate(a.t));
    RotateOne(Negate(a.t));
  }

  lemma NeutralRotation(q: Quat, v: Vec)
    requires QuatMultiply(q, Pure(v)) == Pure(v) && QuatMultiply(Pure(v), QuatConjugate(q)) == Pure(v)
    ensures Rotate(q, v) == v
  {
    hide QuatMultiply, QuatConjugate;
  }

  lemma ConjugateOne()
    ensures QuatConjugate(ONE) == ONE
  {
  }

  lemma RotateOne(v: Vec)
    ensures Rotate(ONE, v) == v
  {
    hide QuatMultiply, QuatConjugate, Rotate, Pure;
    ConjugateOne();
    OneIsNeutral(Pure(v));
    NeutralRotation(ONE, v);
  }

  lemma IdentityIsNeutral(a: Transform)
    ensures Compose(a, IDENTITY) == a
  {
    hide QuatMultiply, Rotate;
    OneIsNeutral(a.q);
    RotateOrigin(a.q);
  }

  lemma ComposeKeepsUnit(a: Transform, b: Transform)
    requires Unit(a) && Unit(b)
    ensures Unit(Compose(a, b))
  {
    hide QuatMultiply, Rotate, Norm2;
    NormMultiplies(a.q, b.q);
  }

  // ---------------------------------------------------------------- normalisation

  lemma Norm2NonNegative(q: Quat)
    ensures Norm2(q) >= 0.0
  {
    SquareNonNegative(q.x);
    SquareNonNegative(q.y);
    SquareNonNegative(q.z);
    SquareNonNegative(q.w);
  }

  lemma SquareNonNegative(x: real)
    ensures x * x >= 0.0
  {
  }

  lemma SquareOrder(r: real, s: real)
    requires r >= 0.0 && s >= 0.0
    ensures r < s ==> r * r < s * s
  {
    assert s * s - r * r == (s - r) * (s + r);
    if r < s { PositiveProduct(s - r, s + r); }
  }

  lemma PositiveProduct(x: real, y: real)
    requires x > 0.0 && y > 0.0
    ensures x * y > 0.0
  {
  }

  lemma RootIsUnique(r: real, s: real)
    requires r >= 0.0 && s >= 0.0 && r * r == s * s
    ensures r == s
  {
    SquareOrder(r, s);
    SquareOrder(s, r);
  }

  lemma NormScales(a: Quat, k: real)
    ensures Norm2(Scaled(a, k)) == Norm2(a) * (k * k)
  {
  }

  lemma ScaledTwice(a: Quat, j: real, k: real, l: real)
    requires l == j * k
    ensures Scaled(Scaled(a, j), k) == Scaled(a, l)
  {
  }

  lemma RootOfNorm(sqrt: real -> real, q: Quat)
    requires IsSqrt(sqrt)
    ensures var n := sqrt(Norm2(q)); n >= 0.0 && n * n == Norm2(q) && (n == 0.0 <==> Norm2(q) == 0.0)
  {
    Norm2NonNegative(q);
    hide Norm2;
    ZeroSquare(sqrt(Norm2(q)), Norm2(q));
  }

  lemma ZeroSquare(n: real, m: real)
    requires n >= 0.0 && m == n * n
    ensures m == 0.0 <==> n == 0.0
  {
    if n > 0.0 { PositiveTimes(n, n, m); } else { ZeroTimes(n, n, m); }
  }

  lemma PositiveTimes(x: real, y: real, m: real)
    requires x > 0.0 && y > 0.0 && m == x * y
    ensures m > 0.0
  {
  }

  lemma ZeroTimes(x: real, y: real, m: real)
    requires x == 0.0 && m == x * y
    ensures m == 0.0
  {
  }

  /** The unit quaternion in the direction of `q`. */
  function Normalized(sqrt: real -> real, q: Quat): Quat
    requires sqrt(Norm2(q)) != 0.0
  {
    Scaled(q, 1.0 / sqrt(Norm2(q)))
  }

  lemma ReciprocalSquare(n: real)
    requires n != 0.0
    ensures n * n * (1.0 / n * (1.0 / n)) == 1.0
  {
    assert n * (1.0 / n) == 1.0;
    assert n * n * (1.0 / n * (1.0 / n)) == (n * (1.0 / n)) * (n * (1.0 / n));
  }

  lemma DivideIsScale(q: Quat, n: real)
    requires n != 0.0
    ensures Quat(q.x / n, q.y / n, q.z / n, q.w / n) == Scaled(q, 1.0 / n)
  {
  }

  /** Normalising fails exactly on the zero quaternion and otherwise gives the unit one. */
  lemma NormalizeExact(sqrt: real -> real, q: Quat)
    requires IsSqrt(sqrt)
    ensures QuatNormalize(sqrt, q) == None <==> Norm2(q) == 0.0
    ensures Norm2(q) != 0.0 ==>
              && sqrt(Norm2(q)) != 0.0
              && QuatNormalize(sqrt, q) == Some(Normalized(sqrt, q)) && Norm2(Normalized(sqrt, q)) == 1.0
  {
    hide Norm2, Scaled;
    RootOfNorm(sqrt, q);
    var n := sqrt(Norm2(q));
    if n != 0.0 {
      DivideIsScale(q, n);
      NormScales(q, 1.0 / n);
      ReciprocalSquare(n);
    }
  }

  lemma NormalizeUnit(sqrt: real -> real, q: Quat)
    requires IsSqrt(sqrt) && Norm2(q) == 1.0
    ensures QuatNormalize(sqrt, q) == Some(q) && sqrt(Norm2(q)) != 0.0 && Normalized(sqrt, q) == q
  {
    hide Norm2;
    RootOfNorm(sqrt, q);
    RootIsUnique(sqrt(Norm2(q)), 1.0);
  }

  lemma RootOfProduct(m: real, n: real, r: real, x: real, y: real)
    requires m >= 0.0 && n >= 0.0 && r >= 0.0
    requires m * m == x && n * n == y && r * r == x * y
    ensures r == m * n
  {
    assert (m * n) * (m * n) == (m * m) * (n * n);
    assert m * n >= 0.0;
    RootIsUnique(r, m * n);
  }

  lemma ReciprocalProduct(m: real, n: real, r: real)
    requires m != 0.0 && n != 0.0 && r == m * n
    ensures r != 0.0 && 1.0 / m * (1.0 / n) == 1.0 / r
  {
    assert m * n != 0.0 by {
      if m > 0.0 && n > 0.0 { PositiveProduct(m, n); }
      if m < 0.0 && n < 0.0 { PositiveProduct(-m, -n); }
      if m > 0.0 && n < 0.0 { PositiveProduct(m, -n); }
      if m < 0.0 && n > 0.0 { PositiveProduct(-m, n); }
    }
    assert m * (1.0 / m) == 1.0 && n * (1.0 / n) == 1.0;
    assert (m * n) * (1.0 / m * (1.0 / n)) == (m * (1.0 / m)) * (n * (1.0 / n));
    QuotientUnique(r, 1.0 / m * (1.0 / n));
  }

  lemma QuotientUnique(d: real, x: real)
    requires d != 0.0 && d * x == 1.0
    ensures x == 1.0 / d
  {
  }

  /** Normalising a product is multiplying the normalised factors. */
  lemma NormalizeProduct(sqrt: real -> real, a: Quat, b: Quat)
    requires IsSqrt(sqrt) && Norm2(a) != 0.0 && Norm2(b) != 0.0
    ensures sqrt(Norm2(a)) != 0.0 && sqrt(Norm2(b)) != 0.0
    ensures QuatNormalize(sqrt, QuatMultiply(a, b)) == Some(QuatMultiply(Normalized(sqrt, a), Normalized(sqrt, b)))
  {
    hide Norm2, QuatMultiply, Scaled, QuatNormalize;
    var ab := QuatMultiply(a, b);
    RootOfNorm(sqrt, a);
    RootOfNorm(sqrt, b);
    RootOfNorm(sqrt, ab);
    NormMultiplies(a, b);
    var m, n := sqrt(Norm2(a)), sqrt(Norm2(b));
    RootOfProduct(m, n, sqrt(Norm2(ab)), Norm2(a), Norm2(b));
    ReciprocalProduct(m, n, sqrt(Norm2(ab)));
    NormalizeExact(sqrt, ab);
    MultiplyScales(Scaled(a, 1.0 / m), b, 1.0 / n);
    MultiplyScales(a, b, 1.0 / m);
    ScaledTwice(ab, 1.0 / m, 1.0 / n, 1.0 / sqrt(Norm2(ab)));
  }

  // ---------------------------------------------------------------- the chain

  function Normal(sqrt: real -> real, a: Transform): Transform
    requires sqrt(Norm2(a.q)) != 0.0
  {
    Transform(a.t, Normalized(sqrt, a.q))
  }

  /** The program's composition is composition of the normalised transforms. */
  lemma ComposeExact(sqrt: real -> real, a: Transform, b: Transform)
    requires IsSqrt(sqrt) && Norm2(a.q) != 0.0 && Norm2(b.q) != 0.0
    ensures sqrt(Norm2(a.q)) != 0.0 && sqrt(Norm2(b.q)) != 0.0
    ensures ComposeTransform(sqrt, a, b) == Some(Compose(Normal(sqrt, a), Normal(sqrt, b)))
  {
    hide Norm2, QuatMultiply, Rotate, QuatNormalize, Normalized;
    NormalizeExact(sqrt, a.q);
    NormalizeExact(sqrt, b.q);
    NormalizeProduct(sqrt, a.q, b.q);
  }

  lemma InvertExact(sqrt: real -> real, a: Transform)
    requires IsSqrt(sqrt) && Norm2(a.q) != 0.0
    ensures sqrt(Norm2(a.q)) != 0.0
    ensures InvertTransform(sqrt, a) == Some(Inverse(Normal(sqrt, a)))
  {
    hide Norm2, Rotate, QuatNormalize, Normalized, QuatConjugate;
    NormalizeExact(sqrt, a.q);
    var u := Normalized(sqrt, a.q);
    TimesConjugate(u);
    NormalizeUnit(sqrt, QuatConjugate(u));
  }

  lemma NormalOfUnit(sqrt: real -> real, a: Transform)
    requires IsSqrt(sqrt) && Unit(a)
    ensures sqrt(Norm2(a.q)) != 0.0 && Normal(sqrt, a) == a
  {
    NormalizeUnit(sqrt, a.q);
    hide Norm2;
  }

  /** Group law behind the chain: m c' o' o c == m. */
  lemma ChainCancels(m: Transform, c: Transform, o: Transform)
    requires Unit(c) && Unit(o)
    ensures Compose(Compose(Compose(Compose(m, Inverse(c)), Inverse(o)), o), c) == m
  {
    hide Compose, Inverse;
    var mc := Compose(m, Inverse(c));
    ComposeAssociates(mc, Inverse(o), o);
    InverseCancels(o);
    IdentityIsNeutral(mc);
    ComposeAssociates(m, Inverse(c), c);
    InverseCancels(c);
    IdentityIsNeutral(m);
  }

  /** The published map-to-odom transform exists exactly when none of the three rotations is the zero
      quaternion; following it by odom-to-base and base-to-camera gives back the measured
      map-to-camera pose: its translation exactly and its rotation normalised. */
  lemma MapToOdomExact(sqrt: real -> real, mapCamera: Transform, odomBase: Transform, baseCamera: Transform)
    requires IsSqrt(sqrt)
    ensures MapToOdom(sqrt, mapCamera, odomBase, baseCamera).Some? <==>
            Norm2(mapCamera.q) != 0.0 && Norm2(odomBase.q) != 0.0 && Norm2(baseCamera.q) != 0.0
    ensures MapToOdom(sqrt, mapCamera, odomBase, baseCamera).Some? ==>
              var mapOdom := MapToOdom(sqrt, mapCamera, odomBase, baseCamera).value;
              && Unit(mapOdom)
              && ComposeTransform(sqrt, mapOdom, odomBase).Some?
              && var mapBase := ComposeTransform(sqrt, mapOdom, odomBase).value;
                 ComposeTransform(sqrt, mapBase, baseCamera) ==
                 Some(Transform(mapCamera.t, Normalized(sqrt, mapCamera.q)))
  {
    hide Norm2, QuatMultiply, Rotate, QuatNormalize, Normalized, Compose, Inverse;
    NormalizeExact(sqrt, baseCamera.q);
    NormalizeExact(sqrt, mapCamera.q);
    NormalizeExact(sqrt, odomBase.q);
    if Norm2(mapCamera.q) != 0.0 && Norm2(odomBase.q) != 0.0 && Norm2(baseCamera.q) != 0.0 {
      ChainRuns(sqrt, mapCamera, odomBase, baseCamera);
    } else {
      ChainFails(sqrt, mapCamera, odomBase, baseCamera);
    }
  }

  lemma ChainFails(sqrt: real -> real, mapCamera: Transform, odomBase: Transform, baseCamera: Transform)
    requires IsSqrt(sqrt)
    requires Norm2(mapCamera.q) == 0.0 || Norm2(odomBase.q) == 0.0 || Norm2(baseCamera.q) == 0.0
    ensures MapToOdom(sqrt, mapCamera, odomBase, baseCamera) == None
  {
    hide Norm2, QuatMultiply, Rotate, QuatNormalize;
    NormalizeExact(sqrt, baseCamera.q);
    NormalizeExact(sqrt, mapCamera.q);
    NormalizeExact(sqrt, odomBase.q);
  }

  lemma ChainRuns(sqrt: real -> real, mapCamera: Transform, odomBase: Transform, baseCamera: Transform)
    requires IsSqrt(sqrt)
    requires Norm2(mapCamera.q) != 0.0 && Norm2(odomBase.q) != 0.0 && Norm2(baseCamera.q) != 0.0
    ensures MapToOdom(sqrt, mapCamera, odomBase, baseCamera).Some?
    ensures var mapOdom := MapToOdom(sqrt, mapCamera, odomBase, baseCamera).value;
            && Unit(mapOdom)
            && ComposeTransform(sqrt, mapOdom, odomBase).Some?
            && var mapBase := ComposeTransform(sqrt, mapOdom, odomBase).value;
               && sqrt(Norm2(mapCamera.q)) != 0.0
               && ComposeTransform(sqrt, mapBase, baseCamera) == Some(Normal(sqrt, mapCamera))
  {
    NormalizeExact(sqrt, baseCamera.q);
    NormalizeExact(sqrt, mapCamera.q);
    NormalizeExact(sqrt, odomBase.q);
    hide Norm2, QuatMultiply, Rotate, QuatNormalize, Normalized, Compose, Inverse, ComposeTransform, InvertTransform;
    var m, o, c := Normal(sqrt, mapCamera), Normal(sqrt, odomBase), Normal(sqrt, baseCamera);
    InvertExact(sqrt, baseCamera);
    InverseCancels(c);
    ComposeExact(sqrt, mapCamera, Inverse(c));
    NormalOfUnit(sqrt, Inverse(c));
    var mapBase := Compose(m, Inverse(c));
    ComposeKeepsUnit(m, Inverse(c));
    InvertExact(sqrt, odomBase);
    InverseCancels(o);
    NormalOfUnit(sqrt, Inverse(o));
    NormalOfUnit(sqrt, mapBase);
    ComposeExact(sqrt, mapBase, Inverse(o));
    var mapOdom := Compose(mapBase, Inverse(o));
    ComposeKeepsUnit(mapBase, Inverse(o));
    NormalOfUnit(sqrt, mapOdom);
    ComposeExact(sqrt, mapOdom, odomBase);
    var back := Compose(mapOdom, o);
    ComposeKeepsUnit(mapOdom, o);
    NormalOfUnit(sqrt, back);
    ComposeExact(sqrt, back, baseCamera);
    ChainCancels(m, c, o);
  }
}
