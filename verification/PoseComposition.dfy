/** From the pose of a frame to the pose of the camera mounted on it. */
module PoseComposition {
  import opened Common
  import opened HlocTransform

  /** The shortest quaternion that is normalised. */
  const SHORTEST := 0.000000000001

  /** The square root in use, and the camera's pose in the source frame. */
  datatype Camera = Camera(sqrt: real -> real, extrinsic: Transform)

  function UnitQuaternion(sqrt: real -> real, q: Quat): Option<Quat> {
    var n := sqrt(Norm2(q));
    if n < SHORTEST then None else Some(Quat(q.x / n, q.y / n, q.z / n, q.w / n))
  }

  function ComposePose(camera: Camera, a: Transform): Option<Transform> {
    match UnitQuaternion(camera.sqrt, a.q)
    case None => None
    case Some(q) =>
      match UnitQuaternion(camera.sqrt, QuatMultiply(q, camera.extrinsic.q))
      case None => None
      case Some(rotation) => Some(Transform(Add(a.t, Rotate(q, camera.extrinsic.t)), rotation))
  }

  lemma UnitQuaternionExact(sqrt: real -> real, q: Quat)
    requires IsSqrt(sqrt)
    ensures sqrt(Norm2(q)) < SHORTEST ==> UnitQuaternion(sqrt, q) == None
    ensures sqrt(Norm2(q)) >= SHORTEST ==>
              && Norm2(q) != 0.0
              && UnitQuaternion(sqrt, q) == Some(Normalized(sqrt, q))
              && Norm2(Normalized(sqrt, q)) == 1.0
  {
    NormalizeExact(sqrt, q);
    if sqrt(Norm2(q)) >= SHORTEST {
      assert QuatNormalize(sqrt, q).Some?;
    }
    hide Norm2, Normalized;
  }

  lemma UnitStaysUnit(sqrt: real -> real, q: Quat)
    requires IsSqrt(sqrt) && Norm2(q) == 1.0
    ensures UnitQuaternion(sqrt, q) == Some(q)
  {
    hide Norm2, Normalized;
    NormalizeUnit(sqrt, q);
    RootOfNorm(sqrt, q);
    RootIsUnique(sqrt(Norm2(q)), 1.0);
  }

  /** With a unit extrinsic the camera's pose is the rigid composition of the normalised frame pose with
      it, and it fails exactly for a rotation too short to be normalised. */
  lemma ComposePoseExact(camera: Camera, a: Transform)
    requires IsSqrt(camera.sqrt) && Unit(camera.extrinsic)
    ensures ComposePose(camera, a).None? <==> camera.sqrt(Norm2(a.q)) < SHORTEST
    ensures camera.sqrt(Norm2(a.q)) >= SHORTEST ==>
              && camera.sqrt(Norm2(a.q)) != 0.0
              && ComposePose(camera, a) == Some(Compose(Normal(camera.sqrt, a), camera.extrinsic))
              && Unit(Compose(Normal(camera.sqrt, a), camera.extrinsic))
  {
    hide Norm2, QuatMultiply, Rotate, Normalized, UnitQuaternion;
    UnitQuaternionExact(camera.sqrt, a.q);
    if camera.sqrt(Norm2(a.q)) >= SHORTEST {
      var u := Normal(camera.sqrt, a);
      NormMultiplies(u.q, camera.extrinsic.q);
      UnitStaysUnit(camera.sqrt, QuatMultiply(u.q, camera.extrinsic.q));
    }
  }
}
