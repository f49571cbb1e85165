/** One camera, one calibration: rejects mixed image or calibration streams. */
module CameraContract {
  import opened Common

  /** What str() gives of an exception: one of the capture's own, or the text of any other. */
  datatype Message =
    | Text(text: string)
    | BadDimensions | BadEncoding | ImageChanged | FrameIdMismatch | SizeMismatch
    | NotFinite | BadFocalLength | InfoChanged
    | StampNotPositive | StampBackwards
    | ResolutionChanged | EncodingFailed | FileExists | WriteFailed | ReplaceFailed | RowFailed
    | WriterClosed | QueueFull | WriterFailed(cause: Message)
    | NoFrames | NothingSaved | ClockBackwards

  /** A call that returns normally or raises with a message. */
  datatype Outcome = Returned | Raised(message: Message)

  datatype Roi = Roi(xOffset: int, yOffset: int, width: int, height: int, doRectify: bool)

  /** `k` has nine entries, of which the focal lengths fx and fy are the first and fifth. */
  datatype CameraInfo = CameraInfo(
    stamp: int, frameId: string, width: int, height: int, distortionModel: string,
    d: seq<Number>, k: seq<Number>, r: seq<Number>, p: seq<Number>,
    binningX: int, binningY: int, roi: Roi)

  datatype ImageSignature = ImageSignature(width: int, height: int, encoding: string, frameId: string)

  datatype Contract = Contract(image: Option<ImageSignature>, info: Option<CameraInfo>)

  const FRESH := Contract(None, None)

  predicate ValidImage(s: ImageSignature) {
    s.width > 0 && s.height > 0 && s.encoding in {"rgb8", "bgr8", "mono8"}
  }

  /** The acquisition stamp does not belong to the calibration. */
  function Signature(info: CameraInfo): CameraInfo {
    info.(stamp := 0)
  }

  predicate AllFinite(values: seq<Number>) {
    forall i :: 0 <= i < |values| ==> values[i].Finite?
  }

  predicate ValidInfo(info: CameraInfo) {
    && |info.k| == 9
    && AllFinite(info.d) && AllFinite(info.k) && AllFinite(info.r) && AllFinite(info.p)
    && (info.k[0].v != 0.0 ==> info.k[0].v > 0.0 && info.k[4].v > 0.0)
  }

  predicate FullFrame(info: CameraInfo) {
    && info.binningX in {0, 1} && info.binningY in {0, 1}
    && info.roi.xOffset == 0 && info.roi.yOffset == 0 && info.roi.width == 0 && info.roi.height == 0
  }

  /** An image stream and a calibration that may be used together. */
  predicate Compatible(info: CameraInfo, s: ImageSignature) {
    && info.frameId == s.frameId
    && (FullFrame(info) && info.width != 0 && info.height != 0 ==> info.width == s.width && info.height == s.height)
  }

  function CheckPair(c: Contract): Outcome {
    if c.info.None? || c.image.None? then Returned
    else if c.info.value.frameId != c.image.value.frameId then Raised(FrameIdMismatch)
    else if !Compatible(c.info.value, c.image.value) then Raised(SizeMismatch)
    else Returned
  }

  /** The new signature is stored before the pair is checked, even if the check then raises. */
  function ObserveImage(c: Contract, s: ImageSignature): (Contract, Outcome) {
    if s.width <= 0 || s.height <= 0 then (c, Raised(BadDimensions))
    else if !ValidImage(s) then (c, Raised(BadEncoding))
    else if c.image.Some? && c.image.value != s then (c, Raised(ImageChanged))
    else
      var after := c.(image := Some(s));
      (after, CheckPair(after))
  }

  function ObserveInfo(c: Contract, info: CameraInfo): (Contract, Outcome)
    requires |info.k| == 9
  {
    var s := Signature(info);
    if !(AllFinite(s.d) && AllFinite(s.k) && AllFinite(s.r) && AllFinite(s.p))
    then (c, Raised(NotFinite))
    else if !ValidInfo(s) then (c, Raised(BadFocalLength))
    else if c.info.Some? && c.info.value != s then (c, Raised(InfoChanged))
    else
      var after := c.(info := Some(s));
      (after, CheckPair(after))
  }

  class CameraContract {
    var imageSignature: Option<ImageSignature>
    var info: Option<CameraInfo>

    ghost function View(): Contract
      reads this
    {
      Contract(imageSignature, info)
    }

    constructor ()
      ensures View() == FRESH
    {
      imageSignature, info := None, None;
    }

    method CheckPairNow() returns (o: Outcome)
      ensures o == CheckPair(View())
    {
      if info.None? || imageSignature.None? {
        return Returned;
      }
      var s := imageSignature.value;
      if info.value.frameId != s.frameId {
        return Raised(FrameIdMismatch);
      }
      var roi := info.value.roi;
      var fullFrame := info.value.binningX in {0, 1} && info.value.binningY in {0, 1} &&
                       roi.xOffset == 0 && roi.yOffset == 0 && roi.width == 0 && roi.height == 0;
      if fullFrame && info.value.width != 0 && info.value.height != 0 {
        if (info.value.width, info.value.height) != (s.width, s.height) {
          return Raised(SizeMismatch);
        }
      }
      return Returned;
    }

    method Observe(width: int, height: int, encoding: string, frameId: string) returns (o: Outcome)
      modifies this
      ensures (View(), o) == ObserveImage(old(View()), ImageSignature(width, height, encoding, frameId))
    {
      if width <= 0 || height <= 0 {
        return Raised(BadDimensions);
      }
      if encoding !in {"rgb8", "bgr8", "mono8"} {
        return Raised(BadEncoding);
      }
      var s := ImageSignature(width, height, encoding, frameId);
      if imageSignature.Some? && s != imageSignature.value {
        return Raised(ImageChanged);
      }
      imageSignature := Some(s);
      o := CheckPairNow();
    }

    method ObserveCalibration(message: CameraInfo) returns (o: Outcome)
      requires |message.k| == 9
      modifies this
      ensures (View(), o) == ObserveInfo(old(View()), message)
    {
      var s := message.(stamp := 0);
      if !AllFinite(s.d) || !AllFinite(s.k) || !AllFinite(s.r) || !AllFinite(s.p) {
        return Raised(NotFinite);
      }
      if s.k[0].v != 0.0 && (s.k[0].v <= 0.0 || s.k[4].v <= 0.0) {
        return Raised(BadFocalLength);
      }
      if info.Some? && s != info.value {
        return Raised(InfoChanged);
      }
      info := Some(s);
      o := CheckPairNow();
    }
  }

  // ---------------------------------------------------------------- what is accepted

  datatype Observation = SawImage(s: ImageSignature) | SawInfo(info: CameraInfo)

  predicate WellShaped(obs: seq<Observation>) {
    forall i :: 0 <= i < |obs| ==> (obs[i].SawInfo? ==> |obs[i].info.k| == 9)
  }

  function Observe(c: Contract, o: Observation): (Contract, Outcome)
    requires o.SawInfo? ==> |o.info.k| == 9
  {
    match o
    case SawImage(s) => ObserveImage(c, s)
    case SawInfo(info) => ObserveInfo(c, info)
  }

  /** The contract after `obs`, or None once one of them has raised. */
  function ObserveAll(obs: seq<Observation>): Option<Contract>
    requires WellShaped(obs)
  {
    if obs == [] then Some(FRESH)
    else
      match ObserveAll(obs[..|obs| - 1])
      case None => None
      case Some(c) =>
        var (after, o) := Observe(c, obs[|obs| - 1]);
        if o.Returned? then Some(after) else None
  }

  /** An image of a known kind; a calibration of finite numbers whose focal lengths are positive, unless
      it is none. */
  predicate Proper(o: Observation) {
    match o
    case SawImage(s) =>
      && 0 < s.width && 0 < s.height
      && (s.encoding == "rgb8" || s.encoding == "bgr8" || s.encoding == "mono8")
    case SawInfo(info) =>
      && |info.k| == 9 && NonFinite !in info.d && NonFinite !in info.k && NonFinite !in info.r && NonFinite !in info.p
      && (info.k[0] == Finite(0.0) || (Positive(info.k[0]) && Positive(info.k[4])))
  }

  predicate Positive(x: Number) {
    x.Finite? && 0.0 < x.v
  }

  /** All images agree, all calibrations agree up to their stamps, and the two are of one camera. */
  predicate Agree(a: Observation, b: Observation) {
    match (a, b)
    case (SawImage(s), SawImage(t)) => s == t
    case (SawInfo(i), SawInfo(j)) => i.(stamp := j.stamp) == j
    case (SawImage(s), SawInfo(i)) => SameCamera(i, s)
    case (SawInfo(i), SawImage(s)) => SameCamera(i, s)
  }

  /** They name the same frame, and have the same size if the calibration gives one for the full frame. */
  predicate SameCamera(i: CameraInfo, s: ImageSignature) {
    var cropped := i.roi.xOffset != 0 || i.roi.yOffset != 0 || i.roi.width != 0 || i.roi.height != 0;
    var binned := !(0 <= i.binningX <= 1) || !(0 <= i.binningY <= 1);
    && i.frameId == s.frameId
    && (cropped || binned || i.width == 0 || i.height == 0 || (i.width == s.width && i.height == s.height))
  }

  predicate Consistent(obs: seq<Observation>) {
    && (forall i :: 0 <= i < |obs| ==> Proper(obs[i]))
    && (forall i, j :: 0 <= i < |obs| && 0 <= j < |obs| ==> Agree(obs[i], obs[j]))
  }

  lemma ProperImage(s: ImageSignature)
    ensures Proper(SawImage(s)) <==> ValidImage(s)
  {
  }

  lemma ProperInfo(info: CameraInfo)
    ensures Proper(SawInfo(info)) <==> ValidInfo(info)
  {
    FiniteMeans(info.d);
    FiniteMeans(info.k);
    FiniteMeans(info.r);
    FiniteMeans(info.p);
    hide AllFinite;
  }

  lemma FiniteMeans(values: seq<Number>)
    ensures AllFinite(values) <==> NonFinite !in values
    ensures AllFinite(values) ==> forall i :: 0 <= i < |values| ==> values[i].Finite?
  {
    if NonFinite !in values {
      forall i | 0 <= i < |values| ensures values[i].Finite? {
        assert values[i] in values;
      }
    }
  }

  lemma SameCameraFits(info: CameraInfo, s: ImageSignature)
    ensures SameCamera(info, s) <==> Compatible(info, s)
  {
  }

  /** `c` holds exactly the images and calibrations seen. */
  ghost predicate Remembers(c: Contract, obs: seq<Observation>) {
    && (c.image.Some? <==> exists i :: 0 <= i < |obs| && obs[i].SawImage?)
    && (c.info.Some? <==> exists i :: 0 <= i < |obs| && obs[i].SawInfo?)
    && (forall i :: 0 <= i < |obs| && obs[i].SawImage? ==> c.image == Some(obs[i].s))
    && (forall i :: 0 <= i < |obs| && obs[i].SawInfo? ==> c.info == Some(Signature(obs[i].info)))
  }

  /** A stream of observations is accepted to the end exactly when it is consistent. The condition
      does not mention the order: either callback may come first. */
  lemma {:induction false} AcceptsExactlyConsistent(obs: seq<Observation>)
    requires WellShaped(obs)
    ensures ObserveAll(obs).Some? <==> Consistent(obs)
    ensures ObserveAll(obs).Some? ==> Remembers(ObserveAll(obs).value, obs)
  {
    if obs == [] {
    } else {
      var init, last := obs[..|obs| - 1], obs[|obs| - 1];
      AcceptsExactlyConsistent(init);
      ConsistentGrows(init, last);
      assert obs == init + [last];
      if ObserveAll(init).Some? {
        ObserveOneMore(ObserveAll(init).value, init, last);
      }
    }
  }

  /** What a further observation has to meet. */
  predicate Fits(obs: seq<Observation>, o: Observation) {
    && Proper(o)
    && Agree(o, o)
    && forall i :: 0 <= i < |obs| ==> Agree(obs[i], o)
  }

  lemma ConsistentGrows(obs: seq<Observation>, o: Observation)
    ensures Consistent(obs + [o]) <==> Consistent(obs) && Fits(obs, o)
  {
    var all := obs + [o];
    assert all[|obs|] == o;
    assert forall i :: 0 <= i < |obs| ==> all[i] == obs[i];
    hide SameCamera, Proper;
  }

  lemma ObserveOneMore(c: Contract, obs: seq<Observation>, o: Observation)
    requires o.SawInfo? ==> |o.info.k| == 9
    requires Remembers(c, obs) && Consistent(obs)
    ensures Observe(c, o).1.Returned? <==> Fits(obs, o)
    ensures Observe(c, o).1.Returned? ==> Remembers(Observe(c, o).0, obs + [o])
  {
    hide Remembers, Fits, ObserveImage, ObserveInfo, Consistent;
    RememberOneMore(c, obs, o);
    match o
    case SawImage(s) => ImageOneMore(c, obs, s);
    case SawInfo(info) => InfoOneMore(c, obs, info);
  }

  lemma RememberOneMore(c: Contract, obs: seq<Observation>, o: Observation)
    requires o.SawInfo? ==> |o.info.k| == 9
    requires Remembers(c, obs)
    ensures Observe(c, o).1.Returned? ==> Remembers(Observe(c, o).0, obs + [o])
  {
    hide ValidImage, ValidInfo, AllFinite, CheckPair;
    var all := obs + [o];
    assert forall i :: 0 <= i < |obs| ==> all[i] == obs[i];
    assert all[|obs|] == o;
  }

  lemma ImageOneMore(c: Contract, obs: seq<Observation>, s: ImageSignature)
    requires Remembers(c, obs)
    ensures ObserveImage(c, s).1.Returned? <==> Fits(obs, SawImage(s))
  {
    ProperImage(s);
    hide ValidInfo, Proper, SameCamera;
    if ObserveImage(c, s).1.Returned? {
      forall i | 0 <= i < |obs| ensures Agree(obs[i], SawImage(s)) {
        if obs[i].SawInfo? {
          CompatibleIgnoresStamp(obs[i].info, s);
          SameCameraFits(obs[i].info, s);
        }
      }
    }
    if Fits(obs, SawImage(s)) {
      if c.image.Some? {
        var i :| 0 <= i < |obs| && obs[i].SawImage?;
        assert Agree(obs[i], SawImage(s));
      }
      if c.info.Some? {
        var i :| 0 <= i < |obs| && obs[i].SawInfo?;
        assert Agree(obs[i], SawImage(s));
        CompatibleIgnoresStamp(obs[i].info, s);
        SameCameraFits(obs[i].info, s);
      }
    }
  }

  lemma InfoOneMore(c: Contract, obs: seq<Observation>, info: CameraInfo)
    requires Remembers(c, obs) && |info.k| == 9
    ensures ObserveInfo(c, info).1.Returned? <==> Fits(obs, SawInfo(info))
  {
    ProperInfo(info);
    hide ValidImage, AllFinite, Proper, SameCamera;
    if ObserveInfo(c, info).1.Returned? {
      forall i | 0 <= i < |obs| ensures Agree(obs[i], SawInfo(info)) {
        if obs[i].SawImage? {
          CompatibleIgnoresStamp(info, obs[i].s);
          SameCameraFits(info, obs[i].s);
        }
      }
    }
    if Fits(obs, SawInfo(info)) {
      if c.info.Some? {
        var i :| 0 <= i < |obs| && obs[i].SawInfo?;
        assert Agree(obs[i], SawInfo(info));
      }
      if c.image.Some? {
        var i :| 0 <= i < |obs| && obs[i].SawImage?;
        assert Agree(obs[i], SawInfo(info));
        CompatibleIgnoresStamp(info, obs[i].s);
        SameCameraFits(info, obs[i].s);
      }
    }
  }

  lemma CompatibleIgnoresStamp(info: CameraInfo, s: ImageSignature)
    ensures Compatible(Signature(info), s) <==> Compatible(info, s)
    ensures ValidInfo(Signature(info)) <==> ValidInfo(info)
  {
  }
}
