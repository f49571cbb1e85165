/** The independent checker of a recorded directory. */
module CheckDataset {
  import opened Common
  import opened CameraContract
  import opened Dataset

  datatype Status = Recording | Complete | Failed

  datatype Session = Session(status: Status, saved: nat)

  /** The files of one capture. */
  datatype Directory = Directory(
    failure: Option<string>, session: Session, rows: seq<Row>, images: map<FileName, Bytes>,
    cameraInfo: Option<CameraInfo>)

  datatype Summary = Summary(images: nat, width: int, height: int, spanSec: real, averageFps: real)

  predicate Readable(d: Directory) {
    d.cameraInfo.Some? ==> |d.cameraInfo.value.k| == 9
  }

  // ---------------------------------------------------------------- what is accepted

  predicate FileMatches(codec: Codec, d: Directory, row: Row) {
    && row.filename in d.images
    && |d.images[row.filename]| == row.bytes
    && codec.sha256(d.images[row.filename]) == row.sha256
    && codec.decode(d.images[row.filename]) == Some(Shape(row.height, row.width))
  }

  predicate RowFits(codec: Codec, d: Directory, i: nat)
    requires i < |d.rows|
  {
    var row := d.rows[i];
    && row.filename == Png(i + 1) && row.index == i + 1
    && row.stampNs > (if i == 0 then 0 else d.rows[i - 1].stampNs)
    && row.stampNs == row.stampSec * NANOSECONDS + row.stampNanosec
    && FileMatches(codec, d, row)
    && (row.width, row.height) == (d.rows[0].width, d.rows[0].height)
  }

  ghost predicate RowsFit(codec: Codec, d: Directory, n: nat)
    requires n <= |d.rows|
  {
    forall i :: 0 <= i < n ==> RowFits(codec, d, i)
  }

  /** What the first `n` rows tell a camera contract that has read the calibration, if there is one. */
  function Observed(d: Directory, n: nat): seq<Observation>
    requires n <= |d.rows|
  {
    if n == 0 then (if d.cameraInfo.Some? then [SawInfo(d.cameraInfo.value)] else [])
    else
      var row := d.rows[n - 1];
      Observed(d, n - 1) +
      if row.sourceEncoding == "" then []
      else [SawImage(ImageSignature(row.width, row.height, row.sourceEncoding, row.frameId))]
  }

  function Names(n: nat): set<FileName> {
    set i | 1 <= i <= n :: Png(i)
  }

  ghost predicate Acceptable(codec: Codec, d: Directory) {
    && d.failure.None? && d.session.status.Complete?
    && d.rows != []
    && RowsFit(codec, d, |d.rows|)
    && Consistent(Observed(d, |d.rows|))
    && d.images.Keys == Names(|d.rows|)
    && d.session.saved == |d.rows|
  }

  lemma {:induction false} ObservedIsWellShaped(d: Directory, n: nat)
    requires n <= |d.rows| && Readable(d)
    ensures WellShaped(Observed(d, n))
  {
    if n == 0 {
    } else {
      ObservedIsWellShaped(d, n - 1);
    }
  }

  lemma {:induction false} ObservedGrows(d: Directory, n: nat, m: nat)
    requires n <= m <= |d.rows|
    ensures Observed(d, n) <= Observed(d, m)
  {
    if n == m {
    } else {
      ObservedGrows(d, n, m - 1);
    }
  }

  /** Once the contract has raised, no later row can repair the directory. */
  lemma ContractRefusalIsFinal(codec: Codec, d: Directory, n: nat)
    requires n <= |d.rows| && Readable(d) && WellShaped(Observed(d, n))
    requires ObserveAll(Observed(d, n)).None?
    ensures !Acceptable(codec, d)
  {
    hide RowsFit;
    var part, whole := Observed(d, n), Observed(d, |d.rows|);
    AcceptsExactlyConsistent(part);
    ObservedGrows(d, n, |d.rows|);
    assert forall i :: 0 <= i < |part| ==> part[i] == whole[i];
    assert Consistent(whole) ==> Consistent(part);
  }

  lemma ObserveNext(obs: seq<Observation>, o: Observation, c: Contract)
    requires WellShaped(obs + [o]) && WellShaped(obs) && ObserveAll(obs) == Some(c)
    requires o.SawInfo? ==> |o.info.k| == 9
    ensures ObserveAll(obs + [o]) == if Observe(c, o).1.Returned? then Some(Observe(c, o).0) else None
  {
    var all := obs + [o];
    assert all[..|all| - 1] == obs && all[|all| - 1] == o;
  }

  lemma NamesGrow(n: nat)
    ensures Names(n + 1) == Names(n) + {Png(n + 1)}
  {
    assert Png(n + 1) in Names(n + 1);
  }

  // ---------------------------------------------------------------- the checker

  /** One row: what it is checked against before the contract sees it. */
  method CheckRow(codec: Codec, d: Directory, i: nat, lastStamp: int, dimensions: Option<(int, int)>)
    returns (ok: bool)
    requires i < |d.rows|
    requires lastStamp == if i == 0 then 0 else d.rows[i - 1].stampNs
    requires dimensions == if i == 0 then None else Some((d.rows[0].width, d.rows[0].height))
    ensures ok <==> RowFits(codec, d, i)
    ensures ok ==> d.rows[i].filename == Png(i + 1)
    ensures ok ==> (d.rows[i].width, d.rows[i].height) == (d.rows[0].width, d.rows[0].height)
  {
    var row := d.rows[i];
    var expected := Png(i + 1);
    if row.filename != expected || row.index != i + 1 {
      return false;
    }
    if row.stampNs <= lastStamp {
      return false;
    }
    if row.stampNs != row.stampSec * NANOSECONDS + row.stampNanosec {
      return false;
    }
    if expected !in d.images {
      return false;
    }
    var data := d.images[expected];
    if |data| != row.bytes || codec.sha256(data) != row.sha256 {
      return false;
    }
    var image := codec.decode(data);
    if image.None? || (image.value.width, image.value.height) != (row.width, row.height) {
      return false;
    }
    if dimensions.Some? && dimensions.value != (row.width, row.height) {
      return false;
    }
    return true;
  }

  method Summarize(d: Directory, lastStamp: int) returns (r: Summary)
    requires d.rows != [] && lastStamp == d.rows[|d.rows| - 1].stampNs
    ensures r.images == |d.rows| && (r.width, r.height) == (d.rows[0].width, d.rows[0].height)
    ensures r.spanSec * 1000000000.0 == (lastStamp - d.rows[0].stampNs) as real
    ensures r.spanSec > 0.0 ==> r.averageFps * r.spanSec == (|d.rows| - 1) as real
    ensures r.spanSec <= 0.0 ==> r.averageFps == 0.0
  {
    var span := (lastStamp - d.rows[0].stampNs) as real / 1000000000.0;
    var average := if span > 0.0 then (|d.rows| - 1) as real / span else 0.0;
    r := Summary(|d.rows|, d.rows[0].width, d.rows[0].height, span, average);
  }

  /** One row: what the contract makes of it. */
  method ObserveRow(codec: Codec, d: Directory, i: nat, contract: CameraContract) returns (ok: bool)
    requires i < |d.rows| && Readable(d) && WellShaped(Observed(d, i))
    requires ObserveAll(Observed(d, i)) == Some(contract.View())
    modifies contract
    ensures WellShaped(Observed(d, i + 1))
    ensures ok ==> ObserveAll(Observed(d, i + 1)) == Some(contract.View())
    ensures !ok ==> !Acceptable(codec, d)
  {
    hide Acceptable, ObserveAll, WellShaped, ObserveImage;
    var row := d.rows[i];
    ObservedIsWellShaped(d, i + 1);
    if row.sourceEncoding == "" {
      assert Observed(d, i + 1) == Observed(d, i);
      return true;
    }
    RowObservation(d, i, contract.View());
    var o := contract.Observe(row.width, row.height, row.sourceEncoding, row.frameId);
    if o.Raised? {
      ContractRefusalIsFinal(codec, d, i + 1);
      return false;
    }
    return true;
  }

  /** Accepts exactly the acceptable directories. */
  method Check(codec: Codec, d: Directory) returns (r: Option<Summary>)
    requires Readable(d)
    ensures r.Some? <==> Acceptable(codec, d)
    ensures r.Some? ==> r.value.images == |d.rows|
  {
    hide RowFits, Consistent, ObserveAll, Observe, WellShaped, Observed, Names;
    if d.failure.Some? || !d.session.status.Complete? || d.rows == [] {
      return None;
    }
    var lastStamp := 0;
    var dimensions: Option<(int, int)> := None;
    var names: set<FileName> := {};
    var contract := new CameraContract();
    FirstObservation(d);
    if d.cameraInfo.Some? {
      var o := contract.ObserveCalibration(d.cameraInfo.value);
      if o.Raised? {
        ContractRefusalIsFinal(codec, d, 0);
        return None;
      }
    }
    assert Names(0) == {} by { NoNames(); }
    var i := 0;
    while i < |d.rows|
      invariant 0 <= i <= |d.rows|
      invariant lastStamp == if i == 0 then 0 else d.rows[i - 1].stampNs
      invariant dimensions == if i == 0 then None else Some((d.rows[0].width, d.rows[0].height))
      invariant names == Names(i)
      invariant RowsFit(codec, d, i)
      invariant WellShaped(Observed(d, i))
      invariant ObserveAll(Observed(d, i)) == Some(contract.View())
    {
      var ok := CheckRow(codec, d, i, lastStamp, dimensions);
      if !ok {
        return None;
      }
      var row := d.rows[i];
      lastStamp := row.stampNs;
      dimensions := Some((row.width, row.height));
      var observed := ObserveRow(codec, d, i, contract);
      if !observed {
        return None;
      }
      NamesGrow(i);
      names := names + {row.filename};
      i := i + 1;
    }
    AcceptsExactlyConsistent(Observed(d, |d.rows|));
    if d.images.Keys != names || d.session.saved != |d.rows| {
      return None;
    }
    var summary := Summarize(d, lastStamp);
    return Some(summary);
  }

  lemma NothingObserved()
    ensures WellShaped([]) && ObserveAll([]) == Some(FRESH)
  {
  }

  lemma NoNames()
    ensures Names(0) == {}
  {
  }

  lemma FirstObservation(d: Directory)
    requires Readable(d)
    ensures WellShaped(Observed(d, 0))
    ensures ObserveAll(Observed(d, 0)) ==
              if d.cameraInfo.None? || ObserveInfo(FRESH, d.cameraInfo.value).1.Returned?
              then Some(if d.cameraInfo.None? then FRESH else ObserveInfo(FRESH, d.cameraInfo.value).0)
              else None
  {
    hide ObserveInfo;
    NothingObserved();
    if d.cameraInfo.Some? {
      ObserveNext([], SawInfo(d.cameraInfo.value), FRESH);
      assert [] + [SawInfo(d.cameraInfo.value)] == Observed(d, 0);
    }
  }

  lemma RowObservation(d: Directory, i: nat, c: Contract)
    requires i < |d.rows| && d.rows[i].sourceEncoding != ""
    requires WellShaped(Observed(d, i)) && WellShaped(Observed(d, i + 1))
    requires ObserveAll(Observed(d, i)) == Some(c)
    ensures var row := d.rows[i];
            var (after, o) := ObserveImage(c, ImageSignature(row.width, row.height, row.sourceEncoding, row.frameId));
            ObserveAll(Observed(d, i + 1)) == if o.Returned? then Some(after) else None
  {
    hide ObserveImage, ObserveAll;
    var row := d.rows[i];
    ObserveNext(Observed(d, i), SawImage(ImageSignature(row.width, row.height, row.sourceEncoding, row.frameId)), c);
  }

  /** An accepted manifest has strictly increasing positive stamps throughout. */
  lemma {:induction false} AcceptedStampsIncrease(codec: Codec, d: Directory, i: nat, j: nat)
    requires Acceptable(codec, d) && i < j < |d.rows|
    ensures 0 < d.rows[i].stampNs < d.rows[j].stampNs
  {
    hide FileMatches, Consistent, Observed;
    assert RowFits(codec, d, j);
    if i + 1 < j {
      AcceptedStampsIncrease(codec, d, i, j - 1);
    } else {
      PositiveStamps(codec, d, i);
    }
  }

  lemma {:induction false} PositiveStamps(codec: Codec, d: Directory, i: nat)
    requires i < |d.rows| && RowsFit(codec, d, |d.rows|)
    ensures 0 < d.rows[i].stampNs
  {
    hide FileMatches;
    assert RowFits(codec, d, i);
    if i == 0 {
    } else {
      PositiveStamps(codec, d, i - 1);
    }
  }
}
