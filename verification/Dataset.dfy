/** On-disk dataset contract: which frames are kept, and what saving one leaves behind. */
module Dataset {
  import opened Common
  import opened CameraContract

  datatype Verdict = Selected | Skipped | Refused(message: Message)

  /** The part of the dataset that chooses frames. */
  datatype Selector = Selector(
    lastSeen: Option<int>, lastSelected: Option<int>,
    received: nat, thinned: nat, duplicates: nat)

  const UNSEEN := Selector(None, None, 0, 0, 0)

  function Eligible(interval: int, s: Selector, stamp: int): (Selector, Verdict) {
    var counted := s.(received := s.received + 1);
    if stamp <= 0 then
      (counted, Refused(StampNotPositive))
    else if s.lastSeen.Some? && stamp < s.lastSeen.value then
      (counted, Refused(StampBackwards))
    else if s.lastSeen == Some(stamp) then
      (counted.(duplicates := s.duplicates + 1), Skipped)
    else if s.lastSelected.Some? && stamp - s.lastSelected.value < interval then
      (counted.(lastSeen := Some(stamp), thinned := s.thinned + 1), Skipped)
    else
      (counted.(lastSeen := Some(stamp), lastSelected := Some(stamp)), Selected)
  }

  // ---------------------------------------------------------------- files

  const NANOSECONDS: int := 1_000_000_000

  datatype Shape = Shape(height: int, width: int)

  /** images/00000001.png and its temporary form. */
  datatype FileName = Png(index: int) | Temporary(index: int)

  type Bytes = seq<bv8>

  /** The hash written beside each file, and what an image reader sees in it. */
  datatype Codec = Codec(sha256: Bytes -> string, decode: Bytes -> Option<Shape>)

  datatype Row = Row(
    index: int, filename: FileName, stampNs: int, stampSec: int, stampNanosec: int, receivedNs: int,
    width: int, height: int, bytes: int, sha256: string, frameId: string, sourceEncoding: string)

  /** A frame handed to the writer: what is kept of the message, and its pixels' shape. */
  datatype Frame = Frame(shape: Shape, stamp: int, receivedNs: int, frameId: string, encoding: string)

  /** What has been written. */
  datatype Store = Store(shape: Option<Shape>, saved: nat, rows: seq<Row>, images: map<FileName, Bytes>)

  const EMPTY := Store(None, 0, [], map[])

  /** Where saving a frame is cut short. `encoded` is what the PNG encoder produced; of a
      temporary file that could not be written completely, `partial` reached the disk. */
  datatype Effort =
    | EncodingFails
    | WritingFails(partial: Option<Bytes>)
    | ReplacingFails(encoded: Bytes)
    | RowFails(encoded: Bytes, appended: bool)
    | Succeeds(encoded: Bytes)

  function RowFor(codec: Codec, index: int, f: Frame, data: Bytes): Row {
    Row(index, Png(index), f.stamp, f.stamp / NANOSECONDS, f.stamp % NANOSECONDS, f.receivedNs,
        f.shape.width, f.shape.height, |data|, codec.sha256(data), f.frameId, f.encoding)
  }

  function Save(codec: Codec, s: Store, f: Frame, e: Effort): (Store, Outcome) {
    if s.shape.Some? && f.shape != s.shape.value then (s, Raised(ResolutionChanged))
    else
      var index := s.saved + 1;
      var shaped := s.(shape := Some(f.shape));
      if e.EncodingFails? then (shaped, Raised(EncodingFailed))
      else if Temporary(index) in s.images then (shaped, Raised(FileExists))
      else match e
        case WritingFails(partial) =>
          (shaped.(images := if partial.Some? then s.images[Temporary(index) := partial.value] else s.images),
           Raised(WriteFailed))
        case ReplacingFails(data) =>
          (shaped.(images := s.images[Temporary(index) := data]), Raised(ReplaceFailed))
        case RowFails(data, appended) =>
          (shaped.(images := s.images[Png(index) := data],
                   rows := if appended then s.rows + [RowFor(codec, index, f, data)] else s.rows),
           Raised(RowFailed))
        case Succeeds(data) =>
          (Store(Some(f.shape), index, s.rows + [RowFor(codec, index, f, data)], s.images[Png(index) := data]),
           Returned)
  }

  class Dataset {
    const interval: int
    const codec: Codec
    var lastSeen: Option<int>
    var lastSelected: Option<int>
    var shape: Option<Shape>
    var received: nat
    var saved: nat
    var thinned: nat
    var duplicates: nat
    var rows: seq<Row>
    var images: map<FileName, Bytes>

    ghost function Choice(): Selector
      reads this
    {
      Selector(lastSeen, lastSelected, received, thinned, duplicates)
    }

    ghost function Stored(): Store
      reads this
    {
      Store(shape, saved, rows, images)
    }

    /** `period` is the rounded number of nanoseconds between saved frames. */
    constructor (period: int, codec: Codec)
      ensures interval == (if period < 1 then 1 else period) && this.codec == codec
      ensures Choice() == UNSEEN && Stored() == EMPTY
    {
      interval, this.codec := if period < 1 then 1 else period, codec;
      lastSeen, lastSelected, shape := None, None, None;
      received, saved, thinned, duplicates := 0, 0, 0, 0;
      rows, images := [], map[];
    }

    method CheckEligible(stamp: int) returns (v: Verdict)
      modifies this
      ensures (Choice(), v) == Eligible(interval, old(Choice()), stamp)
      ensures Stored() == old(Stored())
    {
      received := received + 1;
      if stamp <= 0 {
        return Refused(StampNotPositive);
      }
      if lastSeen.Some? && stamp < lastSeen.value {
        return Refused(StampBackwards);
      }
      if Some(stamp) == lastSeen {
        duplicates := duplicates + 1;
        return Skipped;
      }
      lastSeen := Some(stamp);
      if lastSelected.Some? && stamp - lastSelected.value < interval {
        thinned := thinned + 1;
        return Skipped;
      }
      lastSelected := Some(stamp);
      return Selected;
    }

    method SaveFrame(f: Frame, e: Effort) returns (o: Outcome)
      modifies this
      ensures (Stored(), o) == Save(codec, old(Stored()), f, e)
      ensures Choice() == old(Choice())
    {
      hide RowFor;
      if shape.Some? && f.shape != shape.value {
        return Raised(ResolutionChanged);
      }
      shape := Some(f.shape);
      if e.EncodingFails? {
        return Raised(EncodingFailed);
      }
      var index := saved + 1;
      var target, temporary := Png(index), Temporary(index);
      if temporary in images {
        return Raised(FileExists);
      }
      if e.WritingFails? {
        if e.partial.Some? {
          images := images[temporary := e.partial.value];
        }
        return Raised(WriteFailed);
      }
      images := images[temporary := e.encoded];
      if e.ReplacingFails? {
        return Raised(ReplaceFailed);
      }
      ghost var before := old(images);
      images := images - {temporary};
      images := images[target := e.encoded];
      assert images == before[target := e.encoded];
      if e.Succeeds? || e.appended {
        rows := rows + [RowFor(codec, index, f, e.encoded)];
      }
      if e.RowFails? {
        return Raised(RowFailed);
      }
      saved := index;
      return Returned;
    }
  }

  // ---------------------------------------------------------------- what saving does

  /** A saved frame is the next one: its file holds the encoded image, and its row says what the frame
      and the file are. Nothing else changes. */
  lemma SavedExactly(codec: Codec, s: Store, f: Frame, e: Effort)
    requires Save(codec, s, f, e).1.Returned?
    ensures e.Succeeds? && (s.shape.None? || s.shape.value == f.shape)
    ensures var after := Save(codec, s, f, e).0;
            && after.saved == s.saved + 1 && after.shape == Some(f.shape)
            && after.images == s.images[Png(after.saved) := e.encoded]
            && |after.rows| == |s.rows| + 1 && after.rows[..|s.rows|] == s.rows
            && Describes(codec, f, e.encoded, after.saved, after.rows[|s.rows|])
  {
  }

  ghost predicate Describes(codec: Codec, f: Frame, data: Bytes, index: int, row: Row) {
    && row.index == index && row.filename == Png(index)
    && row.stampNs == f.stamp && row.receivedNs == f.receivedNs
    && row.stampSec * 1_000_000_000 + row.stampNanosec == f.stamp && 0 <= row.stampNanosec < 1_000_000_000
    && row.width == f.shape.width && row.height == f.shape.height
    && row.bytes == |data| && row.sha256 == codec.sha256(data)
    && row.frameId == f.frameId && row.sourceEncoding == f.encoding
  }

  /** A frame is refused exactly if its shape changed, a temporary file is in the way, or a step fails;
      then no frame counts as saved, every earlier file and row stays, and at most one file and one row
      are added, which bear the next number. */
  lemma FailedExactly(codec: Codec, s: Store, f: Frame, e: Effort)
    ensures Save(codec, s, f, e).1.Raised? <==>
            || (s.shape.Some? && s.shape.value != f.shape)
            || Temporary(s.saved + 1) in s.images || !e.Succeeds?
    ensures Save(codec, s, f, e).1.Raised? ==>
              var after := Save(codec, s, f, e).0;
              && after.saved == s.saved
              && s.rows <= after.rows && |after.rows| <= |s.rows| + 1
              && (forall name :: name in s.images && name != Png(s.saved + 1) ==>
                    name in after.images && after.images[name] == s.images[name])
              && after.images.Keys <= s.images.Keys + {Png(s.saved + 1), Temporary(s.saved + 1)}
              && (after.rows != s.rows ==> e.RowFails? && after.rows[|s.rows|].index == s.saved + 1)
  {
  }
}
