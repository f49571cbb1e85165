/** What every interleaving of the callbacks and the worker guarantees. */
module MonoInertialTheorems {
  import opened Common
  import opened MonoInertial

  // ---------------------------------------------------------------- the two input streams

  /** All samples in order of arrival. */
  function ImuStream(events: seq<Event>): seq<Imu> {
    if events == [] then []
    else ImuStream(events[..|events| - 1]) +
         (if events[|events| - 1].ImuArrives? then [events[|events| - 1].imu] else [])
  }

  function ImageStream(events: seq<Event>): seq<Image> {
    if events == [] then []
    else ImageStream(events[..|events| - 1]) +
         (if events[|events| - 1].ImageArrives? then [events[|events| - 1].image] else [])
  }

  predicate Increasing(imus: seq<Imu>) {
    forall i, j :: 0 <= i < j < |imus| ==> imus[i].stamp < imus[j].stamp
  }

  /** All samples of the finished batches, in order. */
  function Consumed(log: seq<Entry>): seq<Imu> {
    if log == [] then [] else Consumed(log[..|log| - 1]) + log[|log| - 1].batch.imus
  }

  function Pending(s: State): seq<Imu> {
    if s.inFlight.Some? then s.inFlight.value.imus else []
  }

  // ---------------------------------------------------------------- taking a batch

  lemma CountSplits(imus: seq<Imu>, t: real)
    requires Increasing(imus)
    ensures var n := CountUpTo(imus, t);
            && (forall k :: 0 <= k < n ==> imus[k].stamp <= t)
            && (forall k :: n <= k < |imus| ==> imus[k].stamp > t)
  {
    if imus != [] && imus[0].stamp <= t {
      CountSplits(imus[1..], t);
      var n := CountUpTo(imus[1..], t);
      assert forall k :: 1 <= k < |imus| ==> imus[k] == imus[1..][k - 1];
    }
  }

  /** When every waiting sample is newer than the last tracked image, none is filtered out. */
  lemma NothingFiltered(imus: seq<Imu>, last: real)
    requires last >= 0.0 ==> forall k :: 0 <= k < |imus| ==> imus[k].stamp > last
    ensures Kept(imus, last) == imus
  {
    if imus != [] {
      NothingFiltered(imus[..|imus| - 1], last);
      assert imus == imus[..|imus| - 1] + [imus[|imus| - 1]];
    }
  }

  // ---------------------------------------------------------------- samples

  /** Batch `b` is closed: its samples are not after its image, everything still waiting is, and so
      will be everything that arrives after the stream's last sample. */
  predicate Closed(b: Batch, waiting: seq<Imu>, stream: seq<Imu>) {
    && (forall i :: i in b.imus ==> i.stamp <= b.image.stamp)
    && (forall i :: i in waiting ==> i.stamp > b.image.stamp)
    && stream != [] && stream[|stream| - 1].stamp >= b.image.stamp
  }

  /** The samples of a later batch are after the image of an earlier one. */
  predicate Ordered(earlier: Batch, later: Batch) {
    forall i :: i in later.imus ==> i.stamp > earlier.image.stamp
  }

  predicate AllClosed(log: seq<Entry>, waiting: seq<Imu>, stream: seq<Imu>) {
    forall k :: 0 <= k < |log| ==> Closed(log[k].batch, waiting, stream)
  }

  predicate Chained(log: seq<Entry>) {
    forall j, k :: 0 <= j < k < |log| ==> Ordered(log[j].batch, log[k].batch)
  }

  predicate ComesAfter(log: seq<Entry>, b: Batch) {
    forall j :: 0 <= j < |log| ==> Ordered(log[j].batch, b)
  }

  /** A non-negative last image time is the time of a finished batch. */
  ghost predicate LastKnown(log: seq<Entry>, last: real) {
    last >= 0.0 ==> exists k :: 0 <= k < |log| && log[k].batch.image.stamp == last
  }

  ghost predicate SampleInv(s: State, stream: seq<Imu>) {
    && Consumed(s.log) + Pending(s) + s.imuBuffer == stream
    && AllClosed(s.log, s.imuBuffer, stream) && Chained(s.log) && LastKnown(s.log, s.lastImageTime)
    && (s.inFlight.Some? ==> Closed(s.inFlight.value, s.imuBuffer, stream) && ComesAfter(s.log, s.inFlight.value))
  }

  lemma {:induction false} SampleInvHolds(events: seq<Event>)
    requires Increasing(ImuStream(events))
    ensures SampleInv(Run(events), ImuStream(events))
  {
    hide SampleInv, Increasing, Ready, Take;
    if events == [] {
      InitialSamples();
    } else {
      var init, e := events[..|events| - 1], events[|events| - 1];
      var s, stream := Run(init), ImuStream(init);
      assert stream + [] == stream;
      PrefixIncreasing(stream, ImuStream(events));
      SampleInvHolds(init);
      match e
      case ImuArrives(imu) => ImuStep(s, stream, imu);
      case TakeBatch => if Ready(s) { TakeStep(s, stream); }
      case ConversionFails => if s.inFlight.Some? { FinishStep(s, stream, false); }
      case Tracks => if s.inFlight.Some? { FinishStep(s, stream, true); }
      case ImageArrives(_) => QuietStep(s, stream, e);
      case Stop => QuietStep(s, stream, e);
    }
  }

  lemma InitialSamples()
    ensures SampleInv(INITIAL, [])
  {
  }

  lemma PrefixIncreasing(imus: seq<Imu>, all: seq<Imu>)
    requires imus <= all && Increasing(all)
    ensures Increasing(imus)
  {
  }

  lemma QuietStep(s: State, stream: seq<Imu>, e: Event)
    requires SampleInv(s, stream) && (e.ImageArrives? || e.Stop?)
    ensures SampleInv(Next(s, e), stream)
  {
    hide Closed, AllClosed, Chained, ComesAfter, LastKnown, Consumed;
  }

  lemma ClosedSurvives(b: Batch, waiting: seq<Imu>, stream: seq<Imu>, imu: Imu)
    requires Closed(b, waiting, stream) && Increasing(stream + [imu])
    ensures Closed(b, waiting + [imu], stream + [imu])
  {
    var both := stream + [imu];
    assert both[|stream| - 1].stamp < both[|stream|].stamp;
  }

  lemma ImuStep(s: State, stream: seq<Imu>, imu: Imu)
    requires SampleInv(s, stream) && Increasing(stream + [imu])
    ensures SampleInv(Next(s, ImuArrives(imu)), stream + [imu])
  {
    hide Closed, Chained, ComesAfter, LastKnown, Consumed, Increasing;
    assert Consumed(s.log) + Pending(s) + (s.imuBuffer + [imu]) == stream + [imu];
    forall k | 0 <= k < |s.log| ensures Closed(s.log[k].batch, s.imuBuffer + [imu], stream + [imu]) {
      ClosedSurvives(s.log[k].batch, s.imuBuffer, stream, imu);
    }
    if s.inFlight.Some? { ClosedSurvives(s.inFlight.value, s.imuBuffer, stream, imu); }
  }

  lemma LogGrows(log: seq<Entry>, e: Entry, waiting: seq<Imu>, stream: seq<Imu>, last: real)
    requires AllClosed(log, waiting, stream) && Chained(log) && LastKnown(log, last)
    requires Closed(e.batch, waiting, stream) && ComesAfter(log, e.batch)
    ensures var after := log + [e];
            && AllClosed(after, waiting, stream) && Chained(after)
            && LastKnown(after, last) && LastKnown(after, e.batch.image.stamp)
            && Consumed(after) == Consumed(log) + e.batch.imus
  {
    hide Closed, Ordered;
    var after := log + [e];
    assert after[..|after| - 1] == log;
    assert after[|log|] == e;
    if last >= 0.0 {
      var k :| 0 <= k < |log| && log[k].batch.image.stamp == last;
      assert after[k] == log[k];
    }
  }

  lemma FinishStep(s: State, stream: seq<Imu>, tracked: bool)
    requires SampleInv(s, stream) && s.inFlight.Some?
    ensures SampleInv(Next(s, if tracked then Tracks else ConversionFails), stream)
  {
    hide Closed, AllClosed, Chained, ComesAfter, LastKnown, Consumed;
    LogGrows(s.log, Entry(s.inFlight.value, tracked), s.imuBuffer, stream, s.lastImageTime);
  }

  /** Everything waiting is after the last tracked image, so the filter drops nothing. */
  lemma WaitingIsNew(s: State, stream: seq<Imu>, n: nat)
    requires SampleInv(s, stream) && n <= |s.imuBuffer|
    ensures Kept(s.imuBuffer[..n], s.lastImageTime) == s.imuBuffer[..n]
  {
    hide Consumed, Chained, Kept, ComesAfter;
    if s.lastImageTime >= 0.0 {
      var k :| 0 <= k < |s.log| && s.log[k].batch.image.stamp == s.lastImageTime;
      assert Closed(s.log[k].batch, s.imuBuffer, stream);
    }
    NothingFiltered(s.imuBuffer[..n], s.lastImageTime);
  }

  lemma ClosedShrinks(b: Batch, waiting: seq<Imu>, stream: seq<Imu>, n: nat, image: Image)
    requires Closed(b, waiting, stream) && n <= |waiting|
    ensures Closed(b, waiting[n..], stream) && Ordered(b, Batch(image, waiting[..n]))
  {
  }

  lemma NewBatchClosed(waiting: seq<Imu>, before: seq<Imu>, stream: seq<Imu>, image: Image)
    requires before + waiting == stream && Increasing(stream)
    requires waiting != [] && waiting[|waiting| - 1].stamp >= image.stamp
    ensures var n := CountUpTo(waiting, image.stamp); Closed(Batch(image, waiting[..n]), waiting[n..], stream)
  {
    assert forall k :: 0 <= k < |waiting| ==> waiting[k] == stream[|before| + k];
    assert Increasing(waiting);
    CountSplits(waiting, image.stamp);
  }

  lemma TakeStep(s: State, stream: seq<Imu>)
    requires SampleInv(s, stream) && Ready(s) && Increasing(stream)
    ensures SampleInv(Take(s), stream)
  {
    hide Closed, Ordered, Chained, LastKnown, Consumed, Kept, CountUpTo, Increasing, Stale;
    var image, waiting := s.imageBuffer[0], s.imuBuffer;
    if !Stale(s.lastImageTime, image.stamp) {
      var n := CountUpTo(waiting, image.stamp);
      NewBatchClosed(waiting, Consumed(s.log) + Pending(s), stream, image);
      WaitingIsNew(s, stream, n);
      assert waiting == waiting[..n] + waiting[n..];
      assert Consumed(s.log) + waiting[..n] + waiting[n..] == stream;
      forall k | 0 <= k < |s.log|
        ensures Closed(s.log[k].batch, waiting[n..], stream) && Ordered(s.log[k].batch, Batch(image, waiting[..n]))
      {
        ClosedShrinks(s.log[k].batch, waiting, stream, n, image);
      }
    }
  }

  /** For every interleaving, with strictly increasing sample stamps: the finished batches (tracked
      or lost to a failed conversion), then the one in flight, then the samples still waiting are
      exactly the samples that arrived, in order; each batch holds only samples up to its image; and
      no sample of a later batch, in flight, waiting, or still to come is that early. */
  lemma BatchesPartitionTheStream(events: seq<Event>)
    requires Increasing(ImuStream(events))
    ensures var s := Run(events);
            && Consumed(s.log) + Pending(s) + s.imuBuffer == ImuStream(events)
            && Consumed(s.log) <= ImuStream(events)
    ensures var s := Run(events);
            forall k :: 0 <= k < |s.log| ==>
              && (forall i :: i in s.log[k].batch.imus ==> i.stamp <= s.log[k].batch.image.stamp)
              && (forall l, i :: k < l < |s.log| && i in s.log[l].batch.imus ==> i.stamp > s.log[k].batch.image.stamp)
              && (forall i :: i in Pending(s) + s.imuBuffer ==> i.stamp > s.log[k].batch.image.stamp)
  {
    SampleInvHolds(events);
    hide Run, ImuStream, Consumed, Increasing, LastKnown;
    var s, stream := Run(events), ImuStream(events);
    assert Consumed(s.log) + Pending(s) + s.imuBuffer == Consumed(s.log) + (Pending(s) + s.imuBuffer);
    forall k | 0 <= k < |s.log|
      ensures forall i :: i in s.log[k].batch.imus ==> i.stamp <= s.log[k].batch.image.stamp
      ensures forall l, i :: k < l < |s.log| && i in s.log[l].batch.imus ==> i.stamp > s.log[k].batch.image.stamp
      ensures forall i :: i in Pending(s) + s.imuBuffer ==> i.stamp > s.log[k].batch.image.stamp
    {
      LaterSamples(s, stream, k);
    }
  }

  lemma LaterSamples(s: State, stream: seq<Imu>, k: nat)
    requires SampleInv(s, stream) && k < |s.log|
    ensures forall i :: i in s.log[k].batch.imus ==> i.stamp <= s.log[k].batch.image.stamp
    ensures forall l, i :: k < l < |s.log| && i in s.log[l].batch.imus ==> i.stamp > s.log[k].batch.image.stamp
    ensures forall i :: i in Pending(s) + s.imuBuffer ==> i.stamp > s.log[k].batch.image.stamp
  {
    hide Consumed, LastKnown;
    assert Closed(s.log[k].batch, s.imuBuffer, stream);
    hide AllClosed;
    forall l, i | k < l < |s.log| && i in s.log[l].batch.imus ensures i.stamp > s.log[k].batch.image.stamp {
      assert Ordered(s.log[k].batch, s.log[l].batch);
    }
  }

  // ---------------------------------------------------------------- tracked image times

  function TrackedTimes(log: seq<Entry>): seq<real> {
    if log == [] then []
    else TrackedTimes(log[..|log| - 1]) +
         (if log[|log| - 1].tracked then [log[|log| - 1].batch.image.stamp] else [])
  }

  predicate StrictlyIncreasing(times: seq<real>) {
    forall j :: 0 <= j < |times| - 1 ==> times[j] < times[j + 1]
  }

  /** Two images that defeat the staleness guard: the earlier has a negative stamp, which the guard
      takes for "nothing tracked yet", and the later is not newer. */
  predicate Defeats(images: seq<Image>, i: int, j: int) {
    0 <= i < j < |images| && images[i].stamp < 0.0 && images[j].stamp <= images[i].stamp
  }

  predicate Harmless(images: seq<Image>) {
    forall i, j :: 0 <= i < j < |images| ==> !Defeats(images, i, j)
  }

  /** Some image among the first `n` has stamp `t`. */
  ghost predicate AmongFirst(images: seq<Image>, n: int, t: real) {
    n <= |images| && exists p :: 0 <= p < n && images[p].stamp == t
  }

  lemma AmongMore(images: seq<Image>, n: int, all: seq<Image>, m: int, t: real)
    requires AmongFirst(images, n, t) && images <= all && n <= m <= |all|
    ensures AmongFirst(all, m, t)
  {
    var p :| 0 <= p < n && images[p].stamp == t;
    assert all[p].stamp == t;
  }

  /** The first `taken` images have been taken, the last of them perhaps still in flight; a tracked
      one lies before it. */
  ghost predicate TimeInv(s: State, images: seq<Image>) {
    var times, taken := TrackedTimes(s.log), |images| - |s.imageBuffer|;
    && 0 <= taken && s.imageBuffer == images[taken..]
    && StrictlyIncreasing(times)
    && (times == [] ==> s.lastImageTime == -1.0)
    && (times != [] ==> times[|times| - 1] == s.lastImageTime)
    && (times != [] ==> AmongFirst(images, if s.inFlight.Some? then taken - 1 else taken, s.lastImageTime))
    && (s.inFlight.Some? ==> 1 <= taken && images[taken - 1] == s.inFlight.value.image)
    && (s.inFlight.Some? && times != [] ==> s.lastImageTime < s.inFlight.value.image.stamp)
  }

  lemma {:induction false} TimeInvHolds(events: seq<Event>)
    requires Harmless(ImageStream(events))
    ensures TimeInv(Run(events), ImageStream(events))
  {
    hide TimeInv, Harmless, Ready, Take;
    if events == [] {
      InitialTimes();
    } else {
      var init, e := events[..|events| - 1], events[|events| - 1];
      var s, images := Run(init), ImageStream(init);
      assert images + [] == images;
      PrefixHarmless(images, ImageStream(events));
      TimeInvHolds(init);
      match e
      case ImageArrives(image) => ImageTimeStep(s, images, image);
      case TakeBatch => if Ready(s) { TakeTimeStep(s, images); }
      case ConversionFails => if s.inFlight.Some? { FailTimeStep(s, images); }
      case Tracks => if s.inFlight.Some? { TrackTimeStep(s, images); }
      case ImuArrives(_) => QuietTimeStep(s, images, e);
      case Stop => QuietTimeStep(s, images, e);
    }
  }

  lemma InitialTimes()
    ensures TimeInv(INITIAL, [])
  {
  }

  lemma PrefixHarmless(images: seq<Image>, all: seq<Image>)
    requires images <= all && Harmless(all)
    ensures Harmless(images)
  {
    forall i, j | 0 <= i < j < |images| ensures !Defeats(images, i, j) {
      assert !Defeats(all, i, j);
    }
  }

  lemma QuietTimeStep(s: State, images: seq<Image>, e: Event)
    requires TimeInv(s, images) && (e.ImuArrives? || e.Stop?)
    ensures TimeInv(Next(s, e), images)
  {
    hide TrackedTimes, StrictlyIncreasing, AmongFirst;
  }

  lemma ImageTimeStep(s: State, images: seq<Image>, image: Image)
    requires TimeInv(s, images)
    ensures TimeInv(Next(s, ImageArrives(image)), images + [image])
  {
    hide TrackedTimes, StrictlyIncreasing, AmongFirst;
    var all, taken := images + [image], |images| - |s.imageBuffer|;
    var m := if s.inFlight.Some? then taken - 1 else taken;
    if TrackedTimes(s.log) != [] {
      AmongMore(images, m, all, m, s.lastImageTime);
    }
    assert all[taken..] == s.imageBuffer + [image];
  }

  lemma TrackedTimesGrow(log: seq<Entry>, e: Entry)
    ensures TrackedTimes(log + [e]) ==
              if e.tracked then TrackedTimes(log) + [e.batch.image.stamp] else TrackedTimes(log)
  {
    assert (log + [e])[..|log|] == log;
    assert TrackedTimes(log) + [] == TrackedTimes(log);
  }

  lemma FailTimeStep(s: State, images: seq<Image>)
    requires TimeInv(s, images) && s.inFlight.Some?
    ensures TimeInv(Next(s, ConversionFails), images)
  {
    hide StrictlyIncreasing, AmongFirst, TrackedTimes;
    var taken := |images| - |s.imageBuffer|;
    TrackedTimesGrow(s.log, Entry(s.inFlight.value, false));
    if TrackedTimes(s.log) != [] {
      AmongMore(images, taken - 1, images, taken, s.lastImageTime);
    }
  }

  lemma TrackTimeStep(s: State, images: seq<Image>)
    requires TimeInv(s, images) && s.inFlight.Some?
    ensures TimeInv(Next(s, Tracks), images)
  {
    hide TrackedTimes;
    var taken := |images| - |s.imageBuffer|;
    TrackedTimesGrow(s.log, Entry(s.inFlight.value, true));
    assert images[taken - 1].stamp == s.inFlight.value.image.stamp;
  }

  lemma TakeTimeStep(s: State, images: seq<Image>)
    requires TimeInv(s, images) && Ready(s) && Harmless(images)
    ensures TimeInv(Take(s), images)
  {
    hide TrackedTimes, StrictlyIncreasing, CountUpTo, Kept;
    var taken := |images| - |s.imageBuffer|;
    assert s.imageBuffer[0] == images[taken];
    assert images[taken + 1..] == s.imageBuffer[1..];
    if TrackedTimes(s.log) != [] {
      var p :| 0 <= p < taken && images[p].stamp == s.lastImageTime;
      assert !Defeats(images, p, taken);
      AmongMore(images, taken, images, taken + 1, s.lastImageTime);
    }
  }

  /** Tracked times strictly increase in every run whose image stamps never defeat the guard. */
  lemma TrackedTimesIncrease(events: seq<Event>)
    requires Harmless(ImageStream(events))
    ensures StrictlyIncreasing(TrackedTimes(Run(events).log))
  {
    TimeInvHolds(events);
  }

  // ---------------------------------------------------------------- and only then

  lemma RunOneMore(events: seq<Event>, e: Event)
    ensures Run(events + [e]) == Next(Run(events), e)
    ensures ImageStream(events + [e]) == ImageStream(events) + (if e.ImageArrives? then [e.image] else [])
    ensures ImuStream(events + [e]) == ImuStream(events) + (if e.ImuArrives? then [e.imu] else [])
  {
    assert (events + [e])[..|events|] == events;
  }

  /** All images arrive first. */
  function Feed(images: seq<Image>): seq<Event> {
    if images == [] then [] else Feed(images[..|images| - 1]) + [ImageArrives(images[|images| - 1])]
  }

  lemma {:induction false} FeedRuns(images: seq<Image>)
    ensures Run(Feed(images)) == INITIAL.(imageBuffer := images)
    ensures ImageStream(Feed(images)) == images && ImuStream(Feed(images)) == []
  {
    if images == [] {
    } else {
      var init := images[..|images| - 1];
      FeedRuns(init);
      RunOneMore(Feed(init), ImageArrives(images[|images| - 1]));
      assert images == init + [images[|images| - 1]];
    }
  }

  /** A stamp after all images. */
  function After(images: seq<Image>): (t: real)
    ensures forall k :: 0 <= k < |images| ==> images[k].stamp < t
  {
    if images == [] then 0.0
    else
      var t := After(images[..|images| - 1]);
      if images[|images| - 1].stamp < t then t else images[|images| - 1].stamp + 1.0
  }

  /** The first `m` images are taken one by one; only those at `i` and `j` can be converted. */
  function Script(images: seq<Image>, i: int, j: int, m: nat): seq<Event> {
    if m == 0 then Feed(images) + [ImuArrives(Imu(After(images), 0))]
    else Script(images, i, j, m - 1) + [TakeBatch] + [if m - 1 == i || m - 1 == j then Tracks else ConversionFails]
  }

  /** The state after `m` images of the script. */
  ghost predicate ScriptState(s: State, images: seq<Image>, i: int, j: int, m: nat)
    requires Defeats(images, i, j) && m <= j + 1
  {
    && s.running && s.inFlight == None
    && s.imageBuffer == images[m..] && s.imuBuffer == [Imu(After(images), 0)]
    && s.lastImageTime == (if m <= i then -1.0 else if m <= j then images[i].stamp else images[j].stamp)
    && TrackedTimes(s.log) == (if m <= i then [] else if m <= j then [images[i].stamp]
                               else [images[i].stamp, images[j].stamp])
  }

  lemma ScriptStarts(images: seq<Image>, i: int, j: int)
    requires Defeats(images, i, j)
    ensures var events := Script(images, i, j, 0);
            && ScriptState(Run(events), images, i, j, 0)
            && ImageStream(events) == images && ImuStream(events) == [Imu(After(images), 0)]
  {
    hide Run, ImageStream, ImuStream, Feed, After;
    FeedRuns(images);
    RunOneMore(Feed(images), ImuArrives(Imu(After(images), 0)));
    assert images[0..] == images && images + [] == images;
  }

  lemma {:induction false} ScriptRuns(images: seq<Image>, i: int, j: int, m: nat)
    requires Defeats(images, i, j) && m <= j + 1
    ensures var events := Script(images, i, j, m);
            && ScriptState(Run(events), images, i, j, m)
            && ImageStream(events) == images && ImuStream(events) == [Imu(After(images), 0)]
  {
    hide Run, ImageStream, ImuStream, After, Next, TrackedTimes;
    if m == 0 {
      ScriptStarts(images, i, j);
    } else {
      ScriptRuns(images, i, j, m - 1);
      var before := Script(images, i, j, m - 1);
      var outcome := if m - 1 == i || m - 1 == j then Tracks else ConversionFails;
      RunOneMore(before, TakeBatch);
      RunOneMore(before + [TakeBatch], outcome);
      ScriptStep(Run(before), images, m - 1, outcome);
      assert images + [] == images && [Imu(After(images), 0)] + [] == [Imu(After(images), 0)];
      hide Script;
    }
  }

  /** One image is taken (nothing tracked has a non-negative time) and finished. */
  lemma ScriptStep(s: State, images: seq<Image>, k: nat, outcome: Event)
    requires k < |images| && s.running && s.inFlight == None && s.lastImageTime < 0.0
    requires s.imageBuffer == images[k..] && s.imuBuffer == [Imu(After(images), 0)]
    requires outcome == Tracks || outcome == ConversionFails
    ensures var t := Next(Next(s, TakeBatch), outcome);
            && t.running && t.inFlight == None
            && t.imageBuffer == images[k + 1..] && t.imuBuffer == s.imuBuffer
            && t.lastImageTime == (if outcome == Tracks then images[k].stamp else s.lastImageTime)
            && TrackedTimes(t.log) == TrackedTimes(s.log) + (if outcome == Tracks then [images[k].stamp] else [])
  {
    assert s.imageBuffer[0] == images[k] && s.imageBuffer[1..] == images[k + 1..];
    assert CountUpTo(s.imuBuffer, images[k].stamp) == 0;
    assert s.imuBuffer[0..] == s.imuBuffer;
    var taken := Next(s, TakeBatch);
    var log := taken.log + [Entry(taken.inFlight.value, outcome == Tracks)];
    assert log[..|log| - 1] == s.log;
  }

  /** Images that defeat the guard can be tracked out of order. */
  lemma DefeatedRun(images: seq<Image>, i: int, j: int) returns (events: seq<Event>)
    requires Defeats(images, i, j)
    ensures ImageStream(events) == images && Increasing(ImuStream(events))
    ensures !StrictlyIncreasing(TrackedTimes(Run(events).log))
  {
    hide Run, ImageStream, ImuStream, Script, TrackedTimes, After;
    events := Script(images, i, j, j + 1);
    ScriptRuns(images, i, j, j + 1);
    var times := TrackedTimes(Run(events).log);
    assert times[1] <= times[0];
  }

  /** The guard keeps tracked image times strictly increasing over every run fed with `images`
      exactly when no image with a negative stamp is followed by one that is not newer. */
  lemma TrackedTimesIncreaseExactly(images: seq<Image>)
    ensures Harmless(images) <==>
            forall events :: ImageStream(events) == images ==> StrictlyIncreasing(TrackedTimes(Run(events).log))
  {
    hide Defeats, StrictlyIncreasing, TrackedTimes, Run;
    if Harmless(images) {
      forall events | ImageStream(events) == images ensures StrictlyIncreasing(TrackedTimes(Run(events).log)) {
        TrackedTimesIncrease(events);
      }
    } else {
      var i, j :| 0 <= i < j < |images| && Defeats(images, i, j);
      var events := DefeatedRun(images, i, j);
    }
  }
}
