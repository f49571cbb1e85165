/** Which images reach the tracker, and with which samples. */
module MonoImages {
  import opened Common
  import opened MonoInertial
  import opened MonoInertialTheorems

  /** The last tracked image's time, if an image has been tracked and its time is not negative. */
  function LastTracked(log: seq<Entry>): Option<real> {
    var times := TrackedTimes(log);
    if times != [] && times[|times| - 1] >= 0.0 then Some(times[|times| - 1]) else None
  }

  /** The worker remembers the last tracked time. */
  predicate Remembers(s: State) {
    var times := TrackedTimes(s.log);
    s.lastImageTime == if times == [] then -1.0 else times[|times| - 1]
  }

  lemma {:induction false} RunRemembers(events: seq<Event>)
    ensures Remembers(Run(events))
  {
    hide TrackedTimes, Ready, Take, Remembers;
    if events == [] {
      NothingTracked();
    } else {
      var init, e := events[..|events| - 1], events[|events| - 1];
      RunRemembers(init);
      StepRemembers(Run(init), e);
    }
  }

  lemma NothingTracked()
    ensures Remembers(INITIAL)
  {
  }

  lemma StepRemembers(s: State, e: Event)
    requires Remembers(s)
    ensures Remembers(Next(s, e))
  {
    if s.inFlight.Some? {
      TrackedTimesGrow(s.log, Entry(s.inFlight.value, e.Tracks?));
    }
    hide TrackedTimes, CountUpTo, Kept;
  }

  // ---------------------------------------------------------------- taking an image

  /** An image waits, nothing is in flight, and a sample at least as late as the image has arrived. */
  predicate CanTake(s: State) {
    && s.running && s.inFlight.None? && |s.imageBuffer| > 0 && |s.imuBuffer| > 0
    && s.imageBuffer[0].stamp <= s.imuBuffer[|s.imuBuffer| - 1].stamp
  }

  /** In every run: the worker takes the oldest image as soon as it can, and drops it exactly if the
      last tracked image has a time that is not negative and the image is not newer. */
  lemma DroppedExactly(events: seq<Event>)
    ensures !CanTake(Run(events)) ==> Run(events + [TakeBatch]) == Run(events)
    ensures CanTake(Run(events)) ==>
              var s, t := Run(events), Run(events + [TakeBatch]);
              var image, last := s.imageBuffer[0], LastTracked(s.log);
              && t.imageBuffer == s.imageBuffer[1..] && t.log == s.log && t.running
              && (last.Some? && image.stamp <= last.value ==> t.inFlight.None? && t.imuBuffer == s.imuBuffer)
              && (!(last.Some? && image.stamp <= last.value) ==> t.inFlight.Some? && t.inFlight.value.image == image)
  {
    RunOneMore(events, TakeBatch);
    RunRemembers(events);
    hide Run, TrackedTimes, CountUpTo, Kept;
  }

  /** Where the samples kept for a batch stand among those that leave the buffer. */
  predicate PicksNew(samples: seq<Imu>, last: Option<real>, at: seq<nat>, picked: seq<Imu>) {
    && |at| == |picked|
    && (forall k :: 0 <= k < |at| ==> at[k] < |samples| && samples[at[k]] == picked[k])
    && (forall k, l :: 0 <= k < l < |at| ==> at[k] < at[l])
    && (forall i :: 0 <= i < |samples| ==> (i in at <==> last.None? || samples[i].stamp > last.value))
  }

  lemma {:induction false} KeptPicksNew(samples: seq<Imu>, time: real, last: Option<real>) returns (at: seq<nat>)
    requires last == if time < 0.0 then None else Some(time)
    ensures PicksNew(samples, last, at, Kept(samples, time))
  {
    if samples == [] {
      at := [];
    } else {
      var init, n := samples[..|samples| - 1], |samples| - 1;
      at := KeptPicksNew(init, time, last);
      if last.None? || samples[n].stamp > last.value {
        PickOneMore(samples, last, at, Kept(init, time));
        at := at + [n];
      } else {
        assert Kept(samples, time) == Kept(init, time);
        assert n !in at;
      }
    }
  }

  lemma PickOneMore(samples: seq<Imu>, last: Option<real>, at: seq<nat>, picked: seq<Imu>)
    requires samples != [] && PicksNew(samples[..|samples| - 1], last, at, picked)
    requires last.None? || samples[|samples| - 1].stamp > last.value
    ensures PicksNew(samples, last, at + [|samples| - 1], picked + [samples[|samples| - 1]])
  {
    var n := |samples| - 1;
    var more := at + [n];
    assert more[|at|] == n && forall i :: i in more <==> i in at || i == n;
    assert forall i :: 0 <= i < n ==> samples[..n][i] == samples[i];
  }

  lemma {:induction false} CountStops(imus: seq<Imu>, t: real)
    ensures var n := CountUpTo(imus, t);
            && (forall k :: 0 <= k < n ==> imus[k].stamp <= t)
            && (n < |imus| ==> imus[n].stamp > t)
  {
    if imus == [] {
    } else if imus[0].stamp <= t {
      CountStops(imus[1..], t);
      assert forall k :: 1 <= k < |imus| ==> imus[k] == imus[1..][k - 1];
    }
  }

  /** In every run, whatever the stamps: the samples that leave the buffer with an image are those up to
      the first that is later than it, and the batch is those of them that are newer than the last
      tracked image, in order. */
  lemma BatchExactly(events: seq<Event>) returns (n: nat, at: seq<nat>)
    requires CanTake(Run(events)) && Run(events + [TakeBatch]).inFlight.Some?
    ensures var s, t := Run(events), Run(events + [TakeBatch]);
            var batch := t.inFlight.value;
            && n <= |s.imuBuffer| && t.imuBuffer == s.imuBuffer[n..]
            && (forall k :: 0 <= k < n ==> s.imuBuffer[k].stamp <= batch.image.stamp)
            && (n < |s.imuBuffer| ==> s.imuBuffer[n].stamp > batch.image.stamp)
            && PicksNew(s.imuBuffer[..n], LastTracked(s.log), at, batch.imus)
  {
    RunOneMore(events, TakeBatch);
    RunRemembers(events);
    hide Run, TrackedTimes, Kept, PicksNew;
    var s := Run(events);
    n := CountUpTo(s.imuBuffer, s.imageBuffer[0].stamp);
    CountStops(s.imuBuffer, s.imageBuffer[0].stamp);
    hide CountUpTo;
    at := KeptPicksNew(s.imuBuffer[..n], s.lastImageTime, LastTracked(s.log));
  }

  // ---------------------------------------------------------------- all images

  /** The images of the finished batches, in order. */
  function Handed(log: seq<Entry>): seq<Image> {
    if log == [] then [] else Handed(log[..|log| - 1]) + [log[|log| - 1].batch.image]
  }

  function ImageInFlight(s: State): seq<Image> {
    if s.inFlight.Some? then [s.inFlight.value.image] else []
  }

  /** No image comes after one with a time that is not negative and not earlier. */
  predicate NeverStale(images: seq<Image>) {
    forall i, j :: 0 <= i < j < |images| && images[i].stamp >= 0.0 ==> images[i].stamp < images[j].stamp
  }

  /** No image has been dropped so far, and the last tracked time is that of an image handed on. */
  ghost predicate AllKept(s: State, images: seq<Image>) {
    && Handed(s.log) + ImageInFlight(s) + s.imageBuffer == images
    && (s.lastImageTime >= 0.0 ==>
          exists k :: 0 <= k < |Handed(s.log)| && Handed(s.log)[k].stamp == s.lastImageTime)
  }

  lemma HandedGrows(log: seq<Entry>, e: Entry)
    ensures Handed(log + [e]) == Handed(log) + [e.batch.image]
  {
    assert (log + [e])[..|log|] == log;
  }

  lemma {:induction false} AllKeptHolds(events: seq<Event>)
    requires NeverStale(ImageStream(events))
    ensures AllKept(Run(events), ImageStream(events))
  {
    hide AllKept, NeverStale, Next;
    if events == [] {
      NothingHanded();
    } else {
      var init, e := events[..|events| - 1], events[|events| - 1];
      assert ImageStream(init) + [] == ImageStream(init);
      StaleLater(ImageStream(init), ImageStream(events));
      AllKeptHolds(init);
      match e
      case ImageArrives(image) => ArrivalKeeps(Run(init), ImageStream(init), image);
      case TakeBatch => TakeKeeps(Run(init), ImageStream(init));
      case ConversionFails => FinishKeeps(Run(init), ImageStream(init), e);
      case Tracks => FinishKeeps(Run(init), ImageStream(init), e);
      case ImuArrives(_) => OthersKeep(Run(init), ImageStream(init), e);
      case Stop => OthersKeep(Run(init), ImageStream(init), e);
    }
  }

  lemma NothingHanded()
    ensures AllKept(INITIAL, [])
  {
  }

  lemma StaleLater(images: seq<Image>, all: seq<Image>)
    requires images <= all && NeverStale(all)
    ensures NeverStale(images)
  {
  }

  lemma ArrivalKeeps(s: State, images: seq<Image>, image: Image)
    requires AllKept(s, images)
    ensures AllKept(Next(s, ImageArrives(image)), images + [image])
  {
    hide Handed;
    var before := Handed(s.log) + ImageInFlight(s);
    assert before + (s.imageBuffer + [image]) == images + [image];
  }

  lemma OthersKeep(s: State, images: seq<Image>, e: Event)
    requires AllKept(s, images) && (e.ImuArrives? || e.Stop?)
    ensures AllKept(Next(s, e), images)
  {
    hide Handed;
  }

  lemma FinishKeeps(s: State, images: seq<Image>, e: Event)
    requires AllKept(s, images) && (e.ConversionFails? || e.Tracks?)
    ensures AllKept(Next(s, e), images)
  {
    if s.inFlight.Some? {
      var entry := Entry(s.inFlight.value, e.Tracks?);
      HandedGrows(s.log, entry);
      hide Handed;
      var handed, after := Handed(s.log), Handed(s.log + [entry]);
      assert after + [] == after;
      assert after[|handed|] == s.inFlight.value.image;
      if s.lastImageTime >= 0.0 {
        var k :| 0 <= k < |handed| && handed[k].stamp == s.lastImageTime;
        assert after[k] == handed[k];
      }
    }
  }

  lemma TakeKeeps(s: State, images: seq<Image>)
    requires AllKept(s, images) && NeverStale(images)
    ensures AllKept(Next(s, TakeBatch), images)
  {
    hide Handed, CountUpTo, Kept;
    if Ready(s) {
      var handed, image := Handed(s.log), s.imageBuffer[0];
      assert handed + [] == handed && images == handed + s.imageBuffer;
      assert images[|handed|] == image && images == handed + [image] + s.imageBuffer[1..];
      if s.lastImageTime >= 0.0 {
        var k :| 0 <= k < |handed| && handed[k].stamp == s.lastImageTime;
        assert images[k] == handed[k];
      }
    }
  }

  /** For images that are never stale, in every run: those of the finished batches, then the one in
      flight, then those waiting are exactly the images that arrived, in order. */
  lemma NoImageIsLost(events: seq<Event>)
    requires NeverStale(ImageStream(events))
    ensures var s := Run(events); Handed(s.log) + ImageInFlight(s) + s.imageBuffer == ImageStream(events)
  {
    AllKeptHolds(events);
  }

  /** In particular for increasing times that are not negative. */
  lemma IncreasingIsNeverStale(images: seq<Image>)
    requires forall i :: 0 <= i < |images| ==> images[i].stamp >= 0.0
    requires forall i, j :: 0 <= i < j < |images| ==> images[i].stamp < images[j].stamp
    ensures NeverStale(images)
  {
  }

  // ---------------------------------------------------------------- and only then

  /** The state after `m` images have been taken one by one, of which only number `i` is converted. */
  ghost predicate OneTracked(s: State, images: seq<Image>, i: nat, m: nat)
    requires i < |images| && m <= |images|
  {
    && s.running && s.inFlight == None
    && s.imageBuffer == images[m..] && s.imuBuffer == [Imu(After(images), 0)]
    && s.lastImageTime == (if m <= i then -1.0 else images[i].stamp)
    && |Handed(s.log)| <= m
  }

  lemma TakeOne(s: State, images: seq<Image>, i: nat, m: nat)
    requires i < |images| && m < |images| && OneTracked(s, images, i, m) && images[i].stamp >= 0.0
    ensures var t := Next(Next(s, TakeBatch), if m == i then Tracks else ConversionFails);
            && OneTracked(t, images, i, m + 1)
            && (i < m && images[m].stamp <= images[i].stamp ==> |Handed(t.log)| <= m)
  {
    assert s.imageBuffer[0] == images[m] && s.imageBuffer[1..] == images[m + 1..];
    assert CountUpTo(s.imuBuffer, images[m].stamp) == 0;
    assert s.imuBuffer[0..] == s.imuBuffer;
    hide After, Handed, CountUpTo, Kept;
    var taken := Next(s, TakeBatch);
    if taken.inFlight.Some? {
      HandedGrows(s.log, Entry(taken.inFlight.value, m == i));
    }
  }

  lemma {:induction false} ScriptTracksOne(images: seq<Image>, i: nat, m: nat)
    requires i < |images| && m <= |images| && images[i].stamp >= 0.0
    ensures var events := Script(images, i, i, m);
            OneTracked(Run(events), images, i, m) && ImageStream(events) == images
    ensures var s := Run(Script(images, i, i, m));
            m > i + 1 && images[m - 1].stamp <= images[i].stamp ==> |Handed(s.log)| < m
  {
    hide Run, ImageStream, ImuStream, After, Next, TrackedTimes, Handed, OneTracked;
    if m == 0 {
      OneTrackedStarts(images, i);
    } else {
      ScriptTracksOne(images, i, m - 1);
      var before := Script(images, i, i, m - 1);
      var outcome := if m - 1 == i then Tracks else ConversionFails;
      RunOneMore(before, TakeBatch);
      RunOneMore(before + [TakeBatch], outcome);
      TakeOne(Run(before), images, i, m - 1);
      assert images + [] == images;
      hide Script;
    }
  }

  lemma OneTrackedStarts(images: seq<Image>, i: nat)
    requires i < |images|
    ensures var events := Script(images, i, i, 0);
            OneTracked(Run(events), images, i, 0) && ImageStream(events) == images
  {
    FeedRuns(images);
    RunOneMore(Feed(images), ImuArrives(Imu(After(images), 0)));
    assert images[0..] == images && images + [] == images;
    hide Run, ImageStream, ImuStream, Feed, After;
  }

  /** A stale image can be lost. */
  lemma StaleImageIsLost(images: seq<Image>, i: nat, j: nat) returns (events: seq<Event>)
    requires i < j < |images| && images[i].stamp >= 0.0 && images[j].stamp <= images[i].stamp
    ensures ImageStream(events) == images
    ensures var s := Run(events); Handed(s.log) + ImageInFlight(s) + s.imageBuffer != images
  {
    hide Run, ImageStream, Script, Handed, OneTracked;
    events := Script(images, i, i, j + 1);
    ScriptTracksOne(images, i, j + 1);
    TooFew(Run(events), images, i, j + 1);
  }

  lemma TooFew(s: State, images: seq<Image>, i: nat, m: nat)
    requires i < |images| && m <= |images| && OneTracked(s, images, i, m) && |Handed(s.log)| < m
    ensures Handed(s.log) + ImageInFlight(s) + s.imageBuffer != images
  {
    hide Handed, After;
    assert |Handed(s.log) + ImageInFlight(s) + s.imageBuffer| < |images|;
  }

  /** Every run hands on, holds or keeps waiting all images that arrive exactly if none of them comes
      after an image with a time that is not negative and not earlier. */
  lemma ImagesKeptExactly(images: seq<Image>)
    ensures NeverStale(images) <==>
            forall events :: ImageStream(events) == images ==>
              Handed(Run(events).log) + ImageInFlight(Run(events)) + Run(events).imageBuffer == images
  {
    hide Run, Handed;
    if NeverStale(images) {
      forall events | ImageStream(events) == images
        ensures Handed(Run(events).log) + ImageInFlight(Run(events)) + Run(events).imageBuffer == images
      {
        NoImageIsLost(events);
      }
    } else {
      var i, j :| 0 <= i < j < |images| && images[i].stamp >= 0.0 && !(images[i].stamp < images[j].stamp);
      var events := StaleImageIsLost(images, i, j);
    }
  }

  // ---------------------------------------------------------------- shutdown

  /** The worker runs until it is stopped, and then takes nothing any more. */
  lemma {:induction false} RunsUntilStopped(events: seq<Event>)
    ensures Run(events).running <==> Stop !in events
    ensures Stop in events ==> !CanTake(Run(events))
  {
    hide Take;
    if events == [] {
    } else {
      var init, e := events[..|events| - 1], events[|events| - 1];
      RunsUntilStopped(init);
      assert events == init + [e];
      TakeKeepsRunning(Run(init));
    }
  }

  lemma TakeKeepsRunning(s: State)
    ensures Ready(s) ==> Take(s).running
  {
    hide CountUpTo, Kept;
  }
}
