/** Which frames a recording holds: those the thinning rule selects from the images that arrived after
    warm-up, none lost but perhaps the last. */
module RecorderSelection {
  import opened Common
  import opened CameraContract
  import D = Dataset
  import W = ImageWriter
  import F = FrameThinning
  import opened CheckDataset
  import opened Recorder
  import opened RecorderTheorems
  import T = CaptureClock

  // ---------------------------------------------------------------- what arrives, what is chosen

  /** The image counts: warm-up is over, and in simulated time its stamp is not zero. */
  predicate Counts(clock: T.Clock, e: T.Elapsed, m: ImageMessage) {
    && e.Since? && e.seconds >= clock.options.warmup
    && !(clock.options.simulated && m.stamp == 0)
  }

  /** The frames of the images that count, from a run that starts with this clock. */
  function Arrived(clock: T.Clock, events: seq<Event>): seq<D.Frame>
    decreases |events|
  {
    if events == [] then []
    else
      match events[0]
      case Image(m, reading, receivedNs) =>
        var (after, e) := T.CaptureElapsed(clock.(lastReceived := reading.monotonic), reading);
        (if Counts(clock, e, m) then [FrameOf(m, receivedNs)] else []) + Arrived(after, events[1..])
      case Timer(reading, _) => Arrived(T.CaptureElapsed(clock, reading).0, events[1..])
      case _ => Arrived(clock, events[1..])
  }

  function Stamps(frames: seq<D.Frame>): seq<int> {
    seq(|frames|, i requires 0 <= i < |frames| => frames[i].stamp)
  }

  /** The frames at which the thinning rule selects. */
  function Chosen(interval: int, frames: seq<D.Frame>): seq<D.Frame> {
    if frames == [] then []
    else
      var init := frames[..|frames| - 1];
      Chosen(interval, init) +
      if F.FeedAll(interval, Stamps(frames)).selected != F.FeedAll(interval, Stamps(init)).selected
      then [frames[|frames| - 1]] else []
  }

  lemma FeedOneMore(interval: int, frames: seq<D.Frame>, f: D.Frame)
    ensures var before, after := F.FeedAll(interval, Stamps(frames)), F.FeedAll(interval, Stamps(frames + [f]));
            if before.refused then after == before
            else
              var (selector, v) := D.Eligible(interval, before.selector, f.stamp);
              after ==
                F.Feed(selector, if v.Selected? then before.selected + [f.stamp] else before.selected, v.Refused?)
  {
    var all := Stamps(frames + [f]);
    assert all[..|all| - 1] == Stamps(frames) && all[|all| - 1] == f.stamp;
    hide D.Eligible;
  }

  lemma ChosenOneMore(interval: int, frames: seq<D.Frame>, f: D.Frame)
    ensures var before := F.FeedAll(interval, Stamps(frames));
            Chosen(interval, frames + [f]) == Chosen(interval, frames) +
              if !before.refused && D.Eligible(interval, before.selector, f.stamp).1.Selected? then [f] else []
  {
    FeedOneMore(interval, frames, f);
    var all := frames + [f];
    assert all[..|all| - 1] == frames && all[|all| - 1] == f;
    hide D.Eligible, F.FeedAll;
  }

  /** The chosen frames are those with the selected stamps. */
  lemma {:induction false} ChosenStamps(interval: int, frames: seq<D.Frame>)
    ensures Stamps(Chosen(interval, frames)) == F.FeedAll(interval, Stamps(frames)).selected
  {
    if frames == [] {
    } else {
      var init, f := frames[..|frames| - 1], frames[|frames| - 1];
      assert frames == init + [f];
      ChosenStamps(interval, init);
      FeedOneMore(interval, init, f);
      ChosenOneMore(interval, init, f);
      hide D.Eligible, F.FeedAll, Chosen;
    }
  }

  // ---------------------------------------------------------------- what the recorder keeps of it

  /** No further image will be taken. */
  predicate Ending(s: State) {
    s.done || !s.stage.Spinning?
  }

  /** The writer was offered what was chosen, or all but the last of it. */
  predicate OfferedAs(s: State, chosen: seq<D.Frame>) {
    || Offered(s.writer) == chosen
    || (Ending(s) && s.writer.pending.None? && chosen != [] && Offered(s.writer) == chosen[..|chosen| - 1])
  }

  ghost predicate Records(interval: int, s: State, arrived: seq<D.Frame>) {
    && (!Ending(s) ==>
          && s.chooser == F.FeedAll(interval, Stamps(arrived)).selector
          && !F.FeedAll(interval, Stamps(arrived)).refused
          && Offered(s.writer) == Chosen(interval, arrived))
    && OfferedAs(s, Chosen(interval, arrived))
  }

  /** What one event adds. */
  function Adds(clock: T.Clock, e: Event): seq<D.Frame> {
    if e.Image? && Counts(clock, T.CaptureElapsed(clock.(lastReceived := e.reading.monotonic), e.reading).1, e.image)
    then [FrameOf(e.image, e.receivedNs)] else []
  }

  lemma StartRecords(interval: int, queueSize: nat, options: T.Options, started: real)
    ensures Records(interval, Start(queueSize, options, started), [])
  {
  }

  /** An event that leaves the offered frames and the chooser as they are. */
  lemma QuietRecords(interval: int, s: State, t: State, arrived: seq<D.Frame>)
    requires Records(interval, s, arrived)
    requires t.chooser == s.chooser && Offered(t.writer) == Offered(s.writer)
    requires Ending(s) ==> Ending(t) && (s.writer.pending.None? ==> t.writer.pending.None?)
    ensures Records(interval, t, arrived)
  {
    hide F.FeedAll, Chosen, Offered;
  }

  /** A pending frame that is turned away is the last one chosen. */
  lemma DroppedRecords(interval: int, s: State, t: State, arrived: seq<D.Frame>)
    requires Records(interval, s, arrived) && s.writer.pending.Some? && Ending(t)
    requires t.writer.pending.None? && t.writer.submitted == s.writer.submitted
    ensures Records(interval, t, arrived)
  {
    hide F.FeedAll, Chosen;
    var chosen := Chosen(interval, arrived);
    assert Offered(s.writer) == chosen;
    assert chosen[..|chosen| - 1] == s.writer.submitted;
    assert s.writer.submitted + [] == s.writer.submitted;
  }

  lemma ImageRecords(codec: D.Codec, interval: int, s: State, e: Event, arrived: seq<D.Frame>)
    requires Records(interval, s, arrived) && Enabled(codec, s, e) && e.Image?
    ensures Records(interval, AfterImage(interval, s, e.image, e.reading, e.receivedNs), arrived + Adds(s.clock, e))
  {
    hide T.CaptureElapsed, AcceptImage, Records;
    var (clock, elapsed) := T.CaptureElapsed(s.clock.(lastReceived := e.reading.monotonic), e.reading);
    var t := s.(clock := clock);
    ClockKeepsOptions(s.clock.(lastReceived := e.reading.monotonic), e.reading);
    assert arrived + [] == arrived;
    if elapsed.ClockFails? {
      QuietRecords(interval, s, Fail(t, ClockBackwards), arrived);
    } else if elapsed.NotStarted? || elapsed.seconds < clock.options.warmup {
      QuietRecords(interval, s, t, arrived);
    } else {
      QuietRecords(interval, s, t, arrived);
      AcceptRecords(interval, t, e.image, e.receivedNs, arrived);
    }
  }

  lemma ClockKeepsOptions(clock: T.Clock, r: T.Reading)
    ensures T.CaptureElapsed(clock, r).0.options == clock.options
  {
  }

  lemma AcceptRecords(interval: int, s: State, m: ImageMessage, receivedNs: int, arrived: seq<D.Frame>)
    requires Records(interval, s, arrived) && !Ending(s) && s.writer.pending.None?
    ensures Records(interval, AcceptImage(interval, s, m, receivedNs),
                    arrived + if s.clock.options.simulated && m.stamp == 0 then [] else [FrameOf(m, receivedNs)])
  {
    var f := FrameOf(m, receivedNs);
    hide Records, ObserveImage, W.Next, F.FeedAll, Ending, Offered;
    var (contract, o) := ObserveImage(s.contract, ImageSignature(m.width, m.height, m.encoding, m.frameId));
    var t := s.(contract := contract);
    assert arrived + [] == arrived;
    if s.clock.options.simulated && m.stamp == 0 {
      var u := if o.Raised? then Fail(t, o.message) else t;
      SameOffered(s, u);
      QuietRecords(interval, s, u, arrived);
    } else if o.Raised? {
      SameOffered(s, Fail(t, o.message));
      RejectedRecords(interval, s, Fail(t, o.message), arrived, f);
    } else {
      ChosenRecords(interval, s, t, f, arrived);
    }
  }

  lemma SameOffered(s: State, t: State)
    requires t.writer == s.writer && t.stage == s.stage && (s.done ==> t.done)
    ensures Offered(t.writer) == Offered(s.writer) && (Ending(s) ==> Ending(t)) && (t.done ==> Ending(t))
  {
  }

  /** The image's stamp goes to the chooser, and a selected frame to the writer. */
  lemma ChosenRecords(interval: int, s: State, t: State, f: D.Frame, arrived: seq<D.Frame>)
    requires Records(interval, s, arrived) && !Ending(s) && s.writer.pending.None?
    requires t == s.(contract := t.contract)
    ensures var (chooser, v) := D.Eligible(interval, t.chooser, f.stamp);
            var u := t.(chooser := chooser);
            var (writer, accepted) := W.Next(u.writer, W.Offer(f));
            match v
            case Refused(text) => Records(interval, Fail(u, text), arrived + [f])
            case Skipped => Records(interval, u, arrived + [f])
            case Selected =>
              var w := u.(writer := writer);
              Records(interval, if accepted.Raised? then Fail(w, accepted.message) else w, arrived + [f])
  {
    var (chooser, v) := D.Eligible(interval, t.chooser, f.stamp);
    var u := t.(chooser := chooser);
    var (writer, accepted) := W.Next(u.writer, W.Offer(f));
    OfferOffers(s.writer, f);
    hide D.Eligible, W.Next;
    match v
    case Refused(text) => RejectedRecords(interval, s, Fail(u, text), arrived, f);
    case Skipped => TakenRecords(interval, s, u, arrived, f);
    case Selected =>
      var w := u.(writer := writer);
      if accepted.Raised? {
        RejectedRecords(interval, s, Fail(w, accepted.message), arrived, f);
      } else {
        TakenRecords(interval, s, w, arrived, f);
      }
  }

  lemma OfferOffers(w: W.State, f: D.Frame)
    requires w.pending.None?
    ensures var (after, o) := W.Next(w, W.Offer(f));
            if o.Raised? then after == w else Offered(after) == Offered(w) + [f]
  {
  }

  /** Taken, and no more to come. */
  lemma RejectedRecords(interval: int, s: State, t: State, arrived: seq<D.Frame>, f: D.Frame)
    requires Records(interval, s, arrived) && !Ending(s) && s.writer.pending.None?
    requires Ending(t) && t.writer == s.writer
    ensures Records(interval, t, arrived + [f])
  {
    ChosenOneMore(interval, arrived, f);
    hide F.FeedAll, Chosen, D.Eligible;
    var chosen := Chosen(interval, arrived);
    assert (chosen + [f])[..|chosen + [f]| - 1] == chosen && chosen + [] == chosen;
  }

  /** Taken, and kept if selected. */
  lemma TakenRecords(interval: int, s: State, t: State, arrived: seq<D.Frame>, f: D.Frame)
    requires Records(interval, s, arrived) && !Ending(s)
    requires var (chooser, v) := D.Eligible(interval, s.chooser, f.stamp);
             && t.chooser == chooser && !v.Refused?
             && Offered(t.writer) == Offered(s.writer) + if v.Selected? then [f] else []
    ensures Records(interval, t, arrived + [f])
  {
    ChosenOneMore(interval, arrived, f);
    FeedOneMore(interval, arrived, f);
    hide F.FeedAll, Chosen, D.Eligible, Offered;
  }

  lemma SubmitRecords(interval: int, s: State, observed: nat, update: Outcome, arrived: seq<D.Frame>)
    requires Records(interval, s, arrived) && W.Enabled(s.writer, W.Put(observed))
    ensures Records(interval, AfterSubmit(s, observed, update), arrived)
  {
    hide Records, AfterSubmit;
    if |s.writer.queue| < s.writer.capacity {
      SubmitOffers(s, observed, update);
      QuietRecords(interval, s, AfterSubmit(s, observed, update), arrived);
    } else {
      SubmitDrops(s, observed, update);
      DroppedRecords(interval, s, AfterSubmit(s, observed, update), arrived);
    }
  }

  lemma SubmitOffers(s: State, observed: nat, update: Outcome)
    requires W.Enabled(s.writer, W.Put(observed)) && |s.writer.queue| < s.writer.capacity
    ensures var t := AfterSubmit(s, observed, update);
            && t.chooser == s.chooser && Offered(t.writer) == Offered(s.writer)
            && (Ending(s) ==> Ending(t))
  {
  }

  lemma SubmitDrops(s: State, observed: nat, update: Outcome)
    requires W.Enabled(s.writer, W.Put(observed)) && |s.writer.queue| >= s.writer.capacity
    ensures var t := AfterSubmit(s, observed, update);
            && Ending(t) && t.writer.pending.None? && t.writer.submitted == s.writer.submitted
  {
  }

  lemma CloseRecords(interval: int, s: State, arrived: seq<D.Frame>)
    requires Records(interval, s, arrived)
    ensures Records(interval, Close(s), arrived)
  {
    hide Records;
    if s.writer.pending.Some? {
      DroppedRecords(interval, s, Close(s), arrived);
    } else {
      QuietRecords(interval, s, Close(s), arrived);
    }
  }

  /** Worker, other processes, calibration: nothing about the images changes. */
  lemma OtherRecords(codec: D.Codec, interval: int, s: State, e: Event, arrived: seq<D.Frame>)
    requires Records(interval, s, arrived) && Enabled(codec, s, e)
    requires !e.Image? && !e.Submit? && !e.Timer? && !e.SpinRaises? && !e.Stop?
    ensures Records(interval, Next(codec, interval, s, e), arrived)
  {
    hide Records, ObserveInfo, D.Save;
    QuietRecords(interval, s, Next(codec, interval, s, e), arrived);
  }

  lemma TimerRecords(interval: int, s: State, r: T.Reading, update: Outcome, arrived: seq<D.Frame>)
    requires Records(interval, s, arrived)
    ensures Records(interval, AfterTimer(s, r, update), arrived)
  {
    hide Records, T.CaptureElapsed, Close;
    var calm := AfterTimer(s, r, Returned);
    QuietRecords(interval, s, calm, arrived);
    if update.Raised? && !T.CaptureElapsed(s.clock, r).1.ClockFails? {
      var failed := calm.(error := update.message);
      QuietRecords(interval, calm, failed, arrived);
      CloseRecords(interval, failed, arrived);
      assert AfterTimer(s, r, update) == Close(failed);
    } else {
      assert AfterTimer(s, r, update) == calm;
    }
  }

  lemma StepRecords(codec: D.Codec, interval: int, s: State, e: Event, arrived: seq<D.Frame>)
    requires Records(interval, s, arrived) && Enabled(codec, s, e)
    ensures Records(interval, Next(codec, interval, s, e), arrived + Adds(s.clock, e))
  {
    hide Records, AfterImage, AfterSubmit, AfterTimer, Close, AfterInfo, AfterFinish, D.Save, W.Next, T.CaptureElapsed;
    assert arrived + [] == arrived;
    match e
    case Image(_, _, _) => ImageRecords(codec, interval, s, e, arrived);
    case Submit(observed, update) => SubmitRecords(interval, s, observed, update, arrived);
    case Timer(reading, update) => TimerRecords(interval, s, reading, update, arrived);
    case SpinRaises(text) =>
      QuietRecords(interval, s, s.(error := text), arrived);
      CloseRecords(interval, s.(error := text), arrived);
    case Stop => CloseRecords(interval, s, arrived);
    case _ => OtherRecords(codec, interval, s, e, arrived);
  }

  /** How the clock moves. */
  lemma StepClock(codec: D.Codec, interval: int, s: State, e: Event)
    requires Enabled(codec, s, e)
    ensures Next(codec, interval, s, e).clock ==
              match e
              case Image(_, reading, _) =>
                T.CaptureElapsed(s.clock.(lastReceived := reading.monotonic), reading).0
              case Timer(reading, _) => T.CaptureElapsed(s.clock, reading).0
              case _ => s.clock
  {
    hide T.CaptureElapsed, W.Next, D.Save, ObserveInfo, ObserveImage, D.Eligible;
  }

  lemma ArrivedUnrolls(clock: T.Clock, events: seq<Event>)
    requires events != []
    ensures var after := match events[0]
              case Image(_, reading, _) => T.CaptureElapsed(clock.(lastReceived := reading.monotonic), reading).0
              case Timer(reading, _) => T.CaptureElapsed(clock, reading).0
              case _ => clock;
            Arrived(clock, events) == Adds(clock, events[0]) + Arrived(after, events[1..])
  {
    hide T.CaptureElapsed, Counts;
  }

  lemma {:induction false} LeadsRecords(codec: D.Codec, interval: int, s: State, events: seq<Event>, end: State,
                                       arrived: seq<D.Frame>)
    requires Records(interval, s, arrived) && Leads(codec, interval, s, events, end)
    ensures Records(interval, end, arrived + Arrived(s.clock, events))
    decreases |events|
  {
    hide Records, Next, Enabled, Adds;
    if events == [] {
      assert arrived + [] == arrived;
    } else {
      ArrivedUnrolls(s.clock, events);
      var t := Next(codec, interval, s, events[0]);
      StepRecords(codec, interval, s, events[0], arrived);
      StepClock(codec, interval, s, events[0]);
      LeadsRecords(codec, interval, t, events[1..], end, arrived + Adds(s.clock, events[0]));
      assert arrived + Adds(s.clock, events[0]) + Arrived(t.clock, events[1..]) ==
             arrived + (Adds(s.clock, events[0]) + Arrived(t.clock, events[1..]));
    }
  }

  // ---------------------------------------------------------------- what a recording holds

  /** `frames` are the chosen ones, or all but the last of them. */
  predicate AllButLast(frames: seq<D.Frame>, chosen: seq<D.Frame>) {
    frames == chosen || (chosen != [] && frames == chosen[..|chosen| - 1])
  }

  /** In every run, what has been offered to the writer is what the thinning rule chooses from the images
      that arrived after warm-up; while images are still taken all of it, and afterwards perhaps all but
      the last. */
  lemma OfferedExactly(codec: D.Codec, interval: int, queueSize: nat, options: T.Options, started: real,
                       events: seq<Event>, s: State)
    requires Leads(codec, interval, Start(queueSize, options, started), events, s)
    ensures var chosen := Chosen(interval, Arrived(T.Begin(options, started), events));
            && AllButLast(Offered(s.writer), chosen)
            && (!s.done && s.stage.Spinning? ==> Offered(s.writer) == chosen)
  {
    var start := Start(queueSize, options, started);
    StartRecords(interval, queueSize, options, started);
    LeadsRecords(codec, interval, start, events, s, []);
    assert [] + Arrived(start.clock, events) == Arrived(start.clock, events);
    hide Arrived, Chosen, Leads, F.FeedAll;
  }

  /** A complete recording without a failure file holds exactly those frames: each row describes its
      frame and the file beside it. */
  lemma CompleteHoldsChosen(codec: D.Codec, interval: int, queueSize: nat, options: T.Options, started: real,
                            events: seq<Event>, s: State)
    requires interval >= 1 && queueSize >= 1 && Leads(codec, interval, Start(queueSize, options, started), events, s)
    requires s.session.status.Complete? && s.failure.None?
    ensures var frames, chosen := s.writer.saved, Chosen(interval, Arrived(T.Begin(options, started), events));
            && AllButLast(frames, chosen)
            && |s.store.rows| == |frames| && s.store.images.Keys == Names(|frames|)
            && forall i :: 0 <= i < |frames| ==> RowHolds(codec, frames[i], i, s.store)
  {
    hide Arrived, Chosen, Leads, Inv, Names, W.Inv;
    OfferedExactly(codec, interval, queueSize, options, started, events, s);
    StartIsValid(codec, queueSize, options, started);
    LeadsKeepsInv(codec, interval, Start(queueSize, options, started), events, s);
    SavedAreOffered(codec, s);
    forall i | 0 <= i < |s.writer.saved| ensures RowHolds(codec, s.writer.saved[i], i, s.store) {
      assert RowMatches(codec, s.writer.saved[i], i, s.store);
      RowDescribes(codec, i + 1, s.writer.saved[i], s.store.images[D.Png(i + 1)]);
    }
  }

  /** Row `i` describes the frame and the file with its number. */
  ghost predicate RowHolds(codec: D.Codec, f: D.Frame, i: nat, store: D.Store) {
    && i < |store.rows| && D.Png(i + 1) in store.images
    && D.Describes(codec, f, store.images[D.Png(i + 1)], i + 1, store.rows[i])
  }

  lemma SavedAreOffered(codec: D.Codec, s: State)
    requires Inv(codec, s) && s.session.status.Complete? && s.failure.None?
    ensures s.writer.saved == Offered(s.writer) && StoreMatches(codec, s.writer.saved, s.store)
  {
    hide W.Inv, Ordered, Calibrated, StoreMatches;
    JoinedHasSavedAll(s.writer);
  }

  lemma RowDescribes(codec: D.Codec, index: int, f: D.Frame, data: D.Bytes)
    ensures D.Describes(codec, f, data, index, D.RowFor(codec, index, f, data))
  {
  }

  // ---------------------------------------------------------------- the calibration

  /** The first calibration message of a run. */
  function FirstInfo(events: seq<Event>): Option<CameraInfo> {
    if events == [] then None
    else if events[0].Info? then Some(events[0].message)
    else FirstInfo(events[1..])
  }

  /** What is on disk is the first message; while images are taken, it is there once one has come. */
  predicate KeepsFirst(s: State, first: Option<CameraInfo>) {
    && (s.cameraInfo.Some? ==> s.cameraInfo == first)
    && (s.infoSaved ==> s.cameraInfo.Some?)
    && (!Ending(s) && first.Some? ==> s.infoSaved)
  }

  lemma StepKeepsFirst(codec: D.Codec, interval: int, s: State, e: Event, first: Option<CameraInfo>)
    requires KeepsFirst(s, first) && Enabled(codec, s, e)
    ensures KeepsFirst(Next(codec, interval, s, e), if first.None? && e.Info? then Some(e.message) else first)
  {
    hide T.CaptureElapsed, W.Next, D.Save, ObserveInfo, ObserveImage, D.Eligible;
  }

  lemma {:induction false} LeadsKeepsFirst(codec: D.Codec, interval: int, s: State, events: seq<Event>, end: State,
                                          first: Option<CameraInfo>)
    requires KeepsFirst(s, first) && Leads(codec, interval, s, events, end)
    ensures KeepsFirst(end, if first.Some? then first else FirstInfo(events))
    decreases |events|
  {
    hide KeepsFirst, Next, Enabled;
    if events == [] {
    } else {
      var e := events[0];
      StepKeepsFirst(codec, interval, s, e, first);
      LeadsKeepsFirst(codec, interval, Next(codec, interval, s, e), events[1..], end,
                      if first.None? && e.Info? then Some(e.message) else first);
    }
  }

  /** The calibration on disk is the first message of the run, and while images are taken it is there as
      soon as there was one. */
  lemma CalibrationIsFirst(codec: D.Codec, interval: int, queueSize: nat, options: T.Options, started: real,
                           events: seq<Event>, s: State)
    requires Leads(codec, interval, Start(queueSize, options, started), events, s)
    ensures s.cameraInfo.Some? ==> s.cameraInfo == FirstInfo(events)
    ensures !s.done && s.stage.Spinning? ==> s.cameraInfo == FirstInfo(events)
  {
    LeadsKeepsFirst(codec, interval, Start(queueSize, options, started), events, s, None);
    hide Leads, FirstInfo;
  }

  // ---------------------------------------------------------------- the timer

  /** The timer ends the capture exactly if the simulation clock ran back, the writer has failed, no
      frame came within the timeout, or the duration after warm-up is over; only the second and third
      of these, the first, and a failing update leave an error. */
  lemma TimerExactly(s: State, r: T.Reading, update: Outcome)
    ensures var (clock, e) := T.CaptureElapsed(s.clock, r);
            var o, t := s.clock.options, AfterTimer(s, r, update);
            var late := o.noFrameTimeout > 0.0 && r.monotonic - s.clock.lastReceived > o.noFrameTimeout;
            var over := e.Since? && o.duration > 0.0 && e.seconds >= o.duration + o.warmup;
            && t.clock == clock
            && (t.done <==> s.done || e.ClockFails? || s.writer.error.Some? || late || over)
            && (t.stage == if update.Raised? && !e.ClockFails? then Stopping else s.stage)
            && t.error ==
                 if e.ClockFails? then ClockBackwards
                 else if update.Raised? then update.message
                 else if late then NoFrames
                 else if s.writer.error.Some? then WriterFailed(s.writer.error.value)
                 else s.error
  {
    hide W.Enabled, W.Next;
  }

  /** Queueing a frame ends the capture exactly if there is no room, or it is the first queued frame and
      the update that goes with it fails; once such an update has succeeded there is no further one. */
  lemma SubmitMeans(s: State, observed: nat, update: Outcome)
    requires W.Enabled(s.writer, W.Put(observed))
    ensures var t := AfterSubmit(s, observed, update);
            var full := |s.writer.queue| >= s.writer.capacity;
            && (t.done <==> s.done || full || (s.firstImage && update.Raised?))
            && (t.firstImage <==> s.firstImage && (full || update.Raised?))
            && t.error ==
                 if full then QueueFull
                 else if s.firstImage && update.Raised? then update.message
                 else s.error
  {
  }
}
