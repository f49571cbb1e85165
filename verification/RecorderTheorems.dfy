/** Whatever the recorder marks complete, the independent checker accepts. */
module RecorderTheorems {
  import opened Common
  import opened CameraContract
  import D = Dataset
  import W = ImageWriter
  import opened CheckDataset
  import opened Recorder
  import T = CaptureClock

  // ---------------------------------------------------------------- what every run keeps

  /** The frames that have passed the checks of submit and have not been turned away since. */
  function Offered(w: W.State): seq<D.Frame> {
    w.submitted + if w.pending.Some? then [w.pending.value] else []
  }

  predicate SelectedWasSeen(chooser: D.Selector) {
    chooser.lastSelected.Some? ==> chooser.lastSeen.Some? && chooser.lastSelected.value <= chooser.lastSeen.value
  }

  predicate NotAfter(f: D.Frame, last: Option<int>) {
    f.stamp > 0 && last.Some? && f.stamp <= last.value
  }

  predicate UpTo(frames: seq<D.Frame>, last: Option<int>) {
    forall i :: 0 <= i < |frames| ==> NotAfter(frames[i], last)
  }

  predicate InOrder(frames: seq<D.Frame>) {
    forall i, j :: 0 <= i < j < |frames| ==> frames[i].stamp < frames[j].stamp
  }

  predicate Ordered(frames: seq<D.Frame>, chooser: D.Selector) {
    SelectedWasSeen(chooser) && UpTo(frames, chooser.lastSelected) && InOrder(frames)
  }

  /** One camera and at most one calibration, and they fit together. */
  predicate Fitting(f: D.Frame, contract: Contract, info: Option<CameraInfo>) {
    && ValidImage(SignatureOf(f))
    && contract.image == Some(SignatureOf(f))
    && (info.Some? ==> Compatible(info.value, SignatureOf(f)))
  }

  ghost predicate Calibrated(frames: seq<D.Frame>, contract: Contract, info: Option<CameraInfo>) {
    && (info.Some? ==> |info.value.k| == 9 && ValidInfo(info.value) && contract.info == Some(Signature(info.value)))
    && forall i :: 0 <= i < |frames| ==> Fitting(frames[i], contract, info)
  }

  predicate RowMatches(codec: D.Codec, f: D.Frame, i: nat, store: D.Store)
    requires i < |store.rows|
  {
    && D.Png(i + 1) in store.images
    && var data := store.images[D.Png(i + 1)];
       && store.rows[i] == D.RowFor(codec, i + 1, f, data)
       && codec.decode(data) == Some(f.shape)
       && store.shape == Some(f.shape)
  }

  ghost predicate StoreMatches(codec: D.Codec, saved: seq<D.Frame>, store: D.Store) {
    && store.saved == |store.rows| == |saved|
    && store.images.Keys == Names(|saved|)
    && forall i :: 0 <= i < |saved| ==> RowMatches(codec, saved[i], i, store)
  }

  predicate StageAgrees(stage: Stage, phase: W.Phase) {
    match stage
    case Spinning => phase.Open?
    case Stopping => phase.Closing? || phase.Draining?
    case Closed => phase.Joined?
    case Finished => phase.Joined?
  }

  ghost predicate StatusSound(s: State) {
    && (s.stage.Closed? && s.writer.error.Some? ==> s.error != NO_ERROR)
    && (s.session.status.Complete? ==>
          && s.stage.Finished?
          && s.session.saved == s.store.saved
          && (s.failure.Some? || (s.writer.error.None? && s.store.saved > 0)))
  }

  ghost predicate Inv(codec: D.Codec, s: State) {
    && W.Inv(s.writer)
    && StageAgrees(s.stage, s.writer.phase)
    && Ordered(Offered(s.writer), s.chooser)
    && Calibrated(Offered(s.writer), s.contract, s.cameraInfo)
    && (s.writer.error.None? ==> StoreMatches(codec, s.writer.saved, s.store))
    && StatusSound(s)
  }

  // ---------------------------------------------------------------- the writer's part

  lemma CloseKeepsWriter(s: State)
    requires W.Inv(s.writer) && StageAgrees(s.stage, s.writer.phase) && s.stage.Spinning?
    ensures W.Inv(Close(s).writer) && StageAgrees(Close(s).stage, Close(s).writer.phase)
    ensures Offered(Close(s).writer) <= Offered(s.writer)
    ensures Close(s).writer.error == s.writer.error && Close(s).writer.saved == s.writer.saved
  {
    hide W.Inv;
    if W.Enabled(s.writer, W.Abandon) {
      W.StepKeepsInv(s.writer, W.Abandon);
    }
    var w := if W.Enabled(s.writer, W.Abandon) then W.Next(s.writer, W.Abandon).0 else s.writer;
    W.StepKeepsInv(w, W.BeginClose);
  }

  /** Only the worker changes what is saved, only submit what has been offered. */
  lemma WriterStep(w: W.State, e: W.Event)
    requires W.Inv(w) && W.Enabled(w, e)
    ensures W.Inv(W.Next(w, e).0)
    ensures !e.Finish? ==> W.Next(w, e).0.error == w.error && W.Next(w, e).0.saved == w.saved
    ensures !e.Offer? ==> Offered(W.Next(w, e).0) <= Offered(w)
    ensures e.Offer? ==> Offered(W.Next(w, e).0) ==
                           if W.Next(w, e).1.Returned? then Offered(w) + [e.frame] else Offered(w)
    ensures e in {W.Get, W.PutSentinel} || e.Finish? ==> Offered(W.Next(w, e).0) == Offered(w)
    ensures e.Put? || e.Get? || e.Finish? || e.Offer? ==> W.Next(w, e).0.phase == w.phase
  {
    hide W.Inv, W.Frames;
    W.StepKeepsInv(w, e);
  }

  lemma OrderedPrefix(frames: seq<D.Frame>, fewer: seq<D.Frame>, chooser: D.Selector)
    requires Ordered(frames, chooser) && fewer <= frames
    ensures Ordered(fewer, chooser)
  {
    PrefixUpTo(frames, |fewer|, chooser.lastSelected);
    PrefixInOrder(frames, |fewer|);
    hide UpTo, InOrder;
    assert fewer == frames[..|fewer|];
  }

  lemma PrefixUpTo(frames: seq<D.Frame>, n: nat, last: Option<int>)
    requires UpTo(frames, last) && n <= |frames|
    ensures UpTo(frames[..n], last)
  {
    hide NotAfter;
    forall i | 0 <= i < n ensures NotAfter(frames[..n][i], last) {
      assert NotAfter(frames[i], last);
    }
  }

  lemma PrefixInOrder(frames: seq<D.Frame>, n: nat)
    requires InOrder(frames) && n <= |frames|
    ensures InOrder(frames[..n])
  {
    forall i, j | 0 <= i < j < n ensures frames[..n][i].stamp < frames[..n][j].stamp {
      assert frames[i].stamp < frames[j].stamp;
    }
  }

  lemma CalibratedPrefix(frames: seq<D.Frame>, fewer: seq<D.Frame>, contract: Contract, info: Option<CameraInfo>)
    requires Calibrated(frames, contract, info) && fewer <= frames
    ensures Calibrated(fewer, contract, info)
  {
    hide Fitting;
    assert forall i :: 0 <= i < |fewer| ==> fewer[i] == frames[i];
  }

  // ---------------------------------------------------------------- saving

  lemma SaveKeepsStore(codec: D.Codec, saved: seq<D.Frame>, store: D.Store, f: D.Frame, e: D.Effort)
    requires StoreMatches(codec, saved, store) && Faithful(codec, f, e)
    requires D.Save(codec, store, f, e).1.Returned?
    ensures StoreMatches(codec, saved + [f], D.Save(codec, store, f, e).0)
  {
    hide D.RowFor;
    var after := D.Save(codec, store, f, e).0;
    var n := |saved|;
    NamesGrow(n);
    assert D.Png(n + 1) !in store.images;
    forall i | 0 <= i < n + 1 ensures RowMatches(codec, (saved + [f])[i], i, after) {
      if i < n {
        assert RowMatches(codec, saved[i], i, store);
        assert after.rows[i] == store.rows[i];
      }
    }
  }

  // ---------------------------------------------------------------- the callbacks

  /** How the chooser moves: never back, and past everything selected so far when it selects. */
  lemma EligibleMoves(interval: int, chooser: D.Selector, stamp: int)
    requires interval >= 1
    requires chooser.lastSelected.Some? ==>
               chooser.lastSeen.Some? && chooser.lastSelected.value <= chooser.lastSeen.value
    ensures var (after, v) := D.Eligible(interval, chooser, stamp);
            && (after.lastSelected.Some? ==> after.lastSeen.Some? && after.lastSelected.value <= after.lastSeen.value)
            && (if v.Selected?
                then stamp > 0 && after.lastSelected == Some(stamp)
                     && (chooser.lastSelected.Some? ==> chooser.lastSelected.value < stamp)
                else after.lastSelected == chooser.lastSelected)
  {
  }

  lemma SelectedIsNewer(interval: int, chooser: D.Selector, frames: seq<D.Frame>, f: D.Frame)
    requires Ordered(frames, chooser) && interval >= 1
    ensures var (after, v) := D.Eligible(interval, chooser, f.stamp);
            && Ordered(frames, after)
            && (v.Selected? ==> Ordered(frames + [f], after))
  {
    hide D.Eligible;
    EligibleMoves(interval, chooser, f.stamp);
    var (after, v) := D.Eligible(interval, chooser, f.stamp);
    if v.Selected? {
      OrderedGrows(frames, chooser, f, after);
    } else {
      OrderedStays(frames, chooser, after);
    }
  }

  lemma OrderedStays(frames: seq<D.Frame>, chooser: D.Selector, after: D.Selector)
    requires Ordered(frames, chooser) && after.lastSelected == chooser.lastSelected
    requires after.lastSelected.Some? ==> after.lastSeen.Some? && after.lastSelected.value <= after.lastSeen.value
    ensures Ordered(frames, after)
  {
    hide UpTo, InOrder;
  }

  lemma OrderedGrows(frames: seq<D.Frame>, chooser: D.Selector, f: D.Frame, after: D.Selector)
    requires Ordered(frames, chooser) && f.stamp > 0 && after.lastSelected == Some(f.stamp)
    requires chooser.lastSelected.Some? ==> chooser.lastSelected.value < f.stamp
    requires after.lastSeen.Some? && f.stamp <= after.lastSeen.value
    ensures Ordered(frames, after) && Ordered(frames + [f], after)
  {
    var more := frames + [f];
    assert more[|frames|] == f;
    assert forall i :: 0 <= i < |frames| ==> more[i] == frames[i] && frames[i].stamp < f.stamp;
  }

  lemma ImageKeepsCalibrated(frames: seq<D.Frame>, contract: Contract, info: Option<CameraInfo>, s: ImageSignature)
    requires Calibrated(frames, contract, info)
    ensures Calibrated(frames, ObserveImage(contract, s).0, info)
  {
    hide ValidImage, ValidInfo, Compatible;
    var after := ObserveImage(contract, s).0;
    forall i | 0 <= i < |frames| ensures Fitting(frames[i], after, info) {
      assert Fitting(frames[i], contract, info);
    }
  }

  lemma AcceptedImageFits(frames: seq<D.Frame>, contract: Contract, info: Option<CameraInfo>, f: D.Frame)
    requires Calibrated(frames, contract, info)
    requires ObserveImage(contract, SignatureOf(f)).1.Returned?
    ensures Calibrated(frames + [f], ObserveImage(contract, SignatureOf(f)).0, info)
  {
    hide ValidInfo;
    var s := SignatureOf(f);
    var after := ObserveImage(contract, s).0;
    ImageKeepsCalibrated(frames, contract, info, s);
    if info.Some? {
      CompatibleIgnoresStamp(info.value, s);
    }
    assert Fitting(f, after, info);
    hide Fitting, ObserveImage;
    var more := frames + [f];
    assert more[|frames|] == f;
    assert forall i :: 0 <= i < |frames| ==> more[i] == frames[i];
  }

  lemma InfoKeepsCalibrated(frames: seq<D.Frame>, contract: Contract, info: Option<CameraInfo>, message: CameraInfo)
    requires Calibrated(frames, contract, info) && |message.k| == 9
    ensures Calibrated(frames, ObserveInfo(contract, message).0, info)
  {
    hide ValidImage, AllFinite, Compatible;
    var after := ObserveInfo(contract, message).0;
    assert after.image == contract.image;
    hide ObserveInfo;
    forall i | 0 <= i < |frames| ensures Fitting(frames[i], after, info) {
      assert Fitting(frames[i], contract, info);
    }
  }

  lemma AcceptedInfoFits(frames: seq<D.Frame>, contract: Contract, info: Option<CameraInfo>, message: CameraInfo)
    requires Calibrated(frames, contract, info) && |message.k| == 9
    requires ObserveInfo(contract, message).1.Returned?
    ensures Calibrated(frames, ObserveInfo(contract, message).0, Some(message))
  {
    hide ValidImage, AllFinite;
    var after := ObserveInfo(contract, message).0;
    assert after.image == contract.image && after.info == Some(Signature(message));
    assert CheckPair(after).Returned? && ValidInfo(message);
    hide ObserveInfo, ValidInfo;
    forall i | 0 <= i < |frames| ensures Fitting(frames[i], after, Some(message)) {
      assert Fitting(frames[i], contract, info);
      CompatibleIgnoresStamp(message, SignatureOf(frames[i]));
    }
  }

  // ---------------------------------------------------------------- every event

  lemma InfoKeepsInv(codec: D.Codec, s: State, message: CameraInfo, io: InfoIO)
    requires Inv(codec, s) && s.stage.Spinning? && |message.k| == 9
    ensures Inv(codec, AfterInfo(s, message, io))
  {
    hide W.Inv, Ordered, Calibrated, StoreMatches, ObserveInfo, StageAgrees;
    var frames := Offered(s.writer);
    InfoKeepsCalibrated(frames, s.contract, s.cameraInfo, message);
    if ObserveInfo(s.contract, message).1.Returned? {
      AcceptedInfoFits(frames, s.contract, s.cameraInfo, message);
    }
  }

  lemma ClockKeepsInv(codec: D.Codec, s: State, clock: T.Clock)
    requires Inv(codec, s)
    ensures Inv(codec, s.(clock := clock))
  {
    hide W.Inv, Ordered, Calibrated, StoreMatches, Offered, StageAgrees;
  }

  lemma FailKeepsInv(codec: D.Codec, s: State, message: Message)
    requires Inv(codec, s) && s.stage.Spinning?
    ensures Inv(codec, Fail(s, message))
  {
    hide W.Inv, Ordered, Calibrated, StoreMatches, Offered, StageAgrees;
  }

  lemma ImageKeepsInv(codec: D.Codec, interval: int, s: State, m: ImageMessage, r: T.Reading, receivedNs: int)
    requires interval >= 1 && Inv(codec, s) && s.stage.Spinning? && s.writer.pending.None?
    ensures Inv(codec, AfterImage(interval, s, m, r, receivedNs))
  {
    hide Inv, AcceptImage, Fail, T.CaptureElapsed;
    var (clock, elapsed) := T.CaptureElapsed(s.clock.(lastReceived := r.monotonic), r);
    ClockKeepsInv(codec, s, clock);
    FailKeepsInv(codec, s.(clock := clock), ClockBackwards);
    AcceptKeepsInv(codec, interval, s.(clock := clock), m, receivedNs);
  }

  lemma AcceptKeepsInv(codec: D.Codec, interval: int, s: State, m: ImageMessage, receivedNs: int)
    requires interval >= 1 && Inv(codec, s) && s.stage.Spinning? && s.writer.pending.None?
    ensures Inv(codec, AcceptImage(interval, s, m, receivedNs))
  {
    hide W.Inv, Ordered, Calibrated, StoreMatches, ObserveImage, StageAgrees, D.Eligible, Offered;
    var frames, f := Offered(s.writer), FrameOf(m, receivedNs);
    ImageKeepsCalibrated(frames, s.contract, s.cameraInfo, SignatureOf(f));
    SelectedIsNewer(interval, s.chooser, frames, f);
    WriterStep(s.writer, W.Offer(f));
    if ObserveImage(s.contract, SignatureOf(f)).1.Returned? {
      AcceptedImageFits(frames, s.contract, s.cameraInfo, f);
    }
  }

  /** A step of the writer alone that saves nothing. */
  lemma WriterStepKeepsInv(codec: D.Codec, s: State, e: W.Event)
    requires Inv(codec, s) && W.Enabled(s.writer, e) && !e.Finish? && !e.Offer?
    ensures W.Inv(W.Next(s.writer, e).0)
    ensures Ordered(Offered(W.Next(s.writer, e).0), s.chooser)
    ensures Calibrated(Offered(W.Next(s.writer, e).0), s.contract, s.cameraInfo)
    ensures var w := W.Next(s.writer, e).0; w.error.None? ==> StoreMatches(codec, w.saved, s.store)
  {
    hide W.Inv, Ordered, Calibrated, StoreMatches, W.Next, Offered;
    WriterStep(s.writer, e);
    var fewer := Offered(W.Next(s.writer, e).0);
    OrderedPrefix(Offered(s.writer), fewer, s.chooser);
    CalibratedPrefix(Offered(s.writer), fewer, s.contract, s.cameraInfo);
  }

  lemma SubmitKeepsInv(codec: D.Codec, s: State, observed: nat, update: Outcome)
    requires Inv(codec, s) && s.stage.Spinning? && W.Enabled(s.writer, W.Put(observed))
    ensures Inv(codec, AfterSubmit(s, observed, update))
  {
    hide W.Inv, Ordered, Calibrated, StoreMatches, W.Next, Offered;
    WriterStepKeepsInv(codec, s, W.Put(observed));
    WriterStep(s.writer, W.Put(observed));
  }

  lemma CloseKeepsInv(codec: D.Codec, s: State)
    requires Inv(codec, s) && s.stage.Spinning?
    ensures Inv(codec, Close(s))
  {
    hide W.Inv, Ordered, Calibrated, StoreMatches, W.Next, Offered;
    CloseKeepsWriter(s);
    OrderedPrefix(Offered(s.writer), Offered(Close(s).writer), s.chooser);
    CalibratedPrefix(Offered(s.writer), Offered(Close(s).writer), s.contract, s.cameraInfo);
  }

  lemma TimerKeepsInv(codec: D.Codec, s: State, r: T.Reading, update: Outcome)
    requires Inv(codec, s) && s.stage.Spinning?
    ensures Inv(codec, AfterTimer(s, r, update))
  {
    hide W.Inv, Ordered, Calibrated, StoreMatches, Close, Offered, T.CaptureElapsed, T.TimedOut, T.DurationOver;
    var t := AfterTimer(s, r, Returned);
    assert Inv(codec, t);
    assert Inv(codec, t.(error := if update.Raised? then update.message else t.error));
    CloseKeepsInv(codec, t.(error := if update.Raised? then update.message else t.error));
  }

  lemma SavingKeepsInv(codec: D.Codec, s: State, effort: D.Effort)
    requires Inv(codec, s) && s.writer.worker.Saving? && Faithful(codec, s.writer.worker.frame, effort)
    ensures var (store, o) := D.Save(codec, s.store, s.writer.worker.frame, effort);
            Inv(codec, s.(store := store, writer := W.Next(s.writer, W.Finish(o)).0))
  {
    hide Ordered, Calibrated, StoreMatches, D.Save, Offered, StageAgrees;
    var (store, o) := D.Save(codec, s.store, s.writer.worker.frame, effort);
    WorkerIsRunning(s.writer);
    hide W.Inv;
    WriterStep(s.writer, W.Finish(o));
    if s.writer.error.None? && o.Returned? {
      SaveKeepsStore(codec, s.writer.saved, s.store, s.writer.worker.frame, effort);
    }
    StillRunning(s.stage, s.writer.phase);
  }

  lemma WorkerIsRunning(w: W.State)
    requires W.Inv(w) && w.worker.Saving?
    ensures !w.phase.Joined? && w.error.None?
  {
  }

  lemma StillRunning(stage: Stage, phase: W.Phase)
    requires StageAgrees(stage, phase) && !phase.Joined?
    ensures stage.Spinning? || stage.Stopping?
  {
  }

  /** The closing steps: the sentinel, and joining the worker. */
  lemma ClosingKeepsInv(codec: D.Codec, interval: int, s: State, e: Event)
    requires Inv(codec, s) && Enabled(codec, s, e) && (e.PutSentinel? || e.WriterJoined?)
    ensures Inv(codec, Next(codec, interval, s, e))
  {
    hide W.Inv, Ordered, Calibrated, StoreMatches, Offered;
    var step := if e.PutSentinel? then W.PutSentinel else W.Join;
    WriterStepKeepsInv(codec, s, step);
    WriterStep(s.writer, step);
  }

  /** Finishing, and the failure file of another process. */
  lemma FinishKeepsInv(codec: D.Codec, s: State, update: Outcome)
    requires Inv(codec, s) && s.stage.Closed?
    ensures Inv(codec, AfterFinish(s, update))
  {
    hide W.Inv, Ordered, Calibrated, StoreMatches, Offered;
  }

  lemma StepKeepsInv(codec: D.Codec, interval: int, s: State, e: Event)
    requires interval >= 1 && Inv(codec, s) && Enabled(codec, s, e)
    ensures Inv(codec, Next(codec, interval, s, e))
  {
    hide Inv, AfterInfo, AfterImage, AfterSubmit, AfterTimer, AfterFinish, Close, Faithful, D.Save, W.Next, W.Enabled;
    match e
    case Info(message, io) => InfoKeepsInv(codec, s, message, io);
    case Image(m, reading, receivedNs) => ImageKeepsInv(codec, interval, s, m, reading, receivedNs);
    case Submit(observed, update) => SubmitKeepsInv(codec, s, observed, update);
    case Timer(reading, update) => TimerKeepsInv(codec, s, reading, update);
    case SpinRaises(error) => ErrorKeepsInv(codec, s, error); CloseKeepsInv(codec, s.(error := error));
    case Stop => CloseKeepsInv(codec, s);
    case WorkerTakes => TakingKeepsInv(codec, s);
    case WorkerSaves(effort) => SavingKeepsInv(codec, s, effort);
    case ConversionFails(error) => FailingKeepsInv(codec, s, error);
    case PutSentinel => ClosingKeepsInv(codec, interval, s, e);
    case WriterJoined => ClosingKeepsInv(codec, interval, s, e);
    case FailureFile(text) => FailureFileKeepsInv(codec, s, text);
    case Finish(update) => FinishKeepsInv(codec, s, update);
  }

  lemma ErrorKeepsInv(codec: D.Codec, s: State, error: Message)
    requires Inv(codec, s) && s.stage.Spinning?
    ensures Inv(codec, s.(error := error))
  {
  }

  lemma FailureFileKeepsInv(codec: D.Codec, s: State, text: string)
    requires Inv(codec, s)
    ensures Inv(codec, s.(failure := Some(text)))
  {
  }

  lemma TakingKeepsInv(codec: D.Codec, s: State)
    requires Inv(codec, s) && W.Enabled(s.writer, W.Get)
    ensures Inv(codec, s.(writer := W.Next(s.writer, W.Get).0))
  {
    hide W.Inv, Ordered, Calibrated, StoreMatches, Offered;
    WriterStepKeepsInv(codec, s, W.Get);
    WriterStep(s.writer, W.Get);
  }

  lemma FailingKeepsInv(codec: D.Codec, s: State, error: Message)
    requires Inv(codec, s) && s.writer.worker.Saving?
    ensures Inv(codec, s.(writer := W.Next(s.writer, W.Finish(Raised(error))).0))
  {
    hide Ordered, Calibrated, StoreMatches, Offered, StageAgrees;
    WorkerIsRunning(s.writer);
    hide W.Inv;
    WriterStep(s.writer, W.Finish(Raised(error)));
    StillRunning(s.stage, s.writer.phase);
  }

  lemma StartIsValid(codec: D.Codec, queueSize: nat, options: T.Options, started: real)
    requires queueSize >= 1
    ensures Inv(codec, Start(queueSize, options, started))
  {
    W.StartIsValid(queueSize);
    hide W.Inv;
  }

  lemma {:induction false} LeadsKeepsInv(codec: D.Codec, interval: int, s: State, events: seq<Event>, end: State)
    requires interval >= 1 && Inv(codec, s) && Leads(codec, interval, s, events, end)
    ensures Inv(codec, end)
    decreases |events|
  {
    hide Inv, Next, Enabled;
    if events == [] {
    } else {
      StepKeepsInv(codec, interval, s, events[0]);
      LeadsKeepsInv(codec, interval, Next(codec, interval, s, events[0]), events[1..], end);
    }
  }

  // ---------------------------------------------------------------- what the checker sees

  /** The row of a saved frame passes the checks made on one row. */
  lemma SavedRowFits(codec: D.Codec, d: Directory, saved: seq<D.Frame>, store: D.Store, chooser: D.Selector, i: nat)
    requires StoreMatches(codec, saved, store) && Ordered(saved, chooser) && i < |saved|
    requires d.rows == store.rows && d.images == store.images
    ensures RowFits(codec, d, i)
  {
    assert RowMatches(codec, saved[i], i, store);
    assert RowMatches(codec, saved[0], 0, store);
    if i > 0 {
      assert RowMatches(codec, saved[i - 1], i - 1, store);
      assert saved[i - 1].stamp < saved[i].stamp;
    }
    SplitRecombines(saved[i].stamp);
    hide Ordered, StoreMatches;
  }

  lemma SplitRecombines(stamp: int)
    ensures stamp / D.NANOSECONDS * D.NANOSECONDS + stamp % D.NANOSECONDS == stamp
  {
  }

  /** Every observation the checker makes is of the one camera or of the one calibration. */
  predicate OfOneCamera(o: Observation, s: ImageSignature, info: Option<CameraInfo>) {
    match o
    case SawImage(t) => t == s
    case SawInfo(i) => info == Some(i)
  }

  lemma {:induction false} ObservedOneCamera(codec: D.Codec, d: Directory, saved: seq<D.Frame>, store: D.Store,
                                            contract: Contract, n: nat, k: nat)
    requires StoreMatches(codec, saved, store) && Calibrated(saved, contract, d.cameraInfo)
    requires d.rows == store.rows && n <= |saved| && contract.image.Some?
    requires k < |Observed(d, n)|
    ensures OfOneCamera(Observed(d, n)[k], contract.image.value, d.cameraInfo)
  {
    hide ValidImage, ValidInfo, Compatible;
    if n == 0 {
    } else {
      if k < |Observed(d, n - 1)| {
        ObservedOneCamera(codec, d, saved, store, contract, n - 1, k);
      } else {
        assert RowMatches(codec, saved[n - 1], n - 1, store);
        assert Fitting(saved[n - 1], contract, d.cameraInfo);
      }
    }
  }

  lemma OneCameraIsConsistent(obs: seq<Observation>, s: ImageSignature, info: Option<CameraInfo>)
    requires ValidImage(s) && (info.Some? ==> ValidInfo(info.value) && Compatible(info.value, s))
    requires forall k :: 0 <= k < |obs| ==> OfOneCamera(obs[k], s, info)
    ensures Consistent(obs)
  {
    ProperImage(s);
    if info.Some? {
      ProperInfo(info.value);
      SameCameraFits(info.value, s);
    }
    hide ValidImage, ValidInfo, Compatible, Proper, SameCamera;
    forall i | 0 <= i < |obs| ensures Proper(obs[i]) {
      assert OfOneCamera(obs[i], s, info);
    }
    forall i, j | 0 <= i < |obs| && 0 <= j < |obs| ensures Agree(obs[i], obs[j]) {
      assert OfOneCamera(obs[i], s, info) && OfOneCamera(obs[j], s, info);
    }
  }

  lemma SavedIsConsistent(codec: D.Codec, d: Directory, saved: seq<D.Frame>, store: D.Store, contract: Contract)
    requires StoreMatches(codec, saved, store) && Calibrated(saved, contract, d.cameraInfo)
    requires d.rows == store.rows && saved != []
    ensures Consistent(Observed(d, |saved|))
  {
    hide Consistent, ValidImage, ValidInfo, Compatible, Observed, RowMatches;
    assert Fitting(saved[0], contract, d.cameraInfo);
    var obs := Observed(d, |saved|);
    forall k | 0 <= k < |obs| ensures OfOneCamera(obs[k], contract.image.value, d.cameraInfo) {
      ObservedOneCamera(codec, d, saved, store, contract, |saved|, k);
    }
    OneCameraIsConsistent(obs, contract.image.value, d.cameraInfo);
  }

  lemma JoinedHasSavedAll(w: W.State)
    requires W.Inv(w) && w.phase.Joined? && w.error.None?
    ensures w.saved == w.submitted == Offered(w)
  {
  }

  lemma CompleteIsAcceptable(codec: D.Codec, s: State)
    requires Inv(codec, s) && s.session.status.Complete? && s.failure.None?
    ensures Acceptable(codec, Files(s))
  {
    hide W.Inv, Consistent, RowFits, Observed, Ordered, Calibrated, Names, RowMatches;
    var d, saved := Files(s), s.writer.saved;
    JoinedHasSavedAll(s.writer);
    forall i | 0 <= i < |saved| ensures RowFits(codec, d, i) {
      SavedRowFits(codec, d, saved, s.store, s.chooser, i);
    }
    SavedIsConsistent(codec, d, saved, s.store, s.contract);
  }

  /** Any run, in any interleaving of the callbacks and the writer thread, that ends with the session
      marked complete leaves a directory the checker accepts, unless another process has reported a
      failure. */
  lemma CompleteExactlyAccepted(codec: D.Codec, interval: int, queueSize: nat, options: T.Options, started: real,
                                events: seq<Event>, s: State)
    requires interval >= 1 && queueSize >= 1 && Leads(codec, interval, Start(queueSize, options, started), events, s)
    ensures s.session.status.Complete? ==> (Acceptable(codec, Files(s)) <==> s.failure.None?)
    ensures !s.session.status.Complete? ==> !Acceptable(codec, Files(s))
  {
    hide Inv, Consistent, RowsFit, Observed;
    StartIsValid(codec, queueSize, options, started);
    LeadsKeepsInv(codec, interval, Start(queueSize, options, started), events, s);
    if s.session.status.Complete? && s.failure.None? {
      CompleteIsAcceptable(codec, s);
    }
  }

  /** Recorder and checker agree on a run that has just finished, except when images were saved and
      the failure file is there but empty: its text then counts as no error. */
  lemma VerdictsAgreeExactly(codec: D.Codec, interval: int, queueSize: nat, options: T.Options, started: real,
                                events: seq<Event>, s: State)
    requires interval >= 1 && queueSize >= 1 && Leads(codec, interval, Start(queueSize, options, started), events, s)
    requires Enabled(codec, s, Finish(Returned))
    ensures var after := Next(codec, interval, s, Finish(Returned));
            (after.session.status.Complete? <==> Acceptable(codec, Files(after)))
            <==> !(s.failure == Some("") && s.store.saved > 0)
  {
    hide Inv, Consistent, RowsFit, Observed, W.Enabled;
    StartIsValid(codec, queueSize, options, started);
    LeadsKeepsInv(codec, interval, Start(queueSize, options, started), events, s);
    FinishKeepsInv(codec, s, Returned);
    var after := AfterFinish(s, Returned);
    if after.session.status.Complete? && after.failure.None? {
      CompleteIsAcceptable(codec, after);
    }
  }
}
