/** The live recorder: receive callbacks, a timer and the writer thread over one dataset. */
module Recorder {
  import opened Common
  import opened CameraContract
  import D = Dataset
  import W = ImageWriter
  import opened CheckDataset
  import T = CaptureClock

  datatype Stage = Spinning | Stopping | Closed | Finished

  /** `error` is the Python attribute: None and the empty string both mean no error. `failure` is the
      text of capture_failure.json, which other processes may write at any time. */
  datatype State = State(
    chooser: D.Selector, store: D.Store, writer: W.State, contract: Contract,
    done: bool, error: Message, infoSaved: bool, firstImage: bool, stage: Stage,
    cameraInfo: Option<CameraInfo>, failure: Option<string>, session: Session, clock: T.Clock)

  const NO_ERROR := Text("")

  function Start(queueSize: nat, options: T.Options, started: real): State {
    State(D.UNSEEN, D.EMPTY, W.Start(queueSize), FRESH, false, NO_ERROR, false, true, Spinning,
          None, None, Session(Recording, 0), T.Begin(options, started))
  }

  datatype ImageMessage = ImageMessage(width: int, height: int, encoding: string, frameId: string, stamp: int)

  /** Writing the calibration can fail before the file is in place, or after. */
  datatype InfoIO = InfoWritten | InfoNotWritten(message: Message) | InfoNotRecorded(message: Message)

  datatype Event =
    | Info(message: CameraInfo, io: InfoIO)
    | Image(image: ImageMessage, reading: T.Reading, receivedNs: int)
    | Submit(observed: nat, update: Outcome)
    | Timer(reading: T.Reading, update: Outcome)
    | SpinRaises(error: Message)
    | Stop
    | WorkerTakes
    | WorkerSaves(effort: D.Effort)
    | ConversionFails(error: Message)
    | PutSentinel
    | WriterJoined
    | FailureFile(text: string)
    | Finish(update: Outcome)

  function Fail(s: State, message: Message): State {
    s.(error := message, done := true)
  }

  /** The frame that will be saved for a message: conversion to bgr8 keeps the size. */
  function FrameOf(m: ImageMessage, receivedNs: int): D.Frame {
    D.Frame(D.Shape(m.height, m.width), m.stamp, receivedNs, m.frameId, m.encoding)
  }

  function SignatureOf(f: D.Frame): ImageSignature {
    ImageSignature(f.shape.width, f.shape.height, f.encoding, f.frameId)
  }

  /** A PNG that has been encoded decodes to the frame's shape. */
  predicate Faithful(codec: D.Codec, f: D.Frame, e: D.Effort) {
    e.Succeeds? ==> codec.decode(e.encoded) == Some(f.shape)
  }

  predicate Enabled(codec: D.Codec, s: State, e: Event) {
    match e
    case Info(message, _) => s.stage.Spinning? && !s.done && s.writer.pending.None? && |message.k| == 9
    case Image(_, _, _) => s.stage.Spinning? && !s.done && s.writer.pending.None?
    case Submit(observed, _) => s.stage.Spinning? && W.Enabled(s.writer, W.Put(observed))
    case Timer(_, _) => s.stage.Spinning? && !s.done && s.writer.pending.None?
    case SpinRaises(_) => s.stage.Spinning?
    case Stop => s.stage.Spinning?
    case WorkerTakes => W.Enabled(s.writer, W.Get)
    case WorkerSaves(effort) => s.writer.worker.Saving? && Faithful(codec, s.writer.worker.frame, effort)
    case ConversionFails(_) => s.writer.worker.Saving?
    case PutSentinel => W.Enabled(s.writer, W.PutSentinel)
    case WriterJoined => W.Enabled(s.writer, W.Join)
    case FailureFile(_) => true
    case Finish(_) => s.stage.Closed?
  }

  function AfterInfo(s: State, message: CameraInfo, io: InfoIO): State
    requires |message.k| == 9
  {
    var (contract, o) := ObserveInfo(s.contract, message);
    var t := s.(contract := contract);
    if o.Raised? then Fail(t, o.message)
    else if t.infoSaved then t
    else match io
      case InfoNotWritten(text) => Fail(t, text)
      case InfoNotRecorded(text) => Fail(t.(cameraInfo := Some(message)), text)
      case InfoWritten => t.(cameraInfo := Some(message), infoSaved := true)
  }

  /** The image callback up to and including the checks of submit. */
  function AfterImage(interval: int, s: State, m: ImageMessage, r: T.Reading, receivedNs: int): State
    requires s.writer.pending.None?
  {
    var (clock, elapsed) := T.CaptureElapsed(s.clock.(lastReceived := r.monotonic), r);
    var t := s.(clock := clock);
    if elapsed.ClockFails? then Fail(t, ClockBackwards)
    else if elapsed.NotStarted? || elapsed.seconds < clock.options.warmup then t
    else AcceptImage(interval, t, m, receivedNs)
  }

  function AcceptImage(interval: int, s: State, m: ImageMessage, receivedNs: int): State
    requires s.writer.pending.None?
  {
    var (contract, o) := ObserveImage(s.contract, ImageSignature(m.width, m.height, m.encoding, m.frameId));
    var t := s.(contract := contract);
    if o.Raised? then Fail(t, o.message)
    else if s.clock.options.simulated && m.stamp == 0 then t
    else
      var (chooser, v) := D.Eligible(interval, t.chooser, m.stamp);
      var u := t.(chooser := chooser);
      match v
      case Refused(text) => Fail(u, text)
      case Skipped => u
      case Selected =>
        var (writer, accepted) := W.Next(u.writer, W.Offer(FrameOf(m, receivedNs)));
        var w := u.(writer := writer);
        if accepted.Raised? then Fail(w, accepted.message) else w
  }

  /** The rest of the image callback. */
  function AfterSubmit(s: State, observed: nat, update: Outcome): State
    requires W.Enabled(s.writer, W.Put(observed))
  {
    var (writer, o) := W.Next(s.writer, W.Put(observed));
    var t := s.(writer := writer);
    if o.Raised? then Fail(t, o.message)
    else if !t.firstImage then t
    else if update.Raised? then Fail(t, update.message)
    else t.(firstImage := false)
  }

  function Close(s: State): State {
    var w := if W.Enabled(s.writer, W.Abandon) then W.Next(s.writer, W.Abandon).0 else s.writer;
    s.(stage := Stopping, writer := if W.Enabled(w, W.BeginClose) then W.Next(w, W.BeginClose).0 else w)
  }

  function AfterTimer(s: State, r: T.Reading, update: Outcome): State {
    var (clock, elapsed) := T.CaptureElapsed(s.clock, r);
    var c := s.(clock := clock);
    if elapsed.ClockFails? then Fail(c, ClockBackwards)
    else
      var t := if c.writer.error.Some? then Fail(c, WriterFailed(c.writer.error.value)) else c;
      var u := if T.TimedOut(clock, r) then Fail(t, NoFrames) else t;
      var v := if T.DurationOver(clock, elapsed) then u.(done := true) else u;
      if update.Raised? then Close(v.(error := update.message)) else v
  }

  function AfterFinish(s: State, update: Outcome): State {
    var t := if s.failure.Some? then s.(error := Text(s.failure.value)) else s;
    var u := if t.store.saved == 0 && t.error == NO_ERROR then t.(error := NothingSaved) else t;
    var status := if u.error == NO_ERROR then Complete else Failed;
    u.(stage := Finished, session := if update.Returned? then Session(status, u.store.saved) else u.session)
  }

  function Next(codec: D.Codec, interval: int, s: State, e: Event): State
    requires Enabled(codec, s, e)
  {
    match e
    case Info(message, io) => AfterInfo(s, message, io)
    case Image(m, reading, receivedNs) => AfterImage(interval, s, m, reading, receivedNs)
    case Submit(observed, update) => AfterSubmit(s, observed, update)
    case Timer(reading, update) => AfterTimer(s, reading, update)
    case SpinRaises(text) => Close(s.(error := text))
    case Stop => Close(s)
    case WorkerTakes => s.(writer := W.Next(s.writer, W.Get).0)
    case WorkerSaves(effort) =>
      var (store, o) := D.Save(codec, s.store, s.writer.worker.frame, effort);
      s.(store := store, writer := W.Next(s.writer, W.Finish(o)).0)
    case ConversionFails(text) => s.(writer := W.Next(s.writer, W.Finish(Raised(text))).0)
    case PutSentinel => s.(writer := W.Next(s.writer, W.PutSentinel).0)
    case WriterJoined =>
      var (writer, o) := W.Next(s.writer, W.Join);
      s.(writer := writer, stage := Closed, error := if o.Raised? then o.message else s.error)
    case FailureFile(text) => s.(failure := Some(text))
    case Finish(update) => AfterFinish(s, update)
  }

  // ---------------------------------------------------------------- the node

  class Recorder {
    const dataset: D.Dataset
    const contract: CameraContract
    const writer: W.ImageWriter
    var error: Message
    var done: bool
    var infoSaved: bool
    var firstImage: bool
    var stage: Stage
    var cameraInfo: Option<CameraInfo>
    var failure: Option<string>
    var session: Session
    var clock: T.Clock

    ghost function View(): State
      reads this, dataset, contract, writer
    {
      State(dataset.Choice(), dataset.Stored(), writer.View(), contract.View(),
            done, error, infoSaved, firstImage, stage, cameraInfo, failure, session, clock)
    }

    constructor (period: int, codec: D.Codec, queueSize: nat, options: T.Options, started: real)
      requires queueSize >= 1
      ensures fresh(dataset) && fresh(contract) && fresh(writer)
      ensures View() == Start(queueSize, options, started)
      ensures dataset.interval >= 1 && dataset.codec == codec
    {
      dataset := new D.Dataset(period, codec);
      contract := new CameraContract();
      writer := new W.ImageWriter(queueSize);
      error, done, infoSaved, firstImage := NO_ERROR, false, false, true;
      stage, cameraInfo, failure, session := Spinning, None, None, Session(Recording, 0);
      clock := T.Begin(options, started);
    }

    method FailWith(message: Message)
      modifies this
      ensures View() == Fail(old(View()), message)
    {
      error := message;
      done := true;
    }

    method OnInfo(message: CameraInfo, io: InfoIO)
      requires |message.k| == 9
      modifies this, contract
      ensures View() == if old(done) then old(View()) else AfterInfo(old(View()), message, io)
    {
      if done {
        return;
      }
      var o := contract.ObserveCalibration(message);
      if o.Raised? {
        FailWith(o.message);
        return;
      }
      if !infoSaved {
        if io.InfoNotWritten? {
          FailWith(io.message);
          return;
        }
        cameraInfo := Some(message);
        if io.InfoNotRecorded? {
          FailWith(io.message);
          return;
        }
        infoSaved := true;
      }
    }

    /** Seconds since the capture started: by the wall clock, or by a simulation clock that may not
        have started yet and must not run back. */
    method Elapsed(r: T.Reading) returns (e: T.Elapsed)
      modifies this`clock
      ensures (clock, e) == T.CaptureElapsed(old(clock), r)
    {
      if !clock.options.simulated {
        return T.Since(r.monotonic - clock.started);
      }
      if clock.lastClock.Some? && r.now < clock.lastClock.value {
        return T.ClockFails;
      }
      if r.now <= 0 {
        return T.NotStarted;
      }
      if clock.sourceStarted.None? {
        clock := clock.(sourceStarted := Some(r.now));
      }
      clock := clock.(lastClock := Some(r.now));
      return T.Since((r.now - clock.sourceStarted.value) as real / 1000000000.0);
    }

    method OnImage(m: ImageMessage, r: T.Reading, receivedNs: int)
      requires writer.View().pending.None?
      modifies this, contract, dataset, writer
      ensures View() == if old(done) then old(View())
                        else AfterImage(dataset.interval, old(View()), m, r, receivedNs)
    {
      hide AcceptImage;
      if done {
        return;
      }
      clock := clock.(lastReceived := r.monotonic);
      var elapsed := Elapsed(r);
      if elapsed.ClockFails? {
        FailWith(ClockBackwards);
        return;
      }
      if elapsed.NotStarted? || elapsed.seconds < clock.options.warmup {
        return;
      }
      TakeImage(m, receivedNs);
    }

    method TakeImage(m: ImageMessage, receivedNs: int)
      requires writer.View().pending.None?
      modifies this, contract, dataset, writer
      ensures View() == AcceptImage(dataset.interval, old(View()), m, receivedNs)
    {
      var o := contract.Observe(m.width, m.height, m.encoding, m.frameId);
      if o.Raised? {
        FailWith(o.message);
        return;
      }
      if clock.options.simulated && m.stamp == 0 {
        return;
      }
      var v := dataset.CheckEligible(m.stamp);
      if v.Refused? {
        FailWith(v.message);
        return;
      }
      if v.Skipped? {
        return;
      }
      var accepted := writer.BeginSubmit(FrameOf(m, receivedNs));
      if accepted.Raised? {
        FailWith(accepted.message);
      }
    }

    method OnSubmit(observed: nat, update: Outcome)
      requires W.Enabled(writer.View(), W.Put(observed))
      modifies this, writer
      ensures View() == AfterSubmit(old(View()), observed, update)
    {
      var o := writer.EndSubmit(observed);
      if o.Raised? {
        FailWith(o.message);
        return;
      }
      if firstImage {
        if update.Raised? {
          FailWith(update.message);
          return;
        }
        firstImage := false;
      }
    }

    /** Returns whether an error left the callback, which ends the spinning. */
    method OnTimer(r: T.Reading, update: Outcome) returns (o: Outcome)
      modifies this
      ensures View() == AfterTimer(old(View()), r, Returned)
      ensures o == if T.CaptureElapsed(old(clock), r).1.ClockFails? then Returned else update
    {
      var elapsed := Elapsed(r);
      if elapsed.ClockFails? {
        FailWith(ClockBackwards);
        return Returned;
      }
      if writer.error.Some? {
        FailWith(WriterFailed(writer.error.value));
      }
      if clock.options.noFrameTimeout > 0.0 && r.monotonic - clock.lastReceived > clock.options.noFrameTimeout {
        FailWith(NoFrames);
      }
      if elapsed.Since? && clock.options.duration > 0.0 &&
         elapsed.seconds >= clock.options.duration + clock.options.warmup {
        done := true;
      }
      return update;
    }

    method OnFinish(update: Outcome)
      modifies this
      ensures View() == AfterFinish(old(View()), update)
    {
      if failure.Some? {
        error := Text(failure.value);
      }
      if dataset.saved == 0 && error == NO_ERROR {
        error := NothingSaved;
      }
      stage := Finished;
      if update.Returned? {
        session := Session(if error == NO_ERROR then Status.Complete else Failed, dataset.saved);
      }
    }
  }

  // ---------------------------------------------------------------- runs

  /** The files as the checker finds them. */
  function Files(s: State): Directory {
    Directory(s.failure, s.session, s.store.rows, s.store.images, s.cameraInfo)
  }

  /** `end` is where the steps `events` lead from `s`. */
  ghost predicate Leads(codec: D.Codec, interval: int, s: State, events: seq<Event>, end: State)
    decreases |events|
  {
    if events == [] then end == s
    else
      && Enabled(codec, s, events[0])
      && Leads(codec, interval, Next(codec, interval, s, events[0]), events[1..], end)
  }
}
