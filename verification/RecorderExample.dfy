/** A run in which recorder and checker disagree: an empty failure file. */
module RecorderExample {
  import opened Common
  import opened CameraContract
  import D = Dataset
  import W = ImageWriter
  import opened CheckDataset
  import opened Recorder
  import T = CaptureClock

  const PIXEL := D.Shape(1, 1)
  const CODEC := D.Codec((data: D.Bytes) => "", (data: D.Bytes) => Some(PIXEL))
  const OPTIONS := T.Options(false, 0.0, 0.0, 0.0)
  const CLOCK := T.Begin(OPTIONS, 0.0)
  const NOW := T.Reading(0.0, 0)
  const MESSAGE := ImageMessage(1, 1, "rgb8", "cam", 5)
  const FRAME := D.Frame(PIXEL, 5, 0, "cam", "rgb8")

  lemma OneStep(s: State, e: Event, rest: seq<Event>, end: State)
    requires Enabled(CODEC, s, e) && Leads(CODEC, 1, Next(CODEC, 1, s, e), rest, end)
    ensures Leads(CODEC, 1, s, [e] + rest, end)
  {
    hide Next, Enabled;
    assert ([e] + rest)[1..] == rest;
  }

  /** One frame received, queued, taken and saved. */
  function Saved(): State {
    var chooser := D.Selector(Some(5), Some(5), 1, 0, 0);
    var data: D.Bytes := [];
    var store := D.Store(Some(PIXEL), 1, [D.RowFor(CODEC, 1, FRAME, data)], map[D.Png(1) := data]);
    var writer := W.State(1, W.Open, None, [], W.Waiting, None, 1, [FRAME], [FRAME]);
    State(chooser, store, writer, Contract(Some(ImageSignature(1, 1, "rgb8", "cam")), None),
          false, NO_ERROR, false, false, Spinning, None, None, Session(Recording, 0), CLOCK)
  }

  function Received(): State {
    var s := Saved();
    s.(firstImage := true, store := D.EMPTY, writer := W.Start(1).(pending := Some(FRAME)))
  }

  function Queued(): State {
    var s := Saved();
    s.(store := D.EMPTY, writer := s.writer.(queue := [W.Item(FRAME)], saved := []))
  }

  function Taken(): State {
    var s := Saved();
    s.(store := D.EMPTY, writer := s.writer.(worker := W.Saving(FRAME), saved := []))
  }

  function Ended(): State {
    var s := Saved();
    s.(stage := Closed, failure := Some(""), writer := s.writer.(phase := W.Joined, worker := W.Stopped))
  }

  lemma Receives()
    ensures Enabled(CODEC, Start(1, OPTIONS, 0.0), Image(MESSAGE, NOW, 0))
    ensures Next(CODEC, 1, Start(1, OPTIONS, 0.0), Image(MESSAGE, NOW, 0)) == Received()
  {
  }

  lemma Queues()
    ensures Enabled(CODEC, Received(), Submit(1, Returned))
    ensures Next(CODEC, 1, Received(), Submit(1, Returned)) == Queued()
  {
  }

  lemma Takes()
    ensures Enabled(CODEC, Queued(), WorkerTakes)
    ensures Next(CODEC, 1, Queued(), WorkerTakes) == Taken()
  {
  }

  lemma Saves()
    ensures Enabled(CODEC, Taken(), WorkerSaves(D.Succeeds([])))
    ensures Next(CODEC, 1, Taken(), WorkerSaves(D.Succeeds([]))) == Saved()
  {
    hide D.RowFor;
  }

  function Stopping(): State {
    var s := Saved();
    s.(stage := Stage.Stopping, writer := s.writer.(phase := W.Closing))
  }

  function Draining(): State {
    var s := Saved();
    s.(stage := Stage.Stopping, writer := s.writer.(phase := W.Draining, queue := [W.Sentinel]))
  }

  function WorkerGone(): State {
    var s := Saved();
    s.(stage := Stage.Stopping, writer := s.writer.(phase := W.Draining, worker := W.Stopped))
  }

  function Joined(): State {
    Ended().(failure := None)
  }

  lemma Stops()
    ensures Enabled(CODEC, Saved(), Stop) && Next(CODEC, 1, Saved(), Stop) == Stopping()
    ensures Enabled(CODEC, Stopping(), PutSentinel) && Next(CODEC, 1, Stopping(), PutSentinel) == Draining()
  {
    hide D.RowFor;
  }

  lemma Joins()
    ensures Enabled(CODEC, Draining(), WorkerTakes) && Next(CODEC, 1, Draining(), WorkerTakes) == WorkerGone()
    ensures Enabled(CODEC, WorkerGone(), WriterJoined) && Next(CODEC, 1, WorkerGone(), WriterJoined) == Joined()
    ensures Enabled(CODEC, Joined(), FailureFile("")) && Next(CODEC, 1, Joined(), FailureFile("")) == Ended()
  {
    hide D.RowFor;
  }

  lemma Closes(rest: seq<Event>, end: State) returns (events: seq<Event>)
    requires Leads(CODEC, 1, Ended(), rest, end)
    ensures Leads(CODEC, 1, Saved(), events, end)
  {
    hide Next, Enabled, Leads, Ended, Saved, Stopping, Draining, WorkerGone, Joined;
    Joins();
    OneStep(Joined(), FailureFile(""), rest, end);
    events := [FailureFile("")] + rest;
    OneStep(WorkerGone(), WriterJoined, events, end);
    events := [WriterJoined] + events;
    OneStep(Draining(), WorkerTakes, events, end);
    events := [WorkerTakes] + events;
    Stops();
    OneStep(Stopping(), PutSentinel, events, end);
    events := [PutSentinel] + events;
    OneStep(Saved(), Stop, events, end);
    events := [Stop] + events;
  }

  /** The file's empty text becomes the recorder's error, which counts as none. */
  lemma EmptyFailureFileGoesUnnoticed() returns (events: seq<Event>, end: State)
    ensures Leads(CODEC, 1, Start(1, OPTIONS, 0.0), events, end)
    ensures end.session.status.Complete? && !Acceptable(CODEC, Files(end))
  {
    end := Next(CODEC, 1, Ended(), Finish(Returned));
    assert end.session.status.Complete? && end.failure.Some?;
    events := [Finish(Returned)] + [];
    OneStep(Ended(), Finish(Returned), [], end);
    hide Next, Enabled, Leads, Ended, Saved, Received, Queued, Taken, Start;
    events := Closes(events, end);
    Saves();
    OneStep(Taken(), WorkerSaves(D.Succeeds([])), events, end);
    events := [WorkerSaves(D.Succeeds([]))] + events;
    Takes();
    OneStep(Queued(), WorkerTakes, events, end);
    events := [WorkerTakes] + events;
    Queues();
    OneStep(Received(), Submit(1, Returned), events, end);
    events := [Submit(1, Returned)] + events;
    Receives();
    OneStep(Start(1, OPTIONS, 0.0), Image(MESSAGE, NOW, 0), events, end);
    events := [Image(MESSAGE, NOW, 0)] + events;
  }
}
