/** Bounded, ordered disk writing: one receive thread, one writer thread, one queue. */
module ImageWriter {
  import opened Common
  import opened CameraContract
  import opened Dataset

  datatype Entry = Item(frame: Frame) | Sentinel

  datatype Phase = Open | Closing | Draining | Joined

  datatype Worker = Waiting | Saving(frame: Frame) | Stopped

  /** `pending` is a frame that has passed the checks of submit and is not queued yet: the worker
      may run in between. `submitted` and `saved` are the history. */
  datatype State = State(
    capacity: nat, phase: Phase, pending: Option<Frame>, queue: seq<Entry>, worker: Worker,
    error: Option<Message>, peak: nat, submitted: seq<Frame>, saved: seq<Frame>)

  function Start(capacity: nat): State {
    State(capacity, Open, None, [], Waiting, None, 0, [], [])
  }

  datatype Event =
    | Offer(frame: Frame)           // submit: the two checks
    | Put(observed: nat)            // submit: put_nowait, then the queue length read back
    | Abandon                       // submit: interrupted before it has queued the frame
    | Get                           // worker: get
    | Finish(outcome: Outcome)      // worker: convert and save have returned or raised
    | BeginClose                    // close: the flag
    | PutSentinel                   // close: put(None), which waits for room
    | Join                          // close: the worker has ended

  predicate Enabled(s: State, e: Event) {
    match e
    case Offer(_) => s.pending.None?
    case Put(observed) => s.pending.Some? && observed <= |s.queue| + 1 && observed <= s.capacity
    case Abandon => s.pending.Some?
    case Get => s.worker.Waiting? && s.queue != []
    case Finish(_) => s.worker.Saving?
    case BeginClose => s.phase.Open? && s.pending.None?
    case PutSentinel => s.phase.Closing? && |s.queue| < s.capacity
    case Join => s.phase.Draining? && s.worker.Stopped?
  }

  function Next(s: State, e: Event): (State, Outcome)
    requires Enabled(s, e)
  {
    match e
    case Offer(f) =>
      if !s.phase.Open? then (s, Raised(WriterClosed))
      else if s.error.Some? then (s, Raised(WriterFailed(s.error.value)))
      else (s.(pending := Some(f)), Returned)
    case Put(observed) =>
      if |s.queue| < s.capacity
      then (s.(pending := None, queue := s.queue + [Item(s.pending.value)],
               submitted := s.submitted + [s.pending.value],
               peak := if observed > s.peak then observed else s.peak), Returned)
      else (s.(pending := None), Raised(QueueFull))
    case Abandon => (s.(pending := None), Returned)
    case Get =>
      var taken := s.(queue := s.queue[1..]);
      (match s.queue[0]
       case Sentinel => taken.(worker := Stopped)
       case Item(f) => if s.error.Some? then taken else taken.(worker := Saving(f)), Returned)
    case Finish(Returned) => (s.(worker := Waiting, saved := s.saved + [s.worker.frame]), Returned)
    case Finish(Raised(message)) => (s.(worker := Waiting, error := Some(message)), Returned)
    case BeginClose => (s.(phase := Closing), Returned)
    case PutSentinel => (s.(phase := Draining, queue := s.queue + [Sentinel]), Returned)
    case Join =>
      (s.(phase := Joined),
       if s.error.Some? then Raised(WriterFailed(s.error.value)) else Returned)
  }

  /** `end` is where the steps `events` lead from `s`. */
  ghost predicate Leads(s: State, events: seq<Event>, end: State)
    decreases |events|
  {
    if events == [] then end == s
    else Enabled(s, events[0]) && Leads(Next(s, events[0]).0, events[1..], end)
  }

  // ---------------------------------------------------------------- the writer object

  class ImageWriter {
    const capacity: nat
    var phase: Phase
    var pending: Option<Frame>
    var queue: seq<Entry>
    var worker: Worker
    var error: Option<Message>
    var peakQueue: nat
    ghost var submitted: seq<Frame>
    ghost var saved: seq<Frame>

    ghost function View(): State
      reads this
    {
      State(capacity, phase, pending, queue, worker, error, peakQueue, submitted, saved)
    }

    constructor (queueSize: nat)
      requires queueSize >= 1
      ensures View() == Start(queueSize)
    {
      capacity := queueSize;
      phase, pending, queue, worker := Open, None, [], Waiting;
      error, peakQueue := None, 0;
      submitted, saved := [], [];
    }

    method BeginSubmit(frame: Frame) returns (o: Outcome)
      requires Enabled(View(), Offer(frame))
      modifies this
      ensures (View(), o) == Next(old(View()), Offer(frame))
    {
      if !phase.Open? {
        return Raised(WriterClosed);
      }
      if error.Some? {
        return Raised(WriterFailed(error.value));
      }
      pending := Some(frame);
      return Returned;
    }

    method EndSubmit(observed: nat) returns (o: Outcome)
      requires Enabled(View(), Put(observed))
      modifies this
      ensures (View(), o) == Next(old(View()), Put(observed))
    {
      var frame := pending.value;
      pending := None;
      if |queue| >= capacity {
        return Raised(QueueFull);
      }
      queue := queue + [Item(frame)];
      submitted := submitted + [frame];
      if observed > peakQueue {
        peakQueue := observed;
      }
      return Returned;
    }

    method TakeNext()
      requires Enabled(View(), Get)
      modifies this
      ensures View() == Next(old(View()), Get).0
    {
      var item := queue[0];
      queue := queue[1..];
      if item.Sentinel? {
        worker := Stopped;
        return;
      }
      if error.Some? {
        return;
      }
      worker := Saving(item.frame);
    }

    method FinishFrame(outcome: Outcome)
      requires Enabled(View(), Finish(outcome))
      modifies this
      ensures View() == Next(old(View()), Finish(outcome)).0
    {
      if outcome.Returned? {
        saved := saved + [worker.frame];
      } else {
        error := Some(outcome.message);
      }
      worker := Waiting;
    }

    method MarkClosed()
      requires Enabled(View(), BeginClose)
      modifies this
      ensures View() == Next(old(View()), BeginClose).0
    {
      phase := Closing;
    }

    method QueueSentinel()
      requires Enabled(View(), PutSentinel)
      modifies this
      ensures View() == Next(old(View()), PutSentinel).0
    {
      queue := queue + [Sentinel];
      phase := Draining;
    }

    method EndClose() returns (o: Outcome)
      requires Enabled(View(), Join)
      modifies this
      ensures (View(), o) == Next(old(View()), Join)
    {
      phase := Joined;
      if error.Some? {
        return Raised(WriterFailed(error.value));
      }
      return Returned;
    }
  }

  // ---------------------------------------------------------------- what every run keeps

  function InFlight(w: Worker): seq<Frame> {
    if w.Saving? then [w.frame] else []
  }

  function Frames(queue: seq<Entry>): seq<Frame> {
    if queue == [] then []
    else match queue[0]
      case Item(f) => [f] + Frames(queue[1..])
      case Sentinel => Frames(queue[1..])
  }

  lemma {:induction false} FramesAppend(queue: seq<Entry>, e: Entry)
    ensures Frames(queue + [e]) == Frames(queue) + Frames([e])
  {
    if queue == [] {
      assert queue + [e] == [e];
    } else {
      FramesAppend(queue[1..], e);
      assert (queue + [e])[1..] == queue[1..] + [e];
    }
  }

  predicate OnlyItems(queue: seq<Entry>) {
    forall i :: 0 <= i < |queue| ==> queue[i].Item?
  }

  /** The sentinel is put once, stays last, and stops the worker. */
  predicate SentinelLast(s: State) {
    match s.phase
    case Open => OnlyItems(s.queue) && !s.worker.Stopped?
    case Closing => OnlyItems(s.queue) && !s.worker.Stopped?
    case Draining =>
      if s.worker.Stopped? then s.queue == []
      else s.queue != [] && s.queue[|s.queue| - 1].Sentinel? && OnlyItems(s.queue[..|s.queue| - 1])
    case Joined => s.worker.Stopped? && s.queue == []
  }

  /** Until an error is latched nothing is lost; from then on some submitted frame is not saved. */
  predicate Accounted(s: State) {
    if s.error.None? then s.submitted == s.saved + InFlight(s.worker) + Frames(s.queue)
    else s.saved < s.submitted && !s.worker.Saving?
  }

  predicate Inv(s: State) {
    && s.capacity >= 1
    && |s.queue| <= s.capacity && s.peak <= s.capacity
    && (!s.phase.Open? ==> s.pending.None?)
    && SentinelLast(s)
    && Accounted(s)
  }

  lemma StepKeepsSentinelLast(s: State, e: Event)
    requires Inv(s) && Enabled(s, e)
    ensures SentinelLast(Next(s, e).0)
  {
    hide Accounted, Frames;
  }

  lemma StepKeepsAccounted(s: State, e: Event)
    requires Inv(s) && Enabled(s, e)
    ensures Accounted(Next(s, e).0)
  {
    hide SentinelLast, OnlyItems;
    if e.Put? {
      FramesAppend(s.queue, Item(s.pending.value));
    } else if e.PutSentinel? {
      FramesAppend(s.queue, Sentinel);
    }
  }

  lemma StepKeepsInv(s: State, e: Event)
    requires Inv(s) && Enabled(s, e)
    ensures Inv(Next(s, e).0)
  {
    hide Accounted, SentinelLast, Frames;
    StepKeepsSentinelLast(s, e);
    StepKeepsAccounted(s, e);
  }

  lemma {:induction false} LeadsKeepsInv(s: State, events: seq<Event>, end: State)
    requires Inv(s) && Leads(s, events, end)
    ensures Inv(end)
    decreases |events|
  {
    hide Inv;
    if events == [] {
    } else {
      StepKeepsInv(s, events[0]);
      LeadsKeepsInv(Next(s, events[0]).0, events[1..], end);
    }
  }

  lemma StartIsValid(capacity: nat)
    requires capacity >= 1
    ensures Inv(Start(capacity))
  {
  }

  /** In every interleaving the saved frames are a prefix, in order, of the submitted ones, none is
      lost while no error is latched, and the queue never exceeds its bound. */
  lemma SavedIsAPrefix(capacity: nat, events: seq<Event>, s: State)
    requires capacity >= 1 && Leads(Start(capacity), events, s)
    ensures s.saved <= s.submitted
    ensures s.error.None? ==> s.submitted == s.saved + InFlight(s.worker) + Frames(s.queue)
    ensures s.error.Some? ==> s.saved != s.submitted
    ensures |s.queue| <= s.capacity && s.peak <= s.capacity
  {
    LeadsKeepsInv(Start(capacity), events, s);
  }

  /** The first error is final: it is never cleared, and nothing is saved or accepted after it. */
  lemma {:induction false} NothingSavedAfterError(s: State, events: seq<Event>, end: State)
    requires Inv(s) && s.error.Some? && Leads(s, events, end)
    ensures end.error == s.error && end.saved == s.saved
    ensures |end.submitted| <= |s.submitted| + (if s.pending.Some? then 1 else 0)
    decreases |events|
  {
    hide Inv;
    if events == [] {
    } else {
      StepKeepsInv(s, events[0]);
      assert !s.worker.Saving? by { ErrorStopsSaving(s); }
      NothingSavedAfterError(Next(s, events[0]).0, events[1..], end);
    }
  }

  lemma ErrorStopsSaving(s: State)
    requires Inv(s) && s.error.Some?
    ensures !s.worker.Saving?
  {
  }

  /** Closing returns normally exactly when every submitted frame has been saved. */
  lemma CloseReturnsExactlyWhenAllSaved(capacity: nat, events: seq<Event>, s: State)
    requires capacity >= 1 && Leads(Start(capacity), events, s) && Enabled(s, Join)
    ensures Next(s, Join).1.Returned? <==> s.saved == s.submitted
  {
    LeadsKeepsInv(Start(capacity), events, s);
  }

  /** How many more steps the writer can take once it is closing. */
  function StepsLeft(s: State): nat {
    2 * |s.queue| + (if s.worker.Saving? then 1 else 0)
    + (match s.phase case Draining => 1 case Joined => 0 case _ => 4)
  }

  /** While closing, some thread can always move: the sentinel cannot be blocked for good. */
  lemma CloseNeverStuck(s: State)
    requires Inv(s) && s.phase in {Closing, Draining}
    ensures exists e: Event :: !e.Offer? && Enabled(s, e)
  {
    hide Accounted;
    if s.worker.Saving? {
      assert Enabled(s, Finish(Returned));
    } else if s.worker.Stopped? {
      assert Enabled(s, Join);
    } else if s.queue != [] {
      assert Enabled(s, Get);
    } else {
      assert Enabled(s, PutSentinel);
    }
  }

  /** So close always ends: its steps are bounded, and a run that cannot go on has joined. */
  lemma {:induction false} CloseTerminates(s: State, events: seq<Event>, end: State)
    requires Inv(s) && !s.phase.Open? && Leads(s, events, end)
    requires forall i :: 0 <= i < |events| ==> !events[i].Offer?
    ensures |events| <= StepsLeft(s)
    ensures (forall e: Event :: !e.Offer? ==> !Enabled(end, e)) ==> end.phase.Joined?
    decreases |events|
  {
    hide Accounted, Frames;
    if events == [] {
      if s.phase in {Closing, Draining} {
        CloseNeverStuck(s);
      }
    } else {
      StepKeepsInv(s, events[0]);
      CloseTerminates(Next(s, events[0]).0, events[1..], end);
    }
  }

  // ---------------------------------------------------------------- what submit promises

  /** Submitting a frame, undisturbed between its check and the queue: it is accepted exactly while the
      writer is open, has not failed, and has room, and it is then the last in the queue. Otherwise
      nothing changes, and the message names the reason. */
  lemma SubmitExactly(s: State, f: Frame, observed: nat)
    requires Inv(s) && s.pending.None? && observed <= |s.queue| + 1 && observed <= s.capacity
    ensures Enabled(s, Offer(f))
    ensures Next(s, Offer(f)).1.Returned? <==> s.phase.Open? && s.error.None?
    ensures Next(s, Offer(f)).1.Raised? ==>
              && Next(s, Offer(f)).0 == s
              && Next(s, Offer(f)).1.message == if s.phase.Open? then WriterFailed(s.error.value) else WriterClosed
    ensures Next(s, Offer(f)).1.Returned? ==>
              var t := Next(s, Offer(f)).0;
              && Enabled(t, Put(observed))
              && var (u, o) := Next(t, Put(observed));
                 && (o.Returned? <==> |s.queue| < s.capacity)
                 && (o.Returned? ==> u.submitted == s.submitted + [f] && u.queue == s.queue + [Item(f)])
                 && (o.Raised? ==> u == s && o.message == QueueFull)
                 && u.pending.None? && u.worker == s.worker && u.saved == s.saved
  {
  }

  /** Somewhere in the run a frame was queued and the length read back was `n`. */
  ghost predicate ReadBack(s: State, events: seq<Event>, n: nat)
    decreases |events|
  {
    && events != [] && Enabled(s, events[0])
    && var (t, o) := Next(s, events[0]);
       (events[0].Put? && o.Returned? && events[0].observed == n) || ReadBack(t, events[1..], n)
  }

  /** The peak is the greatest queue length read back. */
  lemma {:induction false} PeakIsGreatest(s: State, events: seq<Event>, end: State)
    requires Leads(s, events, end)
    ensures s.peak <= end.peak && forall n: nat :: ReadBack(s, events, n) ==> n <= end.peak
    ensures end.peak == s.peak || ReadBack(s, events, end.peak)
    decreases |events|
  {
    if events == [] {
    } else {
      PeakIsGreatest(Next(s, events[0]).0, events[1..], end);
    }
  }
}
