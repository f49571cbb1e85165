/** How long a capture has run, by the wall clock or by a simulation's. */
module CaptureClock {
  import opened Common

  datatype Options = Options(simulated: bool, warmup: real, duration: real, noFrameTimeout: real)

  /** `sourceStarted` and `lastClock` are simulation times in nanoseconds. */
  datatype Clock = Clock(
    options: Options, started: real, lastReceived: real, sourceStarted: Option<int>, lastClock: Option<int>)

  /** What the monotonic clock and the node's clock say. */
  datatype Reading = Reading(monotonic: real, now: int)

  datatype Elapsed = ClockFails | NotStarted | Since(seconds: real)

  function Begin(options: Options, started: real): Clock {
    Clock(options, started, started, None, None)
  }

  function CaptureElapsed(c: Clock, r: Reading): (Clock, Elapsed) {
    if !c.options.simulated then (c, Since(r.monotonic - c.started))
    else if c.lastClock.Some? && r.now < c.lastClock.value then (c, ClockFails)
    else if r.now <= 0 then (c, NotStarted)
    else
      var start := if c.sourceStarted.Some? then c.sourceStarted.value else r.now;
      (c.(sourceStarted := Some(start), lastClock := Some(r.now)), Since((r.now - start) as real / 1000000000.0))
  }

  /** The frame timeout, on the monotonic clock. */
  predicate TimedOut(c: Clock, r: Reading) {
    c.options.noFrameTimeout > 0.0 && r.monotonic - c.lastReceived > c.options.noFrameTimeout
  }

  predicate DurationOver(c: Clock, e: Elapsed) {
    e.Since? && c.options.duration > 0.0 && e.seconds >= c.options.duration + c.options.warmup
  }

  /** The clock after a run of readings, and what each said. */
  function ReadAll(c: Clock, readings: seq<Reading>): (r: (Clock, seq<Elapsed>))
    ensures |r.1| == |readings|
  {
    if readings == [] then (c, [])
    else
      var (before, elapsed) := ReadAll(c, readings[..|readings| - 1]);
      var (after, e) := CaptureElapsed(before, readings[|readings| - 1]);
      (after, elapsed + [e])
  }

  /** The remembered simulation times are the first and the last positive ones. */
  predicate Remembers(c: Clock, elapsed: seq<Elapsed>) {
    && (c.sourceStarted.Some? <==> c.lastClock.Some?)
    && (c.sourceStarted.Some? ==> 0 < c.sourceStarted.value <= c.lastClock.value)
    && forall i :: 0 <= i < |elapsed| && elapsed[i].Since? ==>
         c.lastClock.Some? && 0.0 <= elapsed[i].seconds <= Seconds(c.lastClock.value - c.sourceStarted.value)
  }

  function Seconds(nanoseconds: int): real {
    nanoseconds as real / 1000000000.0
  }

  lemma SecondsOrder(a: int, b: int)
    requires a <= b
    ensures Seconds(a) <= Seconds(b) && Seconds(0) == 0.0
  {
  }

  /** In simulated time the capture's age is never negative and never falls: a clock that runs back is
      refused instead. */
  lemma {:induction false} ElapsedNeverFalls(options: Options, started: real, readings: seq<Reading>)
    requires options.simulated
    ensures var (c, elapsed) := ReadAll(Begin(options, started), readings);
            && c.options == options && Remembers(c, elapsed)
            && forall i, j :: 0 <= i < j < |elapsed| && elapsed[i].Since? && elapsed[j].Since? ==>
                 elapsed[i].seconds <= elapsed[j].seconds
  {
    if readings == [] {
    } else {
      var init, r := readings[..|readings| - 1], readings[|readings| - 1];
      ElapsedNeverFalls(options, started, init);
      var (before, elapsed) := ReadAll(Begin(options, started), init);
      if before.lastClock.Some? && before.lastClock.value <= r.now {
        SecondsOrder(before.lastClock.value - before.sourceStarted.value, r.now - before.sourceStarted.value);
        SecondsOrder(0, before.lastClock.value - before.sourceStarted.value);
      } else {
        SecondsOrder(0, 0);
      }
    }
  }

  // ---------------------------------------------------------------- what a reading says

  predicate NoneFails(elapsed: seq<Elapsed>) {
    forall i :: 0 <= i < |elapsed| ==> !elapsed[i].ClockFails?
  }

  /** Reading `i` is the first with a positive simulation time. */
  predicate StartsAt(readings: seq<Reading>, i: int) {
    0 <= i < |readings| && readings[i].now > 0 && forall j :: 0 <= j < i ==> readings[j].now <= 0
  }

  /** The first and the greatest positive simulation time so far are what the clock remembers. */
  ghost predicate Recalls(c: Clock, readings: seq<Reading>) {
    && (c.lastClock.None? ==> c.sourceStarted.None? && forall i :: 0 <= i < |readings| ==> readings[i].now <= 0)
    && (c.lastClock.Some? ==>
          && c.lastClock.value > 0
          && (forall i :: 0 <= i < |readings| ==> readings[i].now <= c.lastClock.value)
          && (exists i :: 0 <= i < |readings| && readings[i].now == c.lastClock.value)
          && (exists i :: StartsAt(readings, i) && c.sourceStarted == Some(readings[i].now)))
  }

  lemma {:induction false} ReadingsRecalled(options: Options, started: real, readings: seq<Reading>)
    requires options.simulated && NoneFails(ReadAll(Begin(options, started), readings).1)
    ensures var c := ReadAll(Begin(options, started), readings).0; c.options == options && Recalls(c, readings)
  {
    if readings == [] {
    } else {
      var init, r := readings[..|readings| - 1], readings[|readings| - 1];
      var (c, elapsed) := ReadAll(Begin(options, started), init);
      var all := ReadAll(Begin(options, started), readings).1;
      assert all == elapsed + [CaptureElapsed(c, r).1];
      assert all[|elapsed|] == CaptureElapsed(c, r).1 && forall i :: 0 <= i < |elapsed| ==> all[i] == elapsed[i];
      ReadingsRecalled(options, started, init);
      assert readings == init + [r];
      RecallOneMore(c, init, r);
    }
  }

  lemma RecallOneMore(c: Clock, readings: seq<Reading>, r: Reading)
    requires c.options.simulated && Recalls(c, readings) && !CaptureElapsed(c, r).1.ClockFails?
    ensures Recalls(CaptureElapsed(c, r).0, readings + [r])
  {
    var all := readings + [r];
    assert all[|readings|] == r && forall i :: 0 <= i < |readings| ==> all[i] == readings[i];
    if c.lastClock.Some? {
      var i :| StartsAt(readings, i) && c.sourceStarted == Some(readings[i].now);
      assert StartsAt(all, i);
    } else if r.now > 0 {
      assert StartsAt(all, |readings|);
    }
  }

  lemma WallClock(options: Options, started: real, readings: seq<Reading>)
    requires !options.simulated
    ensures ReadAll(Begin(options, started), readings).0 == Begin(options, started)
  {
    if readings != [] {
      WallClock(options, started, readings[..|readings| - 1]);
    }
  }

  /** What reading `r` says after the others in simulated time: it fails exactly if an earlier reading
      was positive and later, and time has not started exactly if it has not become positive; otherwise
      it gives the seconds since the first positive reading, which may be this one. */
  ghost predicate Says(readings: seq<Reading>, r: Reading, e: Elapsed) {
    && (e.ClockFails? <==> exists i :: 0 <= i < |readings| && readings[i].now > 0 && r.now < readings[i].now)
    && (e.NotStarted? <==> r.now <= 0 && forall i :: 0 <= i < |readings| ==> readings[i].now <= 0)
    && (e.Since? ==> exists i ::
          StartsAt(readings + [r], i) && e.seconds == (r.now - (readings + [r])[i].now) as real / 1000000000.0)
  }

  /** The age of a capture, as long as no reading has failed: by the wall clock, the time since the
      start; in simulated time, the time since simulation time became positive. */
  lemma ElapsedExactly(options: Options, started: real, readings: seq<Reading>, r: Reading)
    requires NoneFails(ReadAll(Begin(options, started), readings).1)
    ensures var e := CaptureElapsed(ReadAll(Begin(options, started), readings).0, r).1;
            if options.simulated then Says(readings, r, e) else e == Since(r.monotonic - started)
  {
    if !options.simulated {
      WallClock(options, started, readings);
    } else {
      ReadingsRecalled(options, started, readings);
      hide ReadAll, Recalls, Says, CaptureElapsed, NoneFails;
      SimulatedReading(ReadAll(Begin(options, started), readings).0, readings, r);
    }
  }

  lemma SimulatedReading(c: Clock, readings: seq<Reading>, r: Reading)
    requires c.options.simulated && Recalls(c, readings)
    ensures Says(readings, r, CaptureElapsed(c, r).1)
  {
    var e := CaptureElapsed(c, r).1;
    if e.Since? {
      RecallOneMore(c, readings, r);
    }
    hide StartsAt;
    if e.ClockFails? {
      var i :| 0 <= i < |readings| && readings[i].now == c.lastClock.value;
    }
  }
}
