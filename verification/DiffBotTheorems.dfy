/** What every run of the wheel hardware guarantees. */
module DiffBotTheorems {
  import opened Common
  import opened DiffBotSystem

  /** The state after `events`, and whether each of them was possible. */
  function After(p: Settings, s: State, events: seq<Event>): State {
    if events == [] then s
    else Next(p, After(p, s, events[..|events| - 1]), events[|events| - 1]).0
  }

  predicate Runs(p: Settings, s: State, events: seq<Event>) {
    events == [] ||
    (Runs(p, s, events[..|events| - 1]) && Enabled(After(p, s, events[..|events| - 1]), events[|events| - 1]))
  }

  lemma AfterOneMore(p: Settings, s: State, events: seq<Event>, e: Event)
    ensures After(p, s, events + [e]) == Next(p, After(p, s, events), e).0
    ensures Runs(p, s, events + [e]) <==> Runs(p, s, events) && Enabled(After(p, s, events), e)
  {
    var all := events + [e];
    assert all[..|all| - 1] == events && all[|all| - 1] == e;
    hide Next, Enabled;
  }

  // ---------------------------------------------------------------- nonzero commands

  predicate IsRequest(c: Commands, m: Wheels) {
    c[0] == Finite(m[0]) && c[1] == Finite(m[1])
  }

  predicate Holds(s: State, m: Wheels) {
    s.active && s.commands == m
  }

  /** Event `k` is the last write of all; it copied the controller's request `m`, which has been in
      force, with the hardware active, ever since. */
  ghost predicate GivenAt(p: Settings, s: State, events: seq<Event>, k: nat, m: Wheels) {
    && k < |events| && events[k].Write?
    && IsRequest(After(p, s, events[..k]).hwCommands, m)
    && (forall j :: k < j < |events| ==> !events[j].Write?)
    && (forall j :: k < j <= |events| ==> Holds(After(p, s, events[..j]), m))
    && After(p, s, events).lastCommand == events[k].time
  }

  /** How the stored command moves in one step. */
  lemma CommandStep(p: Settings, s: State, e: Event)
    requires s.commands != ZERO ==> s.active
    ensures var t := Next(p, s, e).0;
            t.commands == ZERO
            || (t.active && e.Write? && IsRequest(s.hwCommands, t.commands) && t.lastCommand == e.time)
            || (t.active && !e.Write? && s.active && t.commands == s.commands && t.lastCommand == s.lastCommand)
  {
    var t := Next(p, s, e).0;
    if e.Write? && t.active && t.commands != ZERO {
      assert IsRequest(s.hwCommands, t.commands);
    }
  }

  lemma {:induction false} CommandIsGiven(p: Settings, s: State, events: seq<Event>)
    requires Initial(s) && Runs(p, s, events)
    ensures var m := After(p, s, events).commands;
            m != ZERO ==> After(p, s, events).active && exists k :: GivenAt(p, s, events, k, m)
  {
    hide Next, Enabled, IsRequest;
    if events == [] {
    } else {
      var init, e := events[..|events| - 1], events[|events| - 1];
      CommandIsGiven(p, s, init);
      var before, t := After(p, s, init), After(p, s, events);
      CommandStep(p, before, e);
      if t.commands != ZERO {
        assert events[..|events|] == events;
        if e.Write? {
          assert GivenAt(p, s, events, |events| - 1, t.commands);
        } else {
          var k :| GivenAt(p, s, init, k, t.commands);
          StillGiven(p, s, init, e, k, t.commands);
          assert events == init + [e];
        }
      }
    }
  }

  lemma StillGiven(p: Settings, s: State, init: seq<Event>, e: Event, k: nat, m: Wheels)
    requires GivenAt(p, s, init, k, m) && !e.Write?
    requires Holds(After(p, s, init + [e]), m)
    requires After(p, s, init + [e]).lastCommand == After(p, s, init).lastCommand
    ensures GivenAt(p, s, init + [e], k, m)
  {
    hide After, Holds, IsRequest;
    var all := init + [e];
    assert all[..|all|] == all;
    assert forall j :: 0 <= j <= |init| ==> all[..j] == init[..j];
    assert forall j :: 0 <= j < |init| ==> all[j] == init[j];
  }

  /** A published command that is not zero comes only from an active, unfaulted hardware whose state
      and command are fresh, and it is the request copied by the last write. */
  lemma NonzeroOnlyWhenSafe(p: Settings, s: State, events: seq<Event>, e: Event, m: Wheels)
    requires Initial(s) && Runs(p, s, events + [e])
    requires m in Next(p, After(p, s, events), e).1.published && m != ZERO
    ensures var t := After(p, s, events + [e]);
            && t.active && !t.fault && t.received
            && t.now - t.lastState <= p.stateTimeout
            && t.now - t.lastCommand <= p.commandTimeout
    ensures exists k :: GivenAt(p, s, events + [e], k, m)
  {
    hide GivenAt;
    AfterOneMore(p, s, events, e);
    CommandIsGiven(p, s, events + [e]);
    PublishedWhenSafe(p, After(p, s, events), e, m);
  }

  lemma PublishedWhenSafe(p: Settings, s: State, e: Event, m: Wheels)
    requires m in Next(p, s, e).1.published && m != ZERO
    ensures var t := Next(p, s, e).0;
            && t.active && !t.fault && t.received && t.commands == m
            && t.now - t.lastState <= p.stateTimeout
            && t.now - t.lastCommand <= p.commandTimeout
  {
  }

  // ---------------------------------------------------------------- the latch

  lemma FaultStep(p: Settings, s: State, e: Event)
    requires s.fault && !e.Configure?
    ensures var (t, out) := Next(p, s, e);
            && t.fault && (t.active ==> s.active)
            && (forall m :: m in out.published ==> m == ZERO)
            && (e.Activate? || e.Read? || e.Write? ==> !out.ok)
  {
  }

  /** Until the next configure a fault stays: nothing but zero is published, reading, writing and
      activating report an error, and the hardware cannot become active. */
  lemma {:induction false} FaultLatches(p: Settings, s: State, events: seq<Event>, e: Event)
    requires s.fault && Runs(p, s, events + [e])
    requires forall i :: 0 <= i < |events + [e]| ==> !(events + [e])[i].Configure?
    ensures var (t, out) := Next(p, After(p, s, events), e);
            && t.fault && (t.active ==> s.active)
            && (forall m :: m in out.published ==> m == ZERO)
            && (e.Activate? || e.Read? || e.Write? ==> !out.ok)
    decreases |events|
  {
    hide Next, Enabled;
    assert (events + [e])[|events|] == e;
    AfterOneMore(p, s, events, e);
    if events == [] {
    } else {
      var init, last := events[..|events| - 1], events[|events| - 1];
      assert events == init + [last];
      assert forall i :: 0 <= i < |events| ==> (events + [e])[i] == events[i];
      FaultLatches(p, s, init, last);
    }
    FaultStep(p, After(p, s, events), e);
  }

  // ---------------------------------------------------------------- odometry

  predicate Operating(e: Event) {
    !e.Configure? && !e.Activate? && !e.Deactivate? && !e.Teardown?
  }

  ghost predicate AllOperating(events: seq<Event>) {
    forall i :: 0 <= i < |events| ==> Operating(events[i])
  }

  function Messages(events: seq<Event>): nat {
    if events == [] then 0
    else Messages(events[..|events| - 1]) + if events[|events| - 1].Joint? then 1 else 0
  }

  /** The odometry's allowance after `seconds` and `n` messages. */
  function Allowance(seconds: real, n: nat): real {
    MAX_SPEED * seconds + SLACK * (n as real)
  }

  predicate Within(x: real, bound: real) {
    -bound <= x <= bound
  }

  predicate WheelsWithin(w: Wheels, bound: real) {
    Within(w[0], bound) && Within(w[1], bound)
  }

  function Moved(s: State): Wheels {
    [s.positions[0] - s.offsets[0], s.positions[1] - s.offsets[1]]
  }

  /** What operating from the activation `s` keeps. */
  predicate Tracking(s: State, t: State, n: nat) {
    && t.active && t.received && s.lastState <= t.lastState <= t.now
    && WheelsWithin(t.hwPositions, Allowance(t.lastState - s.lastState, n))
    && (!t.fault ==> WheelsWithin(Moved(t), Allowance(t.lastState - s.lastState, n)))
  }

  lemma AllowanceGrows(seconds: real, n: nat, dt: real, x: real, dx: real)
    requires Within(x, Allowance(seconds, n)) && dt >= 0.0
    ensures Within(x, Allowance(seconds + dt, n + 1)) && Within(x, Allowance(seconds, n + 1))
    ensures Within(dx, MAX_SPEED * dt + SLACK) ==> Within(x + dx, Allowance(seconds + dt, n + 1))
  {
    assert (n + 1) as real == n as real + 1.0;
  }

  lemma JointKeepsTracking(p: Settings, s: State, t: State, n: nat, m: JointState)
    requires Tracking(s, t, n)
    ensures Tracking(s, AfterJoint(p, t, m), n + 1)
  {
    hide Parse, Within, Allowance;
    var u := AfterJoint(p, t, m);
    var seconds, dt := t.lastState - s.lastState, t.now - t.lastState;
    AllowanceGrows(seconds, n, dt, t.hwPositions[0], 0.0);
    AllowanceGrows(seconds, n, dt, t.hwPositions[1], 0.0);
    if !t.fault {
      AllowanceGrows(seconds, n, dt, Moved(t)[0], u.positions[0] - t.positions[0]);
      AllowanceGrows(seconds, n, dt, Moved(t)[1], u.positions[1] - t.positions[1]);
      if !u.fault && u != t {
        NoJump(t, u, p.stateTimeout);
      }
    }
  }

  lemma NoJump(t: State, u: State, timeout: real)
    requires !Jumps(t.lastState, t.positions, u.positions, timeout, t.now)
    ensures Within(u.positions[0] - t.positions[0], MAX_SPEED * (t.now - t.lastState) + SLACK)
    ensures Within(u.positions[1] - t.positions[1], MAX_SPEED * (t.now - t.lastState) + SLACK)
  {
  }

  lemma StepKeepsTracking(p: Settings, s: State, t: State, n: nat, e: Event)
    requires Tracking(s, t, n) && Operating(e) && t.now <= e.time
    ensures Tracking(s, Next(p, t, e).0, n + if e.Joint? then 1 else 0)
  {
    hide AfterJoint, Within, Allowance, AfterStop;
    if e.Joint? {
      JointKeepsTracking(p, s, t.(now := e.time), n, e.message);
    }
  }

  lemma {:induction false} OperatingKeepsTracking(p: Settings, s: State, events: seq<Event>)
    requires Tracking(s, s, 0) && Runs(p, s, events) && AllOperating(events)
    ensures Tracking(s, After(p, s, events), Messages(events))
  {
    hide Tracking, Next;
    if events == [] {
    } else {
      var init, e := events[..|events| - 1], events[|events| - 1];
      OperatingKeepsTracking(p, s, init);
      StepKeepsTracking(p, s, After(p, s, init), Messages(init), e);
    }
  }

  // ---------------------------------------------------------------- from the initial state

  /** A state was never received in the future. */
  lemma {:induction false} StateIsPast(p: Settings, s: State, events: seq<Event>)
    requires Initial(s) && Runs(p, s, events)
    ensures After(p, s, events).received ==> After(p, s, events).lastState <= After(p, s, events).now
  {
    hide Next;
    if events == [] {
    } else {
      StateIsPast(p, s, events[..|events| - 1]);
      StateStaysPast(p, After(p, s, events[..|events| - 1]), events[|events| - 1]);
    }
  }

  lemma StateStaysPast(p: Settings, s: State, e: Event)
    requires (s.received ==> s.lastState <= s.now) && Enabled(s, e)
    ensures Next(p, s, e).0.received ==> Next(p, s, e).0.lastState <= Next(p, s, e).0.now
  {
    hide Parse, Jumps, Stale;
  }

  /** The hardware right after an activation. */
  predicate FreshlyActivated(s: State) {
    && s.received && s.active && !s.fault && s.lastState <= s.now
    && s.hwPositions == ZERO && s.offsets == s.positions
  }

  /** `history` ends with an activation that succeeds. */
  predicate EndsActivated(p: Settings, s: State, history: seq<Event>) {
    && Initial(s) && Runs(p, s, history)
    && history != [] && history[|history| - 1].Activate?
    && Next(p, After(p, s, history[..|history| - 1]), history[|history| - 1]).1.ok
  }

  lemma ActivationIsFresh(p: Settings, s: State, history: seq<Event>)
    requires EndsActivated(p, s, history)
    ensures FreshlyActivated(After(p, s, history))
  {
    var init, e := history[..|history| - 1], history[|history| - 1];
    StateIsPast(p, s, init);
    assert Enabled(After(p, s, init), e);
    FreshAfter(p, After(p, s, init), e);
    hide Next;
  }

  lemma FreshAfter(p: Settings, s: State, e: Event)
    requires (s.received ==> s.lastState <= s.now) && Enabled(s, e) && e.Activate? && Next(p, s, e).1.ok
    ensures FreshlyActivated(Next(p, s, e).0)
  {
  }

  lemma FreshStartsTracking(s: State)
    requires FreshlyActivated(s)
    ensures Tracking(s, s, 0)
  {
  }

  /** In every run, the position the controller reads has moved, since the last activation, by no more
      than the speed limit over the time since the last state before it, plus the slack of each message. */
  lemma ExposedPositionBounded(p: Settings, s: State, history: seq<Event>, events: seq<Event>)
    requires EndsActivated(p, s, history)
    requires Runs(p, After(p, s, history), events) && AllOperating(events)
    ensures var t := After(p, s, history);
            var u := After(p, t, events);
            WheelsWithin(u.hwPositions, Allowance(u.lastState - t.lastState, Messages(events)))
  {
    ActivationIsFresh(p, s, history);
    FreshStartsTracking(After(p, s, history));
    OperatingKeepsTracking(p, After(p, s, history), events);
    hide Within, After, Runs;
  }

  /** The bound that counts only the time since activation. */
  ghost predicate BoundedSinceActivation(p: Settings, s: State) {
    forall events :: Runs(p, s, events) && AllOperating(events) ==>
      WheelsWithin(After(p, s, events).hwPositions, Allowance(After(p, s, events).now - s.now, Messages(events)))
  }

  /** A first message that uses up all that is allowed since the last one. */
  function Leap(p: Settings, s: State): seq<Event> {
    var dx := MAX_SPEED * (s.now - s.lastState) + SLACK;
    var m := JointState(p.joints, [Finite(s.positions[0] + dx), Finite(s.positions[1])], [Finite(0.0), Finite(0.0)]);
    [Joint(s.now, m), Read(s.now)]
  }

  lemma LeapIsExposed(p: Settings, s: State)
    requires FreshlyActivated(s) && s.running && p.joints[0] != p.joints[1]
    requires 0.0 < p.stateTimeout && s.now - s.lastState <= p.stateTimeout
    ensures Runs(p, s, Leap(p, s)) && AllOperating(Leap(p, s)) && Messages(Leap(p, s)) == 1
    ensures After(p, s, Leap(p, s)).now == s.now
    ensures After(p, s, Leap(p, s)).hwPositions[0] == MAX_SPEED * (s.now - s.lastState) + SLACK
  {
    var events := Leap(p, s);
    var m := events[0].message;
    assert events[..1] == [events[0]] && events[..2] == events;
    AfterOneMore(p, s, [], events[0]);
    AfterOneMore(p, s, [events[0]], events[1]);
    assert [] + [events[0]] == [events[0]] && [events[0]] + [events[1]] == events;
    assert Messages([events[0]]) == 1 by { assert [events[0]][..0] == []; }
    LeapParses(p, m);
    var t := After(p, s, [events[0]]);
    assert t == AfterJoint(p, s, m);
    assert !Jumps(s.lastState, s.positions, t.positions, p.stateTimeout, s.now);
  }

  lemma LeapParses(p: Settings, m: JointState)
    requires p.joints[0] != p.joints[1] && m.name == p.joints
    requires |m.position| == 2 && |m.velocity| == 2 && m.position[0].Finite? && m.position[1].Finite?
    requires m.velocity[0].Finite? && m.velocity[1].Finite?
    ensures Parse(p.joints, m) ==
              Some(([m.position[0].v, m.position[1].v], [m.velocity[0].v, m.velocity[1].v]))
  {
    assert m.name[1..][0] == p.joints[1];
    assert IndexOf(m.name, p.joints[0]) == Some(0);
    assert IndexOf(m.name, p.joints[1]) == Some(1);
  }

  /** An activation that ends with a state already too old exposes no motion at all: whatever comes
      first latches the fault. */
  predicate AtRest(s: State, t: State) {
    && t.hwPositions == ZERO && t.active && t.received && s.now <= t.now
    && (t.fault || t.lastState == s.lastState)
  }

  lemma StepStaysAtRest(p: Settings, s: State, t: State, e: Event)
    requires AtRest(s, t) && Operating(e) && t.now <= e.time && s.now - s.lastState > p.stateTimeout
    ensures AtRest(s, Next(p, t, e).0)
  {
    hide Parse, AfterStop, Distance;
  }

  lemma {:induction false} StaysAtRest(p: Settings, s: State, events: seq<Event>)
    requires FreshlyActivated(s) && s.now - s.lastState > p.stateTimeout
    requires Runs(p, s, events) && AllOperating(events)
    ensures AtRest(s, After(p, s, events))
  {
    hide Next;
    if events == [] {
    } else {
      var init, e := events[..|events| - 1], events[|events| - 1];
      StaysAtRest(p, s, init);
      StepStaysAtRest(p, s, After(p, s, init), e);
    }
  }

  lemma AllowanceCoversRest(seconds: real, n: nat)
    requires seconds >= 0.0
    ensures WheelsWithin(ZERO, Allowance(seconds, n))
  {
  }

  /** What tracking promises, once no time has passed since the last state. */
  lemma TrackingIsBounded(s: State, t: State, n: nat)
    requires Tracking(s, t, n) && s.lastState == s.now
    ensures WheelsWithin(t.hwPositions, Allowance(t.now - s.now, n))
  {
  }

  /** That bound holds after an activation exactly when its last state came at the very moment the
      activation was done, or was already too old by then: otherwise the first message may use up the
      time before the activation as well. */
  lemma BoundedSinceActivationExactly(p: Settings, s0: State, history: seq<Event>)
    requires EndsActivated(p, s0, history) && After(p, s0, history).running
    requires p.joints[0] != p.joints[1] && 0.0 < p.stateTimeout
    ensures var s := After(p, s0, history);
            BoundedSinceActivation(p, s) <==> s.lastState == s.now || s.now - s.lastState > p.stateTimeout
  {
    ActivationIsFresh(p, s0, history);
    var s := After(p, s0, history);
    hide Next, Leap, Runs, After, EndsActivated;
    if s.lastState == s.now || s.now - s.lastState > p.stateTimeout {
      forall events | Runs(p, s, events) && AllOperating(events)
        ensures WheelsWithin(After(p, s, events).hwPositions,
                             Allowance(After(p, s, events).now - s.now, Messages(events)))
      {
        BoundedRun(p, s, events);
      }
    } else {
      LeapIsExposed(p, s);
    }
  }

  lemma BoundedRun(p: Settings, s: State, events: seq<Event>)
    requires FreshlyActivated(s) && Runs(p, s, events) && AllOperating(events)
    requires s.lastState == s.now || s.now - s.lastState > p.stateTimeout
    ensures WheelsWithin(After(p, s, events).hwPositions,
                         Allowance(After(p, s, events).now - s.now, Messages(events)))
  {
    hide Next, Runs, After, WheelsWithin;
    if s.lastState == s.now {
      FreshStartsTracking(s);
      OperatingKeepsTracking(p, s, events);
      TrackingIsBounded(s, After(p, s, events), Messages(events));
    } else {
      StaysAtRest(p, s, events);
      AllowanceCoversRest(After(p, s, events).now - s.now, Messages(events));
    }
  }
}
