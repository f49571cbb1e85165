/** The wheel hardware told by its history alone: what latches the fault, what reaches the motors, and
    what the controller reads, in terms of the events of a run. */
module DiffBotHistory {
  import opened Common
  import opened DiffBotSystem
  import opened DiffBotTheorems

  // ---------------------------------------------------------------- messages

  /** `name` stands at position `k`, and at none before. */
  predicate FirstAt(names: seq<string>, name: string, k: int) {
    0 <= k < |names| && names[k] == name && forall l :: 0 <= l < k ==> names[l] != name
  }

  /** The message gives this position and velocity for one wheel. */
  ghost predicate Tells(m: JointState, wheel: string, position: real, velocity: real) {
    && |m.name| == 2 && |m.position| == 2 && |m.velocity| == 2
    && exists k :: FirstAt(m.name, wheel, k) && m.position[k] == Finite(position) && m.velocity[k] == Finite(velocity)
  }

  lemma {:induction false} IndexIsFirst(names: seq<string>, name: string)
    ensures IndexOf(names, name).None? <==> name !in names
    ensures forall k :: FirstAt(names, name, k) <==> IndexOf(names, name) == Some(k)
  {
    if names == [] {
    } else {
      IndexIsFirst(names[1..], name);
      var rest := IndexOf(names[1..], name);
      assert forall k :: 0 < k < |names| ==> names[k] == names[1..][k - 1];
      forall k | FirstAt(names, name, k) ensures IndexOf(names, name) == Some(k) {
        if k > 0 {
          assert FirstAt(names[1..], name, k - 1);
        }
      }
      if names[0] != name && rest.Some? {
        assert FirstAt(names[1..], name, rest.value);
        assert FirstAt(names, name, rest.value + 1);
      }
    }
  }

  /** A message is understood exactly if it tells both wheels' position and velocity, in whatever order
      it lists them. */
  lemma ParseExactly(joints: Joints, m: JointState, positions: Wheels, velocities: Wheels)
    ensures Parse(joints, m) == Some((positions, velocities)) <==>
            Tells(m, joints[0], positions[0], velocities[0]) && Tells(m, joints[1], positions[1], velocities[1])
  {
    IndexIsFirst(m.name, joints[0]);
    IndexIsFirst(m.name, joints[1]);
    hide IndexOf, FirstAt;
    assert positions == [positions[0], positions[1]] && velocities == [velocities[0], velocities[1]];
  }

  /** Listing the two wheels the other way round changes nothing. */
  lemma ParseSwapped(joints: Joints, m: JointState)
    requires |m.name| == 2 && |m.position| == 2 && |m.velocity| == 2 && m.name[0] != m.name[1]
    ensures Parse(joints, m) == Parse(joints, JointState([m.name[1], m.name[0]], [m.position[1], m.position[0]],
                                                         [m.velocity[1], m.velocity[0]]))
  {
    FindOfTwo(m.name, joints[0]);
    FindOfTwo(m.name, joints[1]);
    FindOfTwo([m.name[1], m.name[0]], joints[0]);
    FindOfTwo([m.name[1], m.name[0]], joints[1]);
    hide IndexOf;
  }

  lemma FindOfTwo(names: seq<string>, name: string)
    requires |names| == 2
    ensures IndexOf(names, name) ==
              if names[0] == name then Some(0) else if names[1] == name then Some(1) else None
  {
    assert names[1..][0] == names[1] && names[1..][1..] == [];
  }

  // ---------------------------------------------------------------- the history

  /** A state message that was understood. */
  datatype Heard = Heard(time: real, positions: Wheels, velocities: Wheels)

  /** The last message understood since the last configuration. */
  function LastHeard(p: Settings, events: seq<Event>): Option<Heard> {
    if events == [] then None
    else
      match events[|events| - 1]
      case Configure(_, _) => None
      case Joint(time, m) =>
        var r := Parse(p.joints, m);
        if r.Some? then Some(Heard(time, r.value.0, r.value.1)) else LastHeard(p, events[..|events| - 1])
      case _ => LastHeard(p, events[..|events| - 1])
  }

  predicate TooOld(heard: Option<Heard>, now: real, timeout: real) {
    heard.None? || now - heard.value.time > timeout
  }

  predicate FarFrom(a: real, b: real, limit: real) {
    a - b > limit || b - a > limit
  }

  /** A message that comes too late, or moves a wheel farther than 20 rad/s and 0.1 rad allow. */
  predicate Leaps(heard: Heard, now: real, positions: Wheels, timeout: real) {
    var allowed := 20.0 * (now - heard.time) + 0.1;
    || now - heard.time > timeout
    || FarFrom(positions[0], heard.positions[0], allowed)
    || FarFrom(positions[1], heard.positions[1], allowed)
  }

  /** Activating after `events` at this time succeeds. */
  ghost predicate Accepts(p: Settings, events: seq<Event>, time: real)
    decreases |events|, 2
  {
    && !Faulted(p, events)
    && LastHeard(p, events).Some? && time - LastHeard(p, events).value.time < p.stateTimeout
  }

  /** The hardware is in operation: activated, and not stopped since. */
  ghost predicate Working(p: Settings, events: seq<Event>)
    decreases |events|, 1
  {
    events != [] &&
    var before := events[..|events| - 1];
    match events[|events| - 1]
    case Activate(time, _) => Accepts(p, before, time) || Working(p, before)
    case Configure(_, _) => false
    case Deactivate(_) => false
    case Teardown(_) => false
    case _ => Working(p, before)
  }

  /** What the controller has requested: nothing right after an activation. */
  ghost function Requested(p: Settings, events: seq<Event>): Commands
    decreases |events|, 1
  {
    if events == [] then NO_COMMAND
    else
      var before := events[..|events| - 1];
      match events[|events| - 1]
      case Control(_, request) => request
      case Activate(time, _) => if Accepts(p, before, time) then NO_COMMAND else Requested(p, before)
      case _ => Requested(p, before)
  }

  predicate AllFinite(c: Commands) {
    c[0].Finite? && c[1].Finite?
  }

  /** A write after `events` takes effect. */
  ghost predicate Obeys(p: Settings, events: seq<Event>)
    decreases |events|, 2
  {
    Working(p, events) && !Faulted(p, events) && AllFinite(Requested(p, events))
  }

  /** When the command in force was given: by the last write that took effect, or by activation. */
  ghost function LastCommanded(p: Settings, events: seq<Event>): real
    decreases |events|, 1
  {
    if events == [] then 0.0
    else
      var before := events[..|events| - 1];
      match events[|events| - 1]
      case Activate(time, done) => if Accepts(p, before, time) then done else LastCommanded(p, before)
      case Write(time) => if Obeys(p, before) then time else LastCommanded(p, before)
      case _ => LastCommanded(p, before)
  }

  /** Event `e` after `events` is a reason to stop for good. */
  ghost predicate Cause(p: Settings, events: seq<Event>, e: Event)
    decreases |events|, 3
  {
    match e
    case ExecutorFails(_) => true
    case Write(_) => !AllFinite(Requested(p, events))
    case Read(time) => Working(p, events) && TooOld(LastHeard(p, events), time, p.stateTimeout)
    case Tick(time) =>
      && Working(p, events)
      && (TooOld(LastHeard(p, events), time, p.stateTimeout) || time - LastCommanded(p, events) > p.commandTimeout)
    case Joint(time, m) =>
      var r := Parse(p.joints, m);
      && Working(p, events) && r.Some? && LastHeard(p, events).Some?
      && Leaps(LastHeard(p, events).value, time, r.value.0, p.stateTimeout)
    case _ => false
  }

  /** There was such a reason, and no configuration since. */
  ghost predicate Faulted(p: Settings, events: seq<Event>)
    decreases |events|, 0
  {
    exists k :: 0 <= k < |events| && Cause(p, events[..k], events[k]) && NotConfiguredAfter(events, k)
  }

  predicate NotConfiguredAfter(events: seq<Event>, k: int) {
    forall j :: 0 <= j < |events| && k < j ==> !events[j].Configure?
  }

  /** The command in force: the request last written since the last activation or stop. */
  ghost function InForce(p: Settings, events: seq<Event>): Wheels {
    if events == [] then ZERO
    else
      var before := events[..|events| - 1];
      match events[|events| - 1]
      case Write(_) =>
        if Obeys(p, before) then [Requested(p, before)[0].v, Requested(p, before)[1].v]
        else if Faulted(p, events) then ZERO
        else InForce(p, before)
      case Activate(time, _) => if Accepts(p, before, time) then ZERO else InForce(p, before)
      case Configure(_, _) => ZERO
      case Deactivate(_) => ZERO
      case Teardown(_) => ZERO
      case _ => InForce(p, before)
  }

  /** Where the wheels stood at the last activation. */
  ghost function Origin(p: Settings, events: seq<Event>): Wheels {
    if events == [] then ZERO
    else
      var before := events[..|events| - 1];
      match events[|events| - 1]
      case Activate(time, _) => if Accepts(p, before, time) then LastHeard(p, before).value.positions
                                else Origin(p, before)
      case _ => Origin(p, before)
  }

  /** The node and its publisher exist. */
  function Running(events: seq<Event>): bool {
    events != [] &&
    match events[|events| - 1]
    case Configure(_, creation) => creation.Made?
    case Teardown(_) => false
    case _ => Running(events[..|events| - 1])
  }

  // ---------------------------------------------------------------- the state follows the history

  /** The hardware's fields say what the history says. */
  ghost predicate Follows(p: Settings, events: seq<Event>, s: State) {
    && s.running == Running(events)
    && (s.active <==> Working(p, events)) && (s.fault <==> Faulted(p, events))
    && s.hwCommands == Requested(p, events) && s.commands == InForce(p, events)
    && HeardAs(LastHeard(p, events), s)
    && (s.active ==> s.received && s.lastCommand == LastCommanded(p, events) && s.offsets == Origin(p, events))
  }

  predicate HeardAs(heard: Option<Heard>, s: State) {
    && (s.received <==> heard.Some?)
    && (s.received ==> heard == Some(Heard(s.lastState, s.positions, s.velocities)))
  }

  lemma FaultedGrows(p: Settings, events: seq<Event>, e: Event)
    ensures Faulted(p, events + [e]) <==> !e.Configure? && (Faulted(p, events) || Cause(p, events, e))
  {
    hide Cause, Faulted;
    if Faulted(p, events + [e]) {
      FaultCameFrom(p, events, e);
    }
    if Faulted(p, events) && !e.Configure? {
      FaultStays(p, events, e);
    }
    if Cause(p, events, e) {
      ConfigureIsNoCause(p, events, e);
      FaultBegins(p, events, e);
    }
  }

  lemma FaultIs(p: Settings, events: seq<Event>, k: int)
    requires 0 <= k < |events| && Cause(p, events[..k], events[k]) && NotConfiguredAfter(events, k)
    ensures Faulted(p, events)
  {
    hide Cause, NotConfiguredAfter;
  }

  lemma SamePast(events: seq<Event>, e: Event, k: int)
    requires 0 <= k < |events|
    ensures (events + [e])[..k] == events[..k] && (events + [e])[k] == events[k]
    ensures NotConfiguredAfter(events + [e], k) <==> NotConfiguredAfter(events, k) && !e.Configure?
  {
    var all := events + [e];
    assert all[|events|] == e && forall j :: 0 <= j < |events| ==> all[j] == events[j];
  }

  lemma FaultCameFrom(p: Settings, events: seq<Event>, e: Event)
    requires Faulted(p, events + [e])
    ensures !e.Configure? && (Faulted(p, events) || Cause(p, events, e))
  {
    hide Cause, NotConfiguredAfter;
    var all := events + [e];
    var k :| 0 <= k < |all| && Cause(p, all[..k], all[k]) && NotConfiguredAfter(all, k);
    if k < |events| {
      SamePast(events, e, k);
      FaultIs(p, events, k);
    } else {
      assert all[..k] == events && all[k] == e;
      ConfigureIsNoCause(p, events, e);
    }
  }

  lemma FaultStays(p: Settings, events: seq<Event>, e: Event)
    requires Faulted(p, events) && !e.Configure?
    ensures Faulted(p, events + [e])
  {
    hide Cause, NotConfiguredAfter;
    var k :| 0 <= k < |events| && Cause(p, events[..k], events[k]) && NotConfiguredAfter(events, k);
    SamePast(events, e, k);
    FaultIs(p, events + [e], k);
  }

  lemma FaultBegins(p: Settings, events: seq<Event>, e: Event)
    requires Cause(p, events, e)
    ensures Faulted(p, events + [e])
  {
    hide Cause;
    var all := events + [e];
    assert all[..|events|] == events && all[|events|] == e;
    FaultIs(p, all, |events|);
  }

  lemma ConfigureIsNoCause(p: Settings, events: seq<Event>, e: Event)
    requires Cause(p, events, e)
    ensures !e.Configure?
  {
  }

  lemma InitialFollows(p: Settings, s: State)
    requires Initial(s)
    ensures Follows(p, [], s)
  {
  }

  lemma StepFollows(p: Settings, events: seq<Event>, s: State, e: Event)
    requires Follows(p, events, s) && Enabled(s, e)
    ensures Follows(p, events + [e], Next(p, s, e).0)
  {
    hide Follows, Next, Enabled;
    match e
    case Activate(_, _) => ActivateFollows(p, events, s, e);
    case Joint(_, _) => JointFollows(p, events, s, e);
    case Tick(_) => WatchFollows(p, events, s, e);
    case Read(_) => WatchFollows(p, events, s, e);
    case Write(_) => WriteFollows(p, events, s, e);
    case Control(_, _) => OtherFollows(p, events, s, e);
    case ExecutorFails(_) => OtherFollows(p, events, s, e);
    case _ => StopFollows(p, events, s, e);
  }

  lemma OneMore(events: seq<Event>, e: Event)
    ensures (events + [e])[..|events + [e]| - 1] == events && (events + [e])[|events + [e]| - 1] == e
  {
  }

  lemma ActivateHistory(p: Settings, events: seq<Event>, e: Event)
    requires e.Activate?
    ensures var all, taken := events + [e], Accepts(p, events, e.time);
            && (Working(p, all) <==> taken || Working(p, events))
            && Requested(p, all) == (if taken then NO_COMMAND else Requested(p, events))
            && InForce(p, all) == (if taken then ZERO else InForce(p, events))
            && LastCommanded(p, all) == (if taken then e.done else LastCommanded(p, events))
            && (taken ==> LastHeard(p, events).Some? && Origin(p, all) == LastHeard(p, events).value.positions)
            && (!taken ==> Origin(p, all) == Origin(p, events))
            && LastHeard(p, all) == LastHeard(p, events) && Running(all) == Running(events)
  {
    OneMore(events, e);
    hide Faulted;
  }

  lemma ActivateFollows(p: Settings, events: seq<Event>, s: State, e: Event)
    requires Follows(p, events, s) && Enabled(s, e) && e.Activate?
    ensures Follows(p, events + [e], Next(p, s, e).0)
  {
    FaultedGrows(p, events, e);
    ActivateHistory(p, events, e);
    hide Faulted, Working, Requested, InForce, LastCommanded, Origin, Running, LastHeard;
  }

  lemma JointFollows(p: Settings, events: seq<Event>, s: State, e: Event)
    requires Follows(p, events, s) && Enabled(s, e) && e.Joint?
    ensures Follows(p, events + [e], Next(p, s, e).0)
  {
    OneMore(events, e);
    FaultedGrows(p, events, e);
    hide Faulted, Parse, Accepts, Obeys;
  }

  lemma WatchFollows(p: Settings, events: seq<Event>, s: State, e: Event)
    requires Follows(p, events, s) && Enabled(s, e) && (e.Tick? || e.Read?)
    ensures Follows(p, events + [e], Next(p, s, e).0)
  {
    OneMore(events, e);
    FaultedGrows(p, events, e);
    hide Faulted, Parse, Accepts, Obeys;
  }

  lemma WriteHistory(p: Settings, events: seq<Event>, e: Event)
    requires e.Write?
    ensures var all, done := events + [e], Obeys(p, events);
            && (Working(p, all) <==> Working(p, events)) && Requested(p, all) == Requested(p, events)
            && (done ==> AllFinite(Requested(p, events)) && LastCommanded(p, all) == e.time)
            && (done ==> InForce(p, all) == [Requested(p, events)[0].v, Requested(p, events)[1].v])
            && (!done ==> LastCommanded(p, all) == LastCommanded(p, events))
            && (!done ==> InForce(p, all) == if Faulted(p, all) then ZERO else InForce(p, events))
            && Origin(p, all) == Origin(p, events)
            && LastHeard(p, all) == LastHeard(p, events) && Running(all) == Running(events)
  {
    OneMore(events, e);
    hide Faulted;
  }

  lemma WriteFollows(p: Settings, events: seq<Event>, s: State, e: Event)
    requires Follows(p, events, s) && Enabled(s, e) && e.Write?
    ensures Follows(p, events + [e], Next(p, s, e).0)
  {
    FaultedGrows(p, events, e);
    WriteHistory(p, events, e);
    hide Faulted, Working, Requested, InForce, LastCommanded, Origin, Running, LastHeard;
  }

  lemma OtherFollows(p: Settings, events: seq<Event>, s: State, e: Event)
    requires Follows(p, events, s) && Enabled(s, e) && (e.Control? || e.ExecutorFails?)
    ensures Follows(p, events + [e], Next(p, s, e).0)
  {
    OneMore(events, e);
    FaultedGrows(p, events, e);
    hide Faulted, Parse, Accepts, Obeys;
  }

  lemma StopFollows(p: Settings, events: seq<Event>, s: State, e: Event)
    requires Follows(p, events, s) && Enabled(s, e) && (e.Configure? || e.Deactivate? || e.Teardown?)
    ensures Follows(p, events + [e], Next(p, s, e).0)
  {
    OneMore(events, e);
    FaultedGrows(p, events, e);
    hide Faulted, Parse, Accepts, Obeys;
  }

  lemma {:induction false} HistoryHolds(p: Settings, s: State, events: seq<Event>)
    requires Initial(s) && Runs(p, s, events)
    ensures Follows(p, events, After(p, s, events))
  {
    hide Follows, Next, Enabled, Initial;
    if events == [] {
      InitialFollows(p, s);
    } else {
      var init, e := events[..|events| - 1], events[|events| - 1];
      HistoryHolds(p, s, init);
      StepFollows(p, init, After(p, s, init), e);
      assert events == init + [e];
    }
  }

  // ---------------------------------------------------------------- what follows

  /** In every run the fault is latched exactly if there was a reason for it and no configuration since:
      a command tick in operation with the last state or the last command too old, a read with a state
      too old, a message that is late or leaps, a write of a request that is not finite, or a failed
      executor. */
  lemma FaultExactly(p: Settings, s: State, events: seq<Event>)
    requires Initial(s) && Runs(p, s, events)
    ensures After(p, s, events).fault <==>
            exists k :: 0 <= k < |events| && Cause(p, events[..k], events[k]) && NotConfiguredAfter(events, k)
  {
    HistoryHolds(p, s, events);
    hide Cause, Working, Requested, InForce, LastHeard, LastCommanded, Origin, Running, Runs, After;
  }

  /** After such a reason, until the next configuration: nothing but zero is published, and reading,
      writing and activating fail. */
  lemma CauseSilences(p: Settings, s: State, events: seq<Event>, k: nat, n: nat)
    requires k < n < |events| && Initial(s) && Runs(p, s, events[..n])
    requires Cause(p, events[..k], events[k])
    requires forall j :: k < j <= n ==> !events[j].Configure?
    ensures var (t, out) := Next(p, After(p, s, events[..n]), events[n]);
            && t.fault
            && (forall m :: m in out.published ==> m == ZERO)
            && (events[n].Activate? || events[n].Read? || events[n].Write? ==> !out.ok)
  {
    var before := events[..n];
    assert before[..k] == events[..k] && before[k] == events[k] && NotConfiguredAfter(before, k);
    hide Cause, Next, Initial, After, Runs, NotConfiguredAfter;
    FaultExactly(p, s, before);
    FaultStep(p, After(p, s, before), events[n]);
  }

  /** A command tick publishes the request last written since activation, as long as there is no
      reason to stop, and zero otherwise. */
  lemma TickExactly(p: Settings, s: State, events: seq<Event>, e: Event)
    requires Initial(s) && Runs(p, s, events + [e]) && e.Tick?
    ensures Next(p, After(p, s, events), e).1.published ==
              [if Working(p, events) && !Faulted(p, events + [e]) then InForce(p, events) else ZERO]
  {
    AfterOneMore(p, s, events, e);
    HistoryHolds(p, s, events);
    FaultedGrows(p, events, e);
    hide Follows, Next, Cause, Faulted, Working, Requested, InForce, LastHeard, Origin, Runs, After, Initial;
    TickOf(p, events, After(p, s, events), e);
  }

  lemma TickOf(p: Settings, events: seq<Event>, s: State, e: Event)
    requires Follows(p, events, s) && e.Tick?
    ensures Next(p, s, e).1.published ==
              [if Working(p, events) && !Faulted(p, events) && !Cause(p, events, e) then InForce(p, events) else ZERO]
  {
    hide Faulted, Working, Requested, InForce, LastHeard, LastCommanded, Origin, Running;
  }

  /** A read succeeds exactly while there is no reason to stop; the controller then sees how far the last
      message's positions are from those at activation, and its velocities. */
  lemma ReadExactly(p: Settings, s: State, events: seq<Event>, e: Event)
    requires Initial(s) && Runs(p, s, events + [e]) && e.Read?
    ensures var (t, out) := Next(p, After(p, s, events), e);
            && (out.ok <==> !Faulted(p, events + [e]))
            && (out.ok && Working(p, events) ==>
                  && LastHeard(p, events).Some?
                  && var heard, origin := LastHeard(p, events).value, Origin(p, events);
                     && t.hwVelocities == heard.velocities
                     && t.hwPositions == [heard.positions[0] - origin[0], heard.positions[1] - origin[1]])
  {
    AfterOneMore(p, s, events, e);
    HistoryHolds(p, s, events);
    FaultedGrows(p, events, e);
    hide Follows, Next, Cause, Faulted, Working, Requested, InForce, LastHeard, Origin, Runs, After, Initial;
    ReadOf(p, events, After(p, s, events), e);
  }

  lemma ReadOf(p: Settings, events: seq<Event>, s: State, e: Event)
    requires Follows(p, events, s) && e.Read?
    ensures var (t, out) := Next(p, s, e);
            && (out.ok <==> !Faulted(p, events) && !Cause(p, events, e))
            && (out.ok && Working(p, events) ==>
                  && LastHeard(p, events).Some?
                  && var heard, origin := LastHeard(p, events).value, Origin(p, events);
                     && t.hwVelocities == heard.velocities
                     && t.hwPositions == [heard.positions[0] - origin[0], heard.positions[1] - origin[1]])
  {
    hide Faulted, Working, Requested, InForce, LastHeard, LastCommanded, Origin, Running;
  }

  /** A write succeeds exactly while there is no reason to stop, and then, in operation, puts the request
      in force. */
  lemma WriteExactly(p: Settings, s: State, events: seq<Event>, e: Event)
    requires Initial(s) && Runs(p, s, events + [e]) && e.Write?
    ensures var (t, out) := Next(p, After(p, s, events), e);
            && (out.ok <==> !Faulted(p, events + [e]))
            && (out.ok && Working(p, events) ==>
                  && AllFinite(Requested(p, events)) && t.lastCommand == e.time
                  && t.commands == [Requested(p, events)[0].v, Requested(p, events)[1].v])
  {
    AfterOneMore(p, s, events, e);
    HistoryHolds(p, s, events);
    FaultedGrows(p, events, e);
    hide Follows, Next, Cause, Faulted, Working, Requested, InForce, LastHeard, Origin, Runs, After, Initial;
    WriteOf(p, events, After(p, s, events), e);
  }

  lemma WriteOf(p: Settings, events: seq<Event>, s: State, e: Event)
    requires Follows(p, events, s) && e.Write?
    ensures var (t, out) := Next(p, s, e);
            && (out.ok <==> !Faulted(p, events) && !Cause(p, events, e))
            && (out.ok && Working(p, events) ==>
                  && AllFinite(Requested(p, events)) && t.lastCommand == e.time
                  && t.commands == [Requested(p, events)[0].v, Requested(p, events)[1].v])
  {
    hide Faulted, Working, Requested, InForce, LastHeard, LastCommanded, Origin, Running;
  }

  /** An activation succeeds exactly with a message understood shortly before and no reason to stop. */
  lemma ActivateExactly(p: Settings, s: State, events: seq<Event>, e: Event)
    requires Initial(s) && Runs(p, s, events + [e]) && e.Activate?
    ensures var (t, out) := Next(p, After(p, s, events), e);
            && (out.ok <==> Accepts(p, events, e.time))
            && (out.ok ==> t.active && t.commands == ZERO && t.hwPositions == ZERO && t.hwCommands == NO_COMMAND)
            && (out.ok ==> LastHeard(p, events).Some? && t.hwVelocities == LastHeard(p, events).value.velocities)
            && (!out.ok ==> t == After(p, s, events).(now := e.time))
            && out.published == []
  {
    AfterOneMore(p, s, events, e);
    HistoryHolds(p, s, events);
    hide Faulted, Working, Requested, InForce, LastHeard, LastCommanded, Origin, Running, Runs, After, Initial;
  }

  /** Every stop sends one last zero while the publisher exists, and ends operation. */
  lemma StopExactly(p: Settings, s: State, events: seq<Event>, e: Event)
    requires Initial(s) && Runs(p, s, events + [e]) && (e.Configure? || e.Deactivate? || e.Teardown?)
    ensures var (t, out) := Next(p, After(p, s, events), e);
            var last := if Running(events) then [ZERO] else [];
            && !t.active && t.commands == ZERO
            && out.published == last + (if e.Configure? && e.creation.FailedAfterPublisher? then [ZERO] else [])
            && (out.ok <==> !e.Configure? || e.creation.Made?)
  {
    AfterOneMore(p, s, events, e);
    HistoryHolds(p, s, events);
    hide Faulted, Working, Requested, InForce, LastHeard, LastCommanded, Origin, Running, Runs, After, Initial;
  }
}
