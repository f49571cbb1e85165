/** The wheel hardware interface: lifecycle, watchdog, and the commands that reach the motors. */
module DiffBotSystem {
  import opened Common

  /** One value per wheel. */
  type Wheels = s: seq<real> | |s| == 2 witness [0.0, 0.0]
  type Joints = s: seq<string> | |s| == 2 witness ["left", "right"]
  type Commands = s: seq<Number> | |s| == 2 witness [Finite(0.0), Finite(0.0)]

  const ZERO: Wheels := [0.0, 0.0]
  const NO_COMMAND: Commands := [Finite(0.0), Finite(0.0)]

  const MAX_SPEED := 20.0
  const SLACK := 0.1

  datatype Settings = Settings(joints: Joints, stateTimeout: real, commandTimeout: real)

  datatype JointState = JointState(name: seq<string>, position: seq<Number>, velocity: seq<Number>)

  datatype State = State(
    running: bool, received: bool, active: bool, fault: bool,
    commands: Wheels, positions: Wheels, velocities: Wheels, offsets: Wheels,
    lastState: real, lastCommand: real,
    hwPositions: Wheels, hwVelocities: Wheels, hwCommands: Commands, now: real)

  /** How far creating the communication node got. */
  datatype Creation = Made | FailedBeforePublisher | FailedAfterPublisher

  /** `time` never runs back. Lifecycle events other than configure and activate always succeed.
      Activation reads the clock a second time, at `done`. */
  datatype Event =
    | Configure(time: real, creation: Creation)
    | Activate(time: real, done: real)
    | Deactivate(time: real)
    | Teardown(time: real)              // cleanup, shutdown and error
    | ExecutorFails(time: real)
    | Joint(time: real, message: JointState)
    | Tick(time: real)                  // the 50 ms command timer
    | Read(time: real)
    | Control(time: real, request: Commands)
    | Write(time: real)

  /** What a step published, in order, and whether it reported success. */
  datatype Output = Output(published: seq<Wheels>, ok: bool)

  const SILENT := Output([], true)
  const FAILED := Output([], false)

  // ---------------------------------------------------------------- the callbacks

  function IndexOf(names: seq<string>, name: string): (r: Option<nat>)
    ensures r.Some? ==> r.value < |names|
  {
    if names == [] then None
    else if names[0] == name then Some(0)
    else
      var rest := IndexOf(names[1..], name);
      if rest.None? then None else Some(rest.value + 1)
  }

  /** The readings of wheel `i`, unless the message names it wrongly or is not finite. */
  function Reading(joints: Joints, m: JointState, i: nat): Option<(real, real)>
    requires i < 2 && |m.name| == |m.position| == |m.velocity| == 2
  {
    var k := IndexOf(m.name, joints[i]);
    if k.None? then None
    else if m.position[k.value].NonFinite? || m.velocity[k.value].NonFinite? then None
    else Some((m.position[k.value].v, m.velocity[k.value].v))
  }

  function Parse(joints: Joints, m: JointState): Option<(Wheels, Wheels)> {
    if !(|m.name| == 2 && |m.position| == 2 && |m.velocity| == 2) then None
    else
      var left, right := Reading(joints, m, 0), Reading(joints, m, 1);
      if left.None? || right.None? then None
      else Some(([left.value.0, right.value.0], [left.value.1, right.value.1]))
  }

  function Distance(a: real, b: real): real {
    if a < b then b - a else a - b
  }

  predicate Jumps(last: real, positions: Wheels, newPositions: Wheels, timeout: real, now: real) {
    var dt := now - last;
    || dt > timeout
    || Distance(newPositions[0], positions[0]) > MAX_SPEED * dt + SLACK
    || Distance(newPositions[1], positions[1]) > MAX_SPEED * dt + SLACK
  }

  function AfterJoint(p: Settings, s: State, m: JointState): State {
    var r := Parse(p.joints, m);
    if r.None? then s else Accept(p, s, r.value.0, r.value.1)
  }

  function Accept(p: Settings, s: State, positions: Wheels, velocities: Wheels): State {
    var jumped := s.active && s.received && Jumps(s.lastState, s.positions, positions, p.stateTimeout, s.now);
    s.(fault := s.fault || jumped, positions := positions, velocities := velocities,
       lastState := s.now, received := true)
  }

  predicate Stale(p: Settings, s: State) {
    !s.received || s.now - s.lastState > p.stateTimeout
  }

  function Publish(p: Settings, s: State): (State, Wheels) {
    var t := s.(fault := s.fault || (s.active && (Stale(p, s) || s.now - s.lastCommand > p.commandTimeout)));
    (t, if t.active && !t.fault then t.commands else ZERO)
  }

  /** The last message goes out only while the publisher exists. */
  function AfterStop(p: Settings, s: State): (State, seq<Wheels>) {
    var t := s.(active := false, commands := ZERO);
    if !t.running then (t, [])
    else
      var (u, m) := Publish(p, t);
      (u, [m])
  }

  /** A failed creation is torn down again, which publishes if the publisher was there. */
  function AfterConfigure(p: Settings, s: State, creation: Creation): (State, Output) {
    var (t, m) := AfterStop(p, s);
    var cleared := t.(received := false, active := false, fault := false, commands := ZERO,
                      running := !creation.FailedBeforePublisher?);
    if creation.Made? then (cleared, Output(m, true))
    else
      var (u, n) := AfterStop(p, cleared);
      (u.(running := false), Output(m + n, false))
  }

  /** The moment the wait for a fresh state ends, with or without one. */
  function AfterActivate(p: Settings, s: State, done: real): (State, Output) {
    var ready := s.fault || (s.received && s.now - s.lastState < p.stateTimeout);
    if !ready || s.fault then (s, FAILED)
    else
      (s.(offsets := s.positions, hwPositions := ZERO, hwVelocities := s.velocities, hwCommands := NO_COMMAND,
          commands := ZERO, lastCommand := done, active := true, now := done), SILENT)
  }

  function AfterRead(p: Settings, s: State): (State, Output) {
    var t := s.(fault := s.fault || (s.active && Stale(p, s)));
    if t.fault then (t, FAILED)
    else if !t.received then (t, SILENT)
    else
      (t.(hwPositions := [t.positions[0] - t.offsets[0], t.positions[1] - t.offsets[1]],
          hwVelocities := t.velocities), SILENT)
  }

  function AfterWrite(s: State): (State, Output) {
    var t := s.(fault := s.fault || s.hwCommands[0].NonFinite? || s.hwCommands[1].NonFinite?);
    if t.fault then (t.(commands := ZERO), FAILED)
    else if !t.active then (t, SILENT)
    else (t.(commands := [t.hwCommands[0].v, t.hwCommands[1].v], lastCommand := t.now), SILENT)
  }

  predicate Enabled(s: State, e: Event) {
    && s.now <= e.time
    && (e.Tick? || e.Joint? || e.ExecutorFails? ==> s.running)
    && (e.Activate? ==> e.time <= e.done)
  }

  function Next(p: Settings, before: State, e: Event): (State, Output) {
    var s := before.(now := e.time);
    match e
    case Configure(_, creation) => AfterConfigure(p, s, creation)
    case Activate(_, done) => AfterActivate(p, s, done)
    case Deactivate(_) =>
      var (t, m) := AfterStop(p, s);
      (t, Output(m, true))
    case Teardown(_) =>
      var (t, m) := AfterStop(p, s);
      (t.(running := false), Output(m, true))
    case ExecutorFails(_) => (s.(fault := true), SILENT)
    case Joint(_, message) => (AfterJoint(p, s, message), SILENT)
    case Tick(_) =>
      var (t, m) := Publish(p, s);
      (t, Output([m], true))
    case Read(_) => AfterRead(p, s)
    case Control(_, request) => (s.(hwCommands := request), SILENT)
    case Write(_) => AfterWrite(s)
  }

  /** Just constructed and initialised. */
  predicate Initial(s: State) {
    && !s.running && !s.received && !s.active && !s.fault
    && s.commands == ZERO && s.hwPositions == ZERO && s.hwVelocities == ZERO && s.hwCommands == NO_COMMAND
  }

  // ---------------------------------------------------------------- the hardware object

  class DiffBotSystemHardware {
    const settings: Settings
    var running: bool
    var receivedState: bool
    var active: bool
    var fault: bool
    var commands: Wheels
    var positions: Wheels
    var velocities: Wheels
    var positionOffsets: Wheels
    var lastState: real
    var lastCommand: real
    var hwPositions: Wheels
    var hwVelocities: Wheels
    var hwCommands: Commands
    ghost var clock: real

    ghost function View(): State
      reads this
    {
      State(running, receivedState, active, fault, commands, positions, velocities, positionOffsets,
            lastState, lastCommand, hwPositions, hwVelocities, hwCommands, clock)
    }

    constructor (settings: Settings, now: real)
      ensures this.settings == settings && Initial(View()) && View().now == now
    {
      this.settings := settings;
      running, receivedState, active, fault := false, false, false, false;
      commands, positions, velocities, positionOffsets := ZERO, ZERO, ZERO, ZERO;
      hwPositions, hwVelocities, hwCommands := ZERO, ZERO, NO_COMMAND;
      lastState, lastCommand, clock := now, now, now;
    }

    method Find(names: seq<string>, name: string) returns (k: nat)
      ensures k <= |names|
      ensures IndexOf(names, name) == if k < |names| then Some(k) else None
    {
      k := 0;
      while k < |names| && names[k] != name
        invariant k <= |names|
        invariant IndexOf(names, name) ==
                    if IndexOf(names[k..], name).None? then None else Some(IndexOf(names[k..], name).value + k)
      {
        k := k + 1;
      }
    }

    method ParseMessage(m: JointState) returns (ok: bool, newPositions: Wheels, newVelocities: Wheels)
      ensures Parse(settings.joints, m) == if ok then Some((newPositions, newVelocities)) else None
    {
      newPositions, newVelocities := ZERO, ZERO;
      if |m.name| != 2 || |m.position| != 2 || |m.velocity| != 2 {
        return false, newPositions, newVelocities;
      }
      var i := 0;
      while i < 2
        invariant 0 <= i <= 2
        invariant forall j :: 0 <= j < i ==> Reading(settings.joints, m, j) == Some((newPositions[j], newVelocities[j]))
      {
        var index := Find(m.name, settings.joints[i]);
        if index == |m.name| {
          return false, newPositions, newVelocities;
        }
        var position, velocity := m.position[index], m.velocity[index];
        if position.NonFinite? || velocity.NonFinite? {
          return false, newPositions, newVelocities;
        }
        newPositions := newPositions[i := position.v];
        newVelocities := newVelocities[i := velocity.v];
        i := i + 1;
      }
      assert newPositions == [newPositions[0], newPositions[1]];
      assert newVelocities == [newVelocities[0], newVelocities[1]];
      assert Reading(settings.joints, m, 1).Some?;
      return true, newPositions, newVelocities;
    }

    /** A reconnect or an encoder reset must not jump the odometry silently. */
    method LatchJump(now: real, newPositions: Wheels)
      modifies this`fault
      ensures fault == (old(fault) || (active && receivedState &&
                        Jumps(lastState, positions, newPositions, settings.stateTimeout, now)))
    {
      if active && receivedState {
        var dt := now - lastState;
        if dt > settings.stateTimeout ||
           Distance(newPositions[0], positions[0]) > 20.0 * dt + 0.1 ||
           Distance(newPositions[1], positions[1]) > 20.0 * dt + 0.1 {
          fault := true;
        }
      }
    }

    method AcceptState(now: real, newPositions: Wheels, newVelocities: Wheels)
      modifies this
      ensures View() == Accept(settings, old(View()).(now := now), newPositions, newVelocities)
    {
      hide Jumps;
      clock := now;
      LatchJump(now, newPositions);
      positions, velocities := newPositions, newVelocities;
      lastState, receivedState := now, true;
    }

    method JointStateCallback(now: real, m: JointState)
      modifies this
      ensures View() == AfterJoint(settings, old(View()).(now := now), m)
    {
      hide Parse, Accept;
      clock := now;
      var ok, newPositions, newVelocities := ParseMessage(m);
      if !ok {
        return;
      }
      AcceptState(now, newPositions, newVelocities);
    }

    method PublishCommand(now: real) returns (message: Wheels)
      modifies this
      ensures (View(), message) == Publish(settings, old(View()).(now := now))
      ensures fault <==> old(fault) || (active && (!receivedState || now - lastState > settings.stateTimeout ||
                                                   now - lastCommand > settings.commandTimeout))
      ensures message == if active && !fault then commands else ZERO
    {
      clock := now;
      message := ZERO;
      if active && (!receivedState || now - lastState > settings.stateTimeout ||
                    now - lastCommand > settings.commandTimeout) {
        fault := true;
      }
      if active && !fault {
        message := commands;
      }
    }

    method StopMotion(now: real) returns (messages: seq<Wheels>)
      modifies this
      ensures (View(), messages) == AfterStop(settings, old(View()).(now := now))
      ensures clock == now
    {
      clock := now;
      active := false;
      commands := ZERO;
      messages := [];
      if running {
        var last := PublishCommand(now);
        messages := [last];
      }
    }

    method OnConfigure(now: real, creation: Creation) returns (o: Output)
      modifies this
      ensures (View(), o) == AfterConfigure(settings, old(View()).(now := now), creation)
    {
      hide AfterStop;
      var messages := StopMotion(now);
      running := false;
      receivedState, active, fault := false, false, false;
      commands := ZERO;
      running := !creation.FailedBeforePublisher?;
      if creation.Made? {
        return Output(messages, true);
      }
      var more := StopMotion(now);
      running := false;
      return Output(messages + more, false);
    }

    method RebaseWheels()
      modifies this`positionOffsets, this`hwPositions, this`hwVelocities, this`hwCommands
      ensures positionOffsets == positions && hwVelocities == velocities
      ensures hwPositions == ZERO && hwCommands == NO_COMMAND
    {
      var i := 0;
      while i < 2
        invariant 0 <= i <= 2
        invariant forall j :: 0 <= j < i ==> positionOffsets[j] == positions[j] && hwVelocities[j] == velocities[j]
        invariant forall j :: 0 <= j < i ==> hwPositions[j] == 0.0 && hwCommands[j] == Finite(0.0)
      {
        positionOffsets := positionOffsets[i := positions[i]];
        hwPositions := hwPositions[i := 0.0];
        hwVelocities := hwVelocities[i := velocities[i]];
        hwCommands := hwCommands[i := Finite(0.0)];
        i := i + 1;
      }
    }

    /** The end of the wait for a state: `now` is when it ends, `done` the later reading. */
    method OnActivate(now: real, done: real) returns (o: Output)
      modifies this
      ensures (View(), o) == AfterActivate(settings, old(View()).(now := now), done)
    {
      clock := now;
      var ready := fault || (receivedState && now - lastState < settings.stateTimeout);
      if !ready || fault {
        return FAILED;
      }
      RebaseWheels();
      commands := ZERO;
      lastCommand := done;
      clock := done;
      active := true;
      return SILENT;
    }

    method ReadState(now: real) returns (o: Output)
      modifies this
      ensures (View(), o) == AfterRead(settings, old(View()).(now := now))
    {
      clock := now;
      if active && (!receivedState || now - lastState > settings.stateTimeout) {
        fault := true;
      }
      if fault {
        return FAILED;
      }
      if receivedState {
        hwPositions := [positions[0] - positionOffsets[0], positions[1] - positionOffsets[1]];
        hwVelocities := velocities;
      }
      return SILENT;
    }

    method CheckCommands()
      modifies this`fault
      ensures fault <==> old(fault) || hwCommands[0].NonFinite? || hwCommands[1].NonFinite?
    {
      var i := 0;
      while i < 2
        invariant 0 <= i <= 2
        invariant fault <==> old(fault) || (i > 0 && hwCommands[0].NonFinite?) || (i > 1 && hwCommands[1].NonFinite?)
      {
        if hwCommands[i].NonFinite? {
          fault := true;
        }
        i := i + 1;
      }
    }

    method WriteCommands(now: real) returns (o: Output)
      modifies this
      ensures (View(), o) == AfterWrite(old(View()).(now := now))
    {
      clock := now;
      CheckCommands();
      if fault {
        commands := ZERO;
        return FAILED;
      }
      if active {
        commands := [hwCommands[0].v, hwCommands[1].v];
        lastCommand := now;
      }
      return SILENT;
    }
  }
}
