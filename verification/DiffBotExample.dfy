/** A run whose first reading after activation jumps by what the time before it allowed. */
module DiffBotExample {
  import opened Common
  import opened DiffBotSystem
  import opened DiffBotTheorems

  const SETTINGS := Settings(["left", "right"], 0.25, 0.25)

  function Message(left: real): JointState {
    JointState(SETTINGS.joints, [Finite(left), Finite(0.0)], [Finite(0.0), Finite(0.0)])
  }

  const START := State(false, false, false, false, ZERO, ZERO, ZERO, ZERO, 0.0, 0.0, ZERO, ZERO, NO_COMMAND, 0.0)
  const CONFIGURED := START.(running := true)
  const HEARD := CONFIGURED.(received := true)
  const ACTIVATED := HEARD.(active := true, lastCommand := 0.125, now := 0.125)
  const JUMPED := ACTIVATED.(positions := [2.5, 0.0], lastState := 0.125)
  const READ := JUMPED.(hwPositions := [2.5, 0.0])

  function History(): seq<Event> {
    [Configure(0.0, Made), Joint(0.0, Message(0.0)), Activate(0.125, 0.125)]
  }

  function Operation(): seq<Event> {
    [Joint(0.125, Message(2.5)), Read(0.125)]
  }

  lemma MessageParses(left: real)
    ensures Parse(SETTINGS.joints, Message(left)) == Some(([left, 0.0], ZERO))
  {
    assert SETTINGS.joints[0] != SETTINGS.joints[1] by {
      assert "left"[0] != "right"[0];
    }
    LeapParses(SETTINGS, Message(left));
  }

  lemma Configures()
    ensures Enabled(START, Configure(0.0, Made)) && Next(SETTINGS, START, Configure(0.0, Made)).0 == CONFIGURED
  {
  }

  lemma Hears()
    ensures Enabled(CONFIGURED, Joint(0.0, Message(0.0)))
    ensures Next(SETTINGS, CONFIGURED, Joint(0.0, Message(0.0))).0 == HEARD
  {
    MessageParses(0.0);
    hide Parse, Message;
  }

  lemma Activates()
    ensures Enabled(HEARD, Activate(0.125, 0.125))
    ensures Next(SETTINGS, HEARD, Activate(0.125, 0.125)) == (ACTIVATED, SILENT)
  {
  }

  lemma Jumping()
    ensures Enabled(ACTIVATED, Joint(0.125, Message(2.5)))
    ensures Next(SETTINGS, ACTIVATED, Joint(0.125, Message(2.5))).0 == JUMPED
  {
    MessageParses(2.5);
    hide Parse, Message;
    assert !Jumps(0.0, ZERO, [2.5, 0.0], 0.25, 0.125);
  }

  lemma Reads()
    ensures Enabled(JUMPED, Read(0.125)) && Next(SETTINGS, JUMPED, Read(0.125)).0 == READ
  {
  }

  lemma HistoryRuns()
    ensures Runs(SETTINGS, START, History()) && After(SETTINGS, START, History()) == ACTIVATED
    ensures EndsActivated(SETTINGS, START, History())
  {
    hide Next, Enabled, Message;
    var h := History();
    assert h[..0] == [] && h[..1] == [h[0]] && h[..2] == [h[0]] + [h[1]] && h == h[..2] + [h[2]];
    Configures();
    Hears();
    Activates();
    AfterOneMore(SETTINGS, START, [], h[0]);
    assert [] + [h[0]] == [h[0]];
    AfterOneMore(SETTINGS, START, [h[0]], h[1]);
    AfterOneMore(SETTINGS, START, h[..2], h[2]);
    assert h[..|h| - 1] == h[..2];
  }

  lemma OperationRuns()
    ensures Runs(SETTINGS, ACTIVATED, Operation()) && After(SETTINGS, ACTIVATED, Operation()) == READ
    ensures AllOperating(Operation()) && Messages(Operation()) == 1
  {
    hide Next, Enabled, Message;
    var o := Operation();
    assert o[..1] == [o[0]] && o == [o[0]] + [o[1]] && [] + [o[0]] == [o[0]];
    Jumping();
    Reads();
    AfterOneMore(SETTINGS, ACTIVATED, [], o[0]);
    AfterOneMore(SETTINGS, ACTIVATED, [o[0]], o[1]);
    assert Messages([o[0]]) == 1 by { assert [o[0]][..0] == []; }
  }

  /** Configured, heard from, activated an eighth of a second later: the next message moves the wheel by
      2.5, of which the time since activation accounts for none and the message for 0.1. */
  lemma JumpFromBeforeActivation()
    ensures EndsActivated(SETTINGS, START, History())
    ensures var s := After(SETTINGS, START, History());
            var t := After(SETTINGS, s, Operation());
            && Runs(SETTINGS, s, Operation()) && AllOperating(Operation())
            && !t.fault && t.hwPositions[0] == 2.5
            && Allowance(t.now - s.now, Messages(Operation())) == 0.1
    ensures !BoundedSinceActivation(SETTINGS, After(SETTINGS, START, History()))
  {
    hide Runs, After, EndsActivated, AllOperating, Messages, Operation, History;
    HistoryRuns();
    OperationRuns();
  }
}
