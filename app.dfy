/**
 * The app's module-level session state as one object. Its fields are the
 * `let` variables of the script (the two timer handles reduced to whether
 * they are set), the cycles input field and the page; each method updates
 * them step by step as the script does, and is proved to agree with the
 * state machine in `Sequencer`.
 */
module App {
  import opened Options
  import opened Techniques
  import opened Display
  import opened Sequencer

  class Session {
    var techniques: seq<Technique>
    var current: Option<Technique>
    var running: bool
    var cycleIndex: int
    var phaseIndex: int
    var phaseEndsAt: int
    var phaseTimeoutSet: bool
    var tickIntervalSet: bool
    var cyclesInput: Option<int>
    var view: View

    /** The abstract value of the object. */
    function Model(): State
      reads this
    {
      State(techniques, current, running, cycleIndex, phaseIndex, phaseEndsAt,
            phaseTimeoutSet, tickIntervalSet, cyclesInput, view)
    }

    /** Nothing selected and idle; the cycles field holds `input` and the page is `page`. */
    constructor (input: Option<int>, page: View)
      ensures Model() == Initial(input, page) && Inv(Model())
    {
      techniques, current, running := [], None, false;
      cycleIndex, phaseIndex, phaseEndsAt := 0, 0, 0;
      phaseTimeoutSet, tickIntervalSet := false, false;
      cyclesInput, view := input, page;
    }

    method StopSession()
      modifies this
      ensures Model() == Stop(old(Model()))
      ensures Inv(Model())
    {
      running := false;
      phaseTimeoutSet := false;
      tickIntervalSet := false;
      view := view.(phaseText := "Ready", phaseClass := "phase", timer := Shows("00.0"),
                    cycleText := "Cycle 0 / 0", gradient := IdleGradient);
      view := view.(startDisabled := false, stopDisabled := true);
    }

    /** One nextPhase at clock reading `now`; the outcome says whether the timer is re-armed. */
    method NextPhase(now: int) returns (o: Outcome)
      modifies this
      ensures (Model(), o) == Advance(old(Model()), now)
      ensures old(Inv(Model())) ==> Inv(Model())
    {
      ghost var s0 := Model();
      if !running || current.None? {
        o := Ignored;
        return;
      }
      var steps := current.value.steps;
      if phaseIndex >= |steps| {
        phaseIndex := 0;
        cycleIndex := cycleIndex + 1;
      }
      ghost var w := Model();
      assert w == Wrap(s0);
      if cycleIndex >= current.value.cycles {
        StopSession();
        o := Finished;
        assert Advance(s0, now) == (Stop(w), Finished);
        return;
      }
      if !(0 <= phaseIndex < |steps|) {
        // `steps[phaseIndex]` is undefined and reading its `phase` throws
        o := Fault;
        assert Advance(s0, now) == (w, Fault);
        return;
      }
      assert Advance(s0, now) == Emit(w, now);
      o := ShowPhase(now);
    }

    /** The part of nextPhase that shows step `phaseIndex` and re-arms the phase timer. */
    method ShowPhase(now: int) returns (o: Outcome)
      requires current.Some? && 0 <= phaseIndex < |current.value.steps|
      modifies this
      ensures (Model(), o) == Emit(old(Model()), now)
    {
      ghost var e := Emit(Model(), now);
      var step := current.value.steps[phaseIndex];
      var shown := PhaseLabel(step.phase);
      phaseEndsAt := now + step.seconds * 1000;
      view := view.(phaseText := shown, phaseClass := "phase " + step.phase,
                    timer := CountingDown(phaseEndsAt),
                    cycleText := CycleText(cycleIndex + 1, current.value.cycles));
      o := Emitted(Emission(step, shown, cycleIndex + 1, current.value.cycles));
      phaseIndex := phaseIndex + 1;
      phaseTimeoutSet := true;
      assert e.0.view == view;
    }

    /** startSession at clock reading `now`; returns what its own nextPhase call did. */
    method StartSession(now: int) returns (o: Outcome)
      modifies this
      ensures (Model(), o) == Start(old(Model()), now)
      ensures old(Inv(Model())) ==> Inv(Model())
    {
      if current.None? {
        o := Ignored;
        return;
      }
      ghost var s0 := Model();
      view := view.(gradient := ActiveGradient);
      var cycles := CycleCount(cyclesInput, current.value.cycles);
      current := Some(current.value.(cycles := cycles));
      running := true;
      cycleIndex := 0;
      phaseIndex := 0;
      view := view.(startDisabled := true, stopDisabled := false);
      tickIntervalSet := true;
      assert Model() == Begin(s0);
      o := NextPhase(now);
    }

    method UpdateDuration()
      modifies this
      ensures Model() == Sequencer.UpdateDuration(old(Model()))
      ensures old(Inv(Model())) ==> Inv(Model())
    {
      if current.None? {
        return;
      }
      var cycles := CycleCount(cyclesInput, current.value.cycles);
      var total := TotalSeconds(current.value, cycles);
      view := view.(durationText := "Duration " + FormatDuration(total));
    }

    /** The cycles field's `input` event. */
    method EditCycles(input: Option<int>)
      modifies this
      ensures Model() == Sequencer.EditCycles(old(Model()), input)
      ensures old(Inv(Model())) ==> Inv(Model())
    {
      cyclesInput := input;
      UpdateDuration();
    }

    method SelectTechnique(id: string)
      modifies this
      ensures Model() == Select(old(Model()), id)
      ensures old(Inv(Model())) ==> Inv(Model())
    {
      current := Find(techniques, id);
      if current.None? {
        return;
      }
      view := view.(ratioText := "Ratio " + current.value.ratio);
      cyclesInput := Some(current.value.cycles);
      UpdateDuration();
      StopSession();
    }

    /** loadTechniques once the list has been fetched and parsed. */
    method LoadTechniques(list: seq<Technique>)
      modifies this
      ensures Model() == Load(old(Model()), list)
      ensures old(Inv(Model())) ==> Inv(Model())
    {
      techniques := list;
      if |list| > 0 {
        SelectTechnique(list[0].id);
      }
    }
  }

  /**
   * A session as the browser runs it: startSession at `times[0]`, then
   * each time the phase timer fires (at the later readings) the next
   * nextPhase, for as long as the previous call re-armed the timer.
   */
  method Practice(session: Session, times: seq<int>) returns (outcomes: seq<Outcome>)
    requires 0 < |times|
    modifies session
    ensures (session.Model(), outcomes) == SessionRun(old(session.Model()), times)
  {
    ghost var goal := SessionRun(session.Model(), times);
    var o := session.StartSession(times[0]);
    outcomes := [o];
    var i := 1;
    while o.Emitted? && i < |times|
      invariant 1 <= i <= |times|
      invariant goal ==
        if o.Emitted? then (Run(session.Model(), times[i..]).0, outcomes + Run(session.Model(), times[i..]).1)
        else (session.Model(), outcomes)
      decreases |times| - i
    {
      ghost var before, done := session.Model(), outcomes;
      o := session.NextPhase(times[i]);
      outcomes := outcomes + [o];
      RunStep(before, times, i, done, session.Model(), o);
      i := i + 1;
    }
    if o.Emitted? {
      assert times[i..] == [];
      assert Run(session.Model(), times[i..]) == (session.Model(), []);
      assert outcomes + [] == outcomes;
    }
  }
}
