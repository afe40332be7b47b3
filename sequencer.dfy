/**
 * The breathing phase sequencer as a pure state machine. `State` holds the
 * module-level variables of the app (`techniques`, `current`, `running`,
 * `cycleIndex`, `phaseIndex`, `phaseEndsAt`, whether `phaseTimeout` and
 * `tickInterval` hold a timer) together with the cycles input field and
 * the text the page shows. Each operation of the app is a function from
 * the old state to the new one; nextPhase also says what it emitted.
 */
module Sequencer {
  import opened Options
  import opened Text
  import opened Techniques
  import opened Display

  /** The countdown display: a fixed text, or the time left until `endsAt` (milliseconds). */
  datatype TimerView = Shows(text: string) | CountingDown(endsAt: int)

  datatype Gradient = IdleGradient | ActiveGradient

  /** What the page shows. */
  datatype View = View(
    phaseText: string,
    phaseClass: string,
    timer: TimerView,
    cycleText: string,
    gradient: Gradient,
    startDisabled: bool,
    stopDisabled: bool,
    ratioText: string,
    durationText: string)

  datatype State = State(
    techniques: seq<Technique>,
    current: Option<Technique>,
    running: bool,
    cycleIndex: int,
    phaseIndex: int,
    phaseEndsAt: int,
    phaseTimeoutSet: bool,
    tickIntervalSet: bool,
    cyclesInput: Option<int>,
    view: View)

  /** One phase shown by nextPhase: the step, its label and the cycle counter `cycle / cycles`. */
  datatype Emission = Emission(step: Step, phaseLabel: string, cycle: int, cycles: int)

  /**
   * What one call of nextPhase did: nothing (not running or no technique),
   * ended the session, showed a phase and re-armed its timer, or threw
   * because `steps[phaseIndex]` is undefined.
   */
  datatype Outcome = Ignored | Finished | Emitted(emission: Emission) | Fault

  /** The idle page that stopSession leaves. */
  predicate IdleView(v: View) {
    v.phaseText == "Ready" && v.phaseClass == "phase" && v.timer == Shows("00.0") &&
    v.cycleText == "Cycle 0 / 0" && v.gradient == IdleGradient &&
    !v.startDisabled && v.stopDisabled
  }

  /** The state before any technique is loaded; the page starts as `page`. */
  function Initial(input: Option<int>, page: View): (r: State)
    ensures r.techniques == [] && r.current.None? && !r.running && !r.phaseTimeoutSet && !r.tickIntervalSet
    ensures r.cyclesInput == input && r.view == page
    ensures Inv(r)
  {
    State([], None, false, 0, 0, 0, false, false, input, page)
  }

  /** stopSession: not running, both timers cleared, the idle page; nothing else changes. */
  function Stop(s: State): (r: State)
    ensures !r.running && !r.phaseTimeoutSet && !r.tickIntervalSet && IdleView(r.view)
    ensures r.view.ratioText == s.view.ratioText && r.view.durationText == s.view.durationText
    ensures r.(view := s.view) == s.(running := false, phaseTimeoutSet := false, tickIntervalSet := false)
  {
    s.(running := false, phaseTimeoutSet := false, tickIntervalSet := false,
       view := s.view.(phaseText := "Ready", phaseClass := "phase", timer := Shows("00.0"),
                       cycleText := "Cycle 0 / 0", gradient := IdleGradient,
                       startDisabled := false, stopDisabled := true))
  }

  lemma StopIdempotent(s: State)
    ensures Stop(Stop(s)) == Stop(s)
  {
  }

  /** The wrap at the top of nextPhase: past the last step, go to step 0 of the next cycle. */
  function Wrap(s: State): (r: State)
    requires s.current.Some?
  {
    if s.phaseIndex >= |s.current.value.steps| then s.(phaseIndex := 0, cycleIndex := s.cycleIndex + 1) else s
  }

  /**
   * The wrap touches only the two indices, and moving from past the last
   * step to step 0 of the next cycle keeps the position `cycleIndex*n + phaseIndex`.
   */
  lemma WrapSpec(s: State)
    requires s.current.Some?
    ensures var r, n := Wrap(s), |s.current.value.steps|;
      (if s.phaseIndex >= n then r.phaseIndex == 0 && r.cycleIndex == s.cycleIndex + 1 else r == s) &&
      r.(phaseIndex := s.phaseIndex, cycleIndex := s.cycleIndex) == s &&
      (s.phaseIndex == n ==> r.cycleIndex * n + r.phaseIndex == s.cycleIndex * n + s.phaseIndex)
  {
    var n := |s.current.value.steps|;
    assert (s.cycleIndex + 1) * n == s.cycleIndex * n + n;
  }

  /** Shows step `phaseIndex` of the current technique and moves past it. */
  function Emit(w: State, now: int): (r: (State, Outcome))
    requires w.current.Some? && 0 <= w.phaseIndex < |w.current.value.steps|
  {
    var t := w.current.value;
    var step := t.steps[w.phaseIndex];
    var shown := PhaseLabel(step.phase);
    var endsAt := now + step.seconds * 1000;
    var v := w.view.(phaseText := shown, phaseClass := "phase " + step.phase,
                     timer := CountingDown(endsAt), cycleText := CycleText(w.cycleIndex + 1, t.cycles));
    (w.(phaseIndex := w.phaseIndex + 1, phaseEndsAt := endsAt, phaseTimeoutSet := true, view := v),
     Emitted(Emission(step, shown, w.cycleIndex + 1, t.cycles)))
  }

  /**
   * Showing a step: the emission, the new phase index, the armed timer and
   * its end time, and the four texts of the page that change; nothing else does.
   */
  lemma EmitSpec(w: State, now: int)
    requires w.current.Some? && 0 <= w.phaseIndex < |w.current.value.steps|
    ensures Emit(w, now).1.Emitted?
    ensures var r, t := Emit(w, now), w.current.value; var e := r.1.emission;
      e.step == t.steps[w.phaseIndex] && e.phaseLabel == PhaseLabel(e.step.phase) &&
      e.cycle == w.cycleIndex + 1 && e.cycles == t.cycles &&
      r.0.phaseIndex == w.phaseIndex + 1 && r.0.phaseTimeoutSet &&
      r.0.phaseEndsAt == now + e.step.seconds * 1000 &&
      r.0.view.phaseText == e.phaseLabel && r.0.view.phaseClass == "phase " + e.step.phase &&
      r.0.view.timer == CountingDown(r.0.phaseEndsAt) && r.0.view.cycleText == CycleText(e.cycle, e.cycles)
    ensures var r := Emit(w, now).0;
      r.(phaseIndex := w.phaseIndex, phaseEndsAt := w.phaseEndsAt, phaseTimeoutSet := w.phaseTimeoutSet, view := w.view) == w &&
      r.view.(phaseText := w.view.phaseText, phaseClass := w.view.phaseClass, timer := w.view.timer,
              cycleText := w.view.cycleText) == w.view
  {
  }

  /** nextPhase, called at clock reading `now` (milliseconds). */
  function Advance(s: State, now: int): (r: (State, Outcome))
    ensures r.1.Ignored? <==> !s.running || s.current.None?
    ensures r.1.Ignored? ==> r.0 == s
    ensures r.0.techniques == s.techniques && r.0.current == s.current && r.0.cyclesInput == s.cyclesInput
    ensures r.1.Finished? ==> !r.0.running && !r.0.phaseTimeoutSet && !r.0.tickIntervalSet && IdleView(r.0.view)
    ensures r.1.Fault? ==> r.0.running && r.0.phaseTimeoutSet == s.phaseTimeoutSet && r.0.view == s.view
    ensures r.1.Emitted? ==>
      var t := s.current.value; var e := r.1.emission;
      r.0.running && r.0.phaseTimeoutSet &&
      1 <= r.0.phaseIndex <= |t.steps| && r.0.cycleIndex < t.cycles &&
      e.step == t.steps[r.0.phaseIndex - 1] && e.phaseLabel == PhaseLabel(e.step.phase) &&
      e.cycle == r.0.cycleIndex + 1 && e.cycles == t.cycles &&
      r.0.phaseEndsAt == now + e.step.seconds * 1000 &&
      r.0.view.phaseText == e.phaseLabel && r.0.view.cycleText == CycleText(e.cycle, e.cycles)
  {
    if !s.running || s.current.None? then (s, Ignored)
    else
      var w := Wrap(s);
      if w.cycleIndex >= w.current.value.cycles then (Stop(w), Finished)
      else if !(0 <= w.phaseIndex < |w.current.value.steps|) then (w, Fault)
      else Emit(w, now)
  }

  /** The reset startSession does before its first nextPhase. */
  function Begin(s: State): (r: State)
    requires s.current.Some?
    ensures r.running && r.tickIntervalSet && r.cycleIndex == 0 && r.phaseIndex == 0
    ensures r.current == Some(s.current.value.(cycles := CycleCount(s.cyclesInput, s.current.value.cycles)))
    ensures r.view.gradient == ActiveGradient && r.view.startDisabled && !r.view.stopDisabled
    ensures r.(current := s.current, running := s.running, cycleIndex := s.cycleIndex, phaseIndex := s.phaseIndex,
               tickIntervalSet := s.tickIntervalSet, view := s.view) == s
    ensures r.view.(gradient := s.view.gradient, startDisabled := s.view.startDisabled,
                    stopDisabled := s.view.stopDisabled) == s.view
  {
    var t := s.current.value;
    s.(current := Some(t.(cycles := CycleCount(s.cyclesInput, t.cycles))),
       running := true, cycleIndex := 0, phaseIndex := 0, tickIntervalSet := true,
       view := s.view.(gradient := ActiveGradient, startDisabled := true, stopDisabled := false))
  }

  /** startSession: nothing without a technique; otherwise reset and run the first nextPhase. */
  function Start(s: State, now: int): (r: (State, Outcome))
    ensures s.current.None? ==> r == (s, Ignored)
    ensures s.current.Some? ==> r == Advance(Begin(s), now)
    ensures s.current.Some? ==> var t := s.current.value; var c := CycleCount(s.cyclesInput, t.cycles);
      r.0.current == Some(t.(cycles := c)) &&
      (0 < |t.steps| ==> r.1 == Emitted(Emission(t.steps[0], PhaseLabel(t.steps[0].phase), 1, c)) &&
                         r.0.running && r.0.cycleIndex == 0 && r.0.phaseIndex == 1) &&
      (t.steps == [] ==> r.1 == if c == 1 then Finished else Fault)
  {
    if s.current.None? then (s, Ignored) else Advance(Begin(s), now)
  }

  /** updateDuration: the total of the current technique for the cycle count the input asks for. */
  function UpdateDuration(s: State): (r: State)
    ensures s.current.None? ==> r == s
    ensures s.current.Some? ==> var t := s.current.value;
      r == s.(view := s.view.(durationText := "Duration " + FormatDuration(TotalSeconds(t, CycleCount(s.cyclesInput, t.cycles)))))
  {
    if s.current.None? then s
    else
      var t := s.current.value;
      var total := TotalSeconds(t, CycleCount(s.cyclesInput, t.cycles));
      s.(view := s.view.(durationText := "Duration " + FormatDuration(total)))
  }

  /** The cycles field's `input` event: a new value, then updateDuration. */
  function EditCycles(s: State, input: Option<int>): (r: State)
    ensures r.cyclesInput == input
    ensures r.(cyclesInput := s.cyclesInput, view := s.view) == s
    ensures r.view.(durationText := s.view.durationText) == s.view
    ensures s.current.Some? ==> var t := s.current.value;
      r.view.durationText == "Duration " + FormatDuration(TotalSeconds(t, CycleCount(input, t.cycles)))
  {
    UpdateDuration(s.(cyclesInput := input))
  }

  /**
   * selectTechnique: `current` becomes the lookup's result even when that
   * is missing, in which case nothing else happens; otherwise the ratio,
   * cycles field and duration are shown and the session is stopped.
   */
  function Select(s: State, id: string): (r: State)
    ensures r.techniques == s.techniques && r.current == Find(s.techniques, id)
    ensures r.current.Some? ==> !r.running && !r.phaseTimeoutSet && !r.tickIntervalSet && IdleView(r.view)
    ensures r.current.None? ==> r == s.(current := None)
  {
    var found := Find(s.techniques, id);
    if found.None? then s.(current := None)
    else
      var t := found.value;
      Stop(UpdateDuration(s.(current := found, cyclesInput := Some(t.cycles),
                             view := s.view.(ratioText := "Ratio " + t.ratio))))
  }

  /** What loadTechniques does once the list is parsed: keep it and select its first technique. */
  function Load(s: State, list: seq<Technique>): (r: State)
    ensures r.techniques == list
    ensures list == [] ==> r == s.(techniques := [])
    ensures list != [] ==> r == Select(s.(techniques := list), list[0].id)
  {
    var s1 := s.(techniques := list);
    if |list| > 0 then Select(s1, list[0].id) else s1
  }

  /** Selecting a known technique always ends in the idle state, showing that technique. */
  lemma SelectFound(s: State, id: string)
    requires Find(s.techniques, id).Some?
    ensures var t := Find(s.techniques, id).value; var r := Select(s, id);
      !r.running && !r.phaseTimeoutSet && !r.tickIntervalSet && IdleView(r.view) &&
      r.current == Some(t) && r.cyclesInput == Some(t.cycles) &&
      r.view.ratioText == "Ratio " + t.ratio &&
      r.view.durationText == "Duration " + FormatDuration(TotalSeconds(t, CycleCount(Some(t.cycles), t.cycles)))
  {
  }

  /**
   * Selecting an unknown id only drops the technique: a running session
   * stays marked running, its next nextPhase does nothing, and the timer
   * is not re-armed.
   */
  lemma SelectUnknown(s: State, id: string, now: int)
    requires Find(s.techniques, id).None?
    ensures Select(s, id) == s.(current := None)
    ensures Select(s, id).running == s.running
    ensures Advance(Select(s, id), now) == (Select(s, id), Ignored)
    ensures Start(Select(s, id), now) == (Select(s, id), Ignored)
  {
  }

  /** Loading a non-empty list selects its first technique. */
  lemma LoadSelectsFirst(s: State, list: seq<Technique>)
    requires 0 < |list|
    ensures Load(s, list).current == Some(list[0]) && !Load(s, list).running
    ensures IdleView(Load(s, list).view)
  {
    FindFirst(list);
  }

  // ---------------------------------------------------------------------
  // The invariant every reachable state keeps

  /**
   * The tick timer runs exactly while the session runs; the phase timer
   * only while it runs; and a running session with a technique has a cycle
   * count of at least 1 and its indices in range.
   */
  predicate Inv(s: State) {
    s.tickIntervalSet == s.running &&
    (s.phaseTimeoutSet ==> s.running) &&
    (s.running ==> s.view.startDisabled) &&
    (s.running && s.current.Some? ==>
      var t := s.current.value;
      1 <= t.cycles && 0 <= s.cycleIndex < t.cycles && 0 <= s.phaseIndex <= |t.steps|)
  }

  lemma InvAdvance(s: State, now: int)
    requires Inv(s)
    ensures Inv(Advance(s, now).0)
  {
  }

  lemma InvStart(s: State, now: int)
    requires Inv(s)
    ensures Inv(Start(s, now).0)
  {
    if s.current.Some? {
      InvAdvance(Begin(s), now);
    }
  }

  lemma InvStop(s: State)
    ensures Inv(Stop(s))
  {
  }

  lemma InvSelect(s: State, id: string)
    requires Inv(s)
    ensures Inv(Select(s, id))
  {
  }

  lemma InvLoad(s: State, list: seq<Technique>)
    requires Inv(s)
    ensures Inv(Load(s, list))
  {
    if |list| > 0 {
      InvSelect(s.(techniques := list), list[0].id);
    }
  }

  lemma InvEditCycles(s: State, input: Option<int>)
    requires Inv(s)
    ensures Inv(EditCycles(s, input))
  {
  }

  // ---------------------------------------------------------------------
  // Repeated nextPhase calls

  /**
   * The trace of nextPhase calls the phase timer makes, the i-th at clock
   * reading `times[i]`: each call that shows a phase re-arms the timer, so
   * the next one follows; the first call that does not show one is the last.
   */
  function Run(s: State, times: seq<int>): (r: (State, seq<Outcome>))
    ensures |r.1| <= |times| && (0 < |times| ==> 1 <= |r.1|)
    ensures forall k :: 0 <= k < |r.1| - 1 ==> r.1[k].Emitted?
    decreases |times|
  {
    if times == [] then (s, [])
    else
      var step := Advance(s, times[0]);
      if step.1.Emitted? then
        var rest := Run(step.0, times[1..]);
        (rest.0, [step.1] + rest.1)
      else (step.0, [step.1])
  }

  /** A whole session: startSession at `times[0]`, then the timer's calls at the later readings. */
  function SessionRun(s: State, times: seq<int>): (r: (State, seq<Outcome>))
    requires 0 < |times|
    ensures 1 <= |r.1| <= |times|
    ensures s.current.None? ==> r == (s, [Ignored])
    ensures forall k :: 0 <= k < |r.1| - 1 ==> r.1[k].Emitted?
  {
    var first := Start(s, times[0]);
    if first.1.Emitted? then
      var rest := Run(first.0, times[1..]);
      (rest.0, [first.1] + rest.1)
    else (first.0, [first.1])
  }

  /** The k-th phase (from 0) a session of technique `t` shows. */
  function Expected(t: Technique, k: nat): (e: Emission)
    requires 0 < |t.steps|
  {
    var step := t.steps[k % |t.steps|];
    Emission(step, PhaseLabel(step.phase), k / |t.steps| + 1, t.cycles)
  }

  /**
   * The outcomes of the nextPhase calls from position `p` of a session
   * that ends at position `q`: the phases at `p` up to (not including)
   * `q`, then the call that ends the session.
   */
  function Trace(t: Technique, p: nat, q: nat): (os: seq<Outcome>)
    requires 0 < |t.steps|
    ensures |os| == (if p <= q then q - p else 0) + 1
    decreases q - p
  {
    if q <= p then [Finished] else [Emitted(Expected(t, p))] + Trace(t, p + 1, q)
  }

  lemma {:induction false} TraceAt(t: Technique, p: nat, q: nat, k: nat)
    requires 0 < |t.steps| && p + k <= q
    ensures Trace(t, p, q)[k] == if p + k < q then Emitted(Expected(t, p + k)) else Finished
    decreases q - p
  {
    if k > 0 {
      TraceAt(t, p + 1, q, k - 1);
    }
  }

  /** In a session of c cycles, the k-th phase is step `k mod n`, shown as cycle `k div n + 1` of c. */
  lemma ExpectedInOrder(t: Technique, k: nat)
    requires 0 < |t.steps| && 1 <= t.cycles && k < t.cycles * |t.steps|
    ensures Expected(t, k).step == t.steps[k % |t.steps|] == Repeat(t.steps, t.cycles)[k]
    ensures 1 <= Expected(t, k).cycle <= t.cycles
    ensures k + |t.steps| < t.cycles * |t.steps| ==>
      Expected(t, k + |t.steps|).step == Expected(t, k).step &&
      Expected(t, k + |t.steps|).cycle == Expected(t, k).cycle + 1
  {
    RepeatAt(t.steps, t.cycles, k);
    PositionSplit(k, t.cycles, |t.steps|);
  }

  /** Position k of c rounds of n splits into round `k div n` and offset `k mod n`. */
  lemma PositionSplit(k: nat, c: nat, n: nat)
    requires 0 < n && k < c * n
    ensures k / n < c
    ensures k + n < c * n ==> (k + n) / n == k / n + 1 && (k + n) % n == k % n
  {
    var q, m := k / n, k % n;
    assert k == q * n + m;
    assert q < c by {
      if q >= c { MulAtLeast(c, q, n); }
    }
    if k + n < c * n {
      assert k + n == (q + 1) * n + m;
      DivModOf(q + 1, m, n);
    }
  }

  lemma MulAtLeast(a: int, b: int, n: int)
    requires a <= b && 0 <= n
    ensures a * n <= b * n
  {
  }

  lemma MulLess(a: int, b: int, n: int)
    requires a < b && 0 < n
    ensures a * n < b * n
  {
  }

  /** A running session about to show its p-th phase (from 0). */
  predicate At(s: State, t: Technique, p: nat) {
    s.running && s.current == Some(t) && 0 < |t.steps| && 1 <= t.cycles &&
    0 <= s.cycleIndex < t.cycles && 0 <= s.phaseIndex <= |t.steps| &&
    p == s.cycleIndex * |t.steps| + s.phaseIndex
  }

  /** A position is never beyond the end of the session. */
  lemma AtBound(s: State, t: Technique, p: nat)
    requires At(s, t, p)
    ensures p <= t.cycles * |t.steps|
  {
    PositionStep(s.cycleIndex, s.phaseIndex, t.cycles, |t.steps|);
  }

  /**
   * Position `i*n + j` (cycle i, phase j) of c cycles of n phases: the
   * phase shown next and whether the session has ended.
   */
  lemma PositionStep(i: nat, j: nat, c: nat, n: nat)
    requires 0 < n && i < c && j <= n
    ensures i * n + j <= c * n
    ensures j < n ==> i * n + j < c * n && (i * n + j) / n == i && (i * n + j) % n == j
    ensures j == n && i + 1 < c ==>
      i * n + j < c * n && (i * n + j) / n == i + 1 && (i * n + j) % n == 0 && (i + 1) * n + 1 == i * n + j + 1
    ensures j == n && i + 1 == c ==> i * n + j == c * n
  {
    assert (i + 1) * n == i * n + n;
    MulAtLeast(i + 1, c, n);
    if j < n {
      DivModOf(i, j, n);
    } else {
      DivModOf(i + 1, 0, n);
      if i + 1 < c { MulLess(i + 1, c, n); }
    }
  }

  /** One nextPhase from position p: the p-th phase while p < c*n, the end of the session at p == c*n. */
  lemma AdvanceAt(s: State, t: Technique, p: nat, now: int)
    requires At(s, t, p)
    ensures p <= t.cycles * |t.steps|
    ensures p < t.cycles * |t.steps| ==>
      Advance(s, now).1 == Emitted(Expected(t, p)) && At(Advance(s, now).0, t, p + 1)
    ensures p == t.cycles * |t.steps| ==> Advance(s, now).1 == Finished
  {
    var n, i, j := |t.steps|, s.cycleIndex, s.phaseIndex;
    PositionStep(i, j, t.cycles, n);
    var w := Wrap(s);
    if j < n {
      assert w == s;
      assert Advance(s, now) == Emit(w, now);
      EmitAt(w, t, p, now);
    } else if i + 1 < t.cycles {
      assert w == s.(phaseIndex := 0, cycleIndex := i + 1);
      assert p == w.cycleIndex * n + w.phaseIndex;
      assert Advance(s, now) == Emit(w, now);
      EmitAt(w, t, p, now);
    } else {
      assert w.cycleIndex >= t.cycles;
    }
  }

  /** Showing the phase at position p moves the session to position p + 1. */
  lemma EmitAt(w: State, t: Technique, p: nat, now: int)
    requires w.running && w.current == Some(t) && 1 <= t.cycles
    requires 0 <= w.cycleIndex < t.cycles && 0 <= w.phaseIndex < |t.steps|
    requires p == w.cycleIndex * |t.steps| + w.phaseIndex
    requires p / |t.steps| == w.cycleIndex && p % |t.steps| == w.phaseIndex
    ensures Emit(w, now).1 == Emitted(Expected(t, p)) && At(Emit(w, now).0, t, p + 1)
  {
  }

  /** From position p on, the timer shows every remaining phase in order and then ends the session. */
  lemma {:induction false} RunFrom(s: State, t: Technique, p: nat, times: seq<int>)
    requires At(s, t, p)
    requires t.cycles * |t.steps| - p < |times|
    ensures var r := Run(s, times);
      r.1 == Trace(t, p, t.cycles * |t.steps|) &&
      !r.0.running && !r.0.phaseTimeoutSet && !r.0.tickIntervalSet && IdleView(r.0.view)
    decreases t.cycles * |t.steps| - p
  {
    AtBound(s, t, p);
    if p < t.cycles * |t.steps| {
      var next := RunFromStep(s, t, p, times);
      RunFrom(next, t, p + 1, times[1..]);
    } else {
      RunFromEnd(s, t, p, times);
    }
  }

  /** The first call from position p < c*n shows phase p and leaves the session at `next`, at p + 1. */
  lemma RunFromStep(s: State, t: Technique, p: nat, times: seq<int>) returns (next: State)
    requires At(s, t, p) && 0 < |times| && p < t.cycles * |t.steps|
    ensures At(next, t, p + 1)
    ensures Run(s, times) == (Run(next, times[1..]).0, [Emitted(Expected(t, p))] + Run(next, times[1..]).1)
  {
    AdvanceAt(s, t, p, times[0]);
    RunUnfold(s, times);
    next := Advance(s, times[0]).0;
  }

  lemma RunFromEnd(s: State, t: Technique, p: nat, times: seq<int>)
    requires At(s, t, p) && 0 < |times| && p == t.cycles * |t.steps|
    ensures var r := Run(s, times);
      r.1 == [Finished] &&
      !r.0.running && !r.0.phaseTimeoutSet && !r.0.tickIntervalSet && IdleView(r.0.view)
  {
    AdvanceAt(s, t, p, times[0]);
    RunUnfold(s, times);
  }

  lemma RunUnfold(s: State, times: seq<int>)
    requires 0 < |times|
    ensures var step := Advance(s, times[0]);
      Run(s, times) == if step.1.Emitted? then (Run(step.0, times[1..]).0, [step.1] + Run(step.0, times[1..]).1)
                       else (step.0, [step.1])
  {
  }

  /** One more timer call, seen from a trace whose outcomes so far are `done`. */
  lemma RunStep(before: State, times: seq<int>, i: nat, done: seq<Outcome>, after: State, o: Outcome)
    requires i < |times| && (after, o) == Advance(before, times[i])
    ensures (Run(before, times[i..]).0, done + Run(before, times[i..]).1) ==
      if o.Emitted? then (Run(after, times[i + 1..]).0, (done + [o]) + Run(after, times[i + 1..]).1)
      else (after, done + [o])
  {
    RunUnfold(before, times[i..]);
    assert times[i..][0] == times[i] && times[i..][1..] == times[i + 1..];
    if o.Emitted? {
      var rest := Run(after, times[i + 1..]);
      assert done + ([o] + rest.1) == (done + [o]) + rest.1;
    }
  }

  /**
   * A session of technique t with n >= 1 steps, run for c cycles (the
   * coerced count): the first c*n nextPhase calls, the one startSession
   * makes included, each show a phase, the k-th being step `k mod n` in
   * cycle `k div n + 1` of c; call c*n + 1 ends the session, leaving the
   * idle page and no timer.
   */
  lemma SessionTrace(s: State, times: seq<int>)
    requires !s.running && s.current.Some? && 0 < |s.current.value.steps|
    requires CycleCount(s.cyclesInput, s.current.value.cycles) * |s.current.value.steps| < |times|
    ensures var t := s.current.value; var c := CycleCount(s.cyclesInput, t.cycles); var n := |t.steps|;
      var r := SessionRun(s, times);
      |r.1| == c * n + 1 && r.1[c * n] == Finished &&
      (forall k :: 0 <= k < c * n ==>
         r.1[k].Emitted? && r.1[k].emission.step == t.steps[k % n] == Repeat(t.steps, c)[k] &&
         r.1[k].emission.cycle == k / n + 1 <= c && r.1[k].emission.cycles == c &&
         r.1[k].emission.phaseLabel == PhaseLabel(t.steps[k % n].phase)) &&
      !r.0.running && !r.0.phaseTimeoutSet && !r.0.tickIntervalSet && IdleView(r.0.view)
  {
    var t := s.current.value;
    var c := CycleCount(s.cyclesInput, t.cycles);
    var t' := t.(cycles := c);
    var n := |t.steps|;
    var b := Begin(s);
    assert At(b, t', 0);
    RunFrom(b, t', 0, times);
    assert SessionRun(s, times) == Run(b, times);
    var os := SessionRun(s, times).1;
    assert os == Trace(t', 0, c * n);
    TraceAt(t', 0, c * n, c * n);
    forall k | 0 <= k < c * n
      ensures os[k].Emitted? && os[k].emission.step == t.steps[k % n] == Repeat(t.steps, c)[k] &&
        os[k].emission.cycle == k / n + 1 <= c && os[k].emission.cycles == c &&
        os[k].emission.phaseLabel == PhaseLabel(t.steps[k % n].phase)
    {
      EmissionMatches(t', k);
    }
  }

  /** The k-th phase of a whole session, as the trace lemma states it. */
  lemma EmissionMatches(t: Technique, k: nat)
    requires 0 < |t.steps| && 1 <= t.cycles && k < t.cycles * |t.steps|
    ensures var o := Trace(t, 0, t.cycles * |t.steps|)[k]; var n := |t.steps|;
      o.Emitted? && o.emission.step == t.steps[k % n] == Repeat(t.steps, t.cycles)[k] &&
      o.emission.cycle == k / n + 1 <= t.cycles && o.emission.cycles == t.cycles &&
      o.emission.phaseLabel == PhaseLabel(t.steps[k % n].phase)
  {
    TraceAt(t, 0, t.cycles * |t.steps|, k);
    ExpectedInOrder(t, k);
  }

  /**
   * A worked example: a technique of four steps (inhale, hold and exhale of
   * 4 seconds each, then a 2-second hold) run for 3 cycles is shown as a
   * 42-second session.
   */
  lemma WorkedExampleDuration(s: State)
    requires s.current.Some? && s.cyclesInput == Some(3)
    requires s.current.value.steps == [Step("inhale", 4), Step("hold", 4), Step("exhale", 4), Step("hold_after", 2)]
    ensures UpdateDuration(s).view.durationText == "Duration " + FormatDuration(42)
  {
    var st := s.current.value.steps;
    assert SumSeconds(st) == 14 by {
      assert st[..1][..0] == [];
      assert SumSeconds(st[..1]) == 4;
      assert st[..2][..1] == st[..1];
      assert SumSeconds(st[..2]) == 8;
      assert st[..3][..2] == st[..2];
      assert SumSeconds(st[..3]) == 12;
      assert st[..3] == st[..|st| - 1];
    }
    assert CycleCount(s.cyclesInput, s.current.value.cycles) == 3;
  }

  /** The same session, started from the idle page, shows 12 phases and ends on the 13th nextPhase. */
  lemma WorkedExampleSession(s: State, times: seq<int>)
    requires !s.running && s.current.Some? && s.cyclesInput == Some(3)
    requires s.current.value.steps == [Step("inhale", 4), Step("hold", 4), Step("exhale", 4), Step("hold_after", 2)]
    requires 12 < |times|
    ensures |SessionRun(s, times).1| == 13 && SessionRun(s, times).1[12] == Finished
    ensures forall k :: 0 <= k < 12 ==> SessionRun(s, times).1[k].Emitted?
  {
    assert CycleCount(s.cyclesInput, s.current.value.cycles) == 3;
    assert |s.current.value.steps| == 4;
    SessionTrace(s, times);
  }
}
