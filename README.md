# Pranayama breathing sequencer

This project models the session logic of a browser page for guided breathing. A user picks a
*technique*: an ordered list of timed steps (`inhale`, `hold`, `exhale`, `hold_after`, each
lasting a whole number of seconds) together with a default number of cycles. The user may
type a different cycle count, and then starts a session. A session shows each step in turn
and re-arms a phase timer after each one. After the last step of the last cycle, the next
timer call stops the session and puts back the idle page.

The model has six modules:

- `Options`: the usual `Option` type.
- `Text`: the JavaScript string operations the page uses. These are `String(n)` for integers,
  `padStart`, `replace` with a one-character pattern (and the search for the first occurrence
  that it makes), and upper-casing the first character.
- `Techniques`: steps and techniques, looking a technique up by id, the per-cycle sum of step
  durations (`reduce`), the total of a session, and how the typed cycle count is coerced.
- `Display`: the `MM:SS` duration text, the phase label taken from a phase name, and the
  cycle counter text.
- `Sequencer`: the session as a pure state machine. `State` holds the script's module-level
  variables, the cycles input field and the text the page shows.
  - `Stop`, `Advance` (nextPhase), `Start` (startSession), `Select` (selectTechnique),
    `Load` (loadTechniques after parsing) and `UpdateDuration` each map an old state to a
    new one.
  - `Run` is the sequence of calls the self-rescheduling phase timer makes.
  - The main lemma, `SessionTrace`, gives the exact outcome of every call in a session.
- `App`: the same logic in the script's own imperative form.
  - A `Session` class has one field per module-level variable, and methods that update those
    fields step by step.
  - Each method is proved to agree with the `Sequencer` function of the same operation.
  - `Practice` is the driver loop: startSession, then one nextPhase each time the timer fires.

Timer handles are booleans (`phaseTimeoutSet`, `tickIntervalSet`), true while the handle
variable holds a timer id. That id may belong to a timer that has already fired: after a
nextPhase call that faults, or that does nothing because the technique was cleared,
`phaseTimeoutSet` stays true with no call pending.
Clock readings are parameters: `now` for one call, and a sequence `times` for a whole
session. While a phase runs, the countdown display is `CountingDown(endsAt)`.

The model follows the code where its documented intent differs:

- selectTechnique with an unknown id sets `current` to nothing and returns at once
  (app.js:182-183). It does not stop the session, so `running` stays true and every later
  nextPhase does nothing (`Sequencer.SelectUnknown`).
- A session of `c` cycles of `n` steps makes `c*n` nextPhase calls that each show a phase,
  startSession's own call included. The session then stops on call `c*n + 1`, not on call
  `c*n`.
- startSession checks only that a technique is selected (app.js:161). It restarts a session
  that is already running. The page never asks it to, because the start button is disabled
  while a session runs (app.js:123, 172); the invariant `Sequencer.Inv` records this.
- A technique with no steps and more than one cycle makes nextPhase read
  `steps[0].phase` from an empty list, which throws. This is the `Fault` outcome. With
  exactly one cycle, the first call ends the session.

## Model

| member | source | states |
|---|---|---|
| Techniques.FindIndex | app.js:182 | the index is that of the first technique with the id; no technique before it has the id; it is the list length when none has it |
| Techniques.Find | app.js:182 | `find` gives nothing exactly when no technique has the id; otherwise it gives the first technique that has it |
| Techniques.FindFirst | app.js:203-204 | looking up the first technique's own id finds that technique |
| Techniques.SumSeconds | app.js:99 | the per-cycle duration is at least the duration of each step, and is 0 exactly when every step lasts 0 seconds |
| Techniques.SumSecondsAppend | app.js:99 | the `reduce` sum of a concatenation is the sum of the two parts |
| Techniques.SumSecondsIsSum | app.js:99 | the left-fold `reduce` equals the step-by-step sum taken from the front |
| Techniques.TotalSecondsOfNoSteps | app.js:98-101 | a technique without steps has a total of 0 seconds for any cycle count |
| Techniques.TotalSeconds | app.js:98-101 | the total is 0 exactly when there are no cycles or every step lasts 0 seconds; with at least one cycle it is at least the duration of each step |
| Techniques.CycleCount | app.js:105 | the cycle count is always at least 1; it is the typed value when the field is non-empty, else the technique's own count; any value below 1 becomes 1 |
| Techniques.Repeat | app.js:131-141 | the schedule of c cycles holds c times as many steps as one cycle |
| Techniques.RepeatAt | app.js:131-141 | position k of the c-cycle schedule is step `k mod n` of the technique |
| Techniques.TotalSecondsOfSchedule | app.js:98-101 | the total shown equals the sum of the durations of every step the session plays |
| Text.DigitChar | app.js:95 | the character of a digit is a decimal digit that denotes it |
| Text.Digits | app.js:95 | `String(n)` of a whole number is non-empty and all digits, has one digit exactly when n < 10 and has no leading zero |
| Text.ValueOfDigits | app.js:95 | reading the decimal rendering of n back gives n |
| Text.IntToString | app.js:154 | `String(i)` is the digits of i, with a leading `-` for a negative i |
| Text.PadStart | app.js:95 | `padStart` gives a string of the larger of the two lengths: fill characters first, then the original string unchanged |
| Text.ValueOfPadStart | app.js:95 | zero-padding a digit string keeps it all digits and keeps the number it denotes |
| Text.FirstIndex | app.js:142 | the search `replace` makes: the first position of the character, or the length when it does not occur |
| Text.ReplaceFirst | app.js:142 | `replace` keeps the length of the string |
| Text.ReplaceFirstSpec | app.js:142 | only the first occurrence of the pattern character changes; without one, nothing changes |
| Text.UpperAscii | app.js:143 | `toUpperCase` maps a to z onto A to Z and leaves every other character alone |
| Text.Capitalize | app.js:143 | the first character is upper-cased, the rest is kept, and the length is unchanged |
| Display.FormatDuration | app.js:92-96 | the duration text has at least five characters with `:` three from the end; below 100 minutes it is exactly five |
| Display.TwoDigits | app.js:95 | a padded field has at least two characters, exactly two below 100 |
| Display.ParseClockOfFields | app.js:92-96 | two digit fields joined by `:` parse back to their values |
| Display.FormatDurationRoundTrip | app.js:92-96 | the text parses back to minutes `n div 60` and seconds `n mod 60`; the seconds read back are below 60 and `minutes*60 + seconds` gives n back |
| Display.TwoDigitsOfSmall | app.js:95 | a number below 100 renders as its tens digit followed by its units digit |
| Display.FormatDurationDigits | app.js:92-96 | below 100 minutes the text is `MM:SS`, digit by digit |
| Display.FormatDurationExample | app.js:92-96 | 42 seconds renders as `00:42` |
| Display.PhaseLabel | app.js:142-143 | the label is as long as the phase name |
| Display.PhaseLabelSpec | app.js:142-143 | position by position: the first `_` becomes a space, the first character is upper-cased unless it was that `_`, and every other character is kept |
| Display.PhaseLabelWithoutUnderscore | app.js:142-143 | a phase name without `_` is only capitalised |
| Display.PhaseLabelAt | app.js:142-143 | when the first `_` is at position i > 0, the label upper-cases position 0, has a space at i, and keeps every other character |
| Display.PhaseLabelOfJoined | app.js:142-143 | a word, `_` and a rest become the capitalised word, a space and the rest |
| Display.PhaseLabelOfInhale | app.js:142-143 | `inhale` is labelled `Inhale` |
| Display.PhaseLabelOfHoldAfter | app.js:142-143 | `hold_after` is labelled `Hold after` |
| Display.CycleText | app.js:154 | the cycle counter starts with the word `Cycle ` and has at least 11 characters |
| Display.ParseCycleTextOfFields | app.js:154 | two digit fields in the counter text parse back to their values |
| Display.CycleTextRoundTrip | app.js:154 | the counter for a non-negative cycle and cycle count reads back as exactly those two numbers |
| Sequencer.Initial | app.js:14-21 | the script starts with no techniques, nothing selected, not running and no timers, which satisfies the invariant |
| Sequencer.Stop | app.js:110-125 | stopSession leaves the session not running with both timers cleared and the idle page (`Ready`, `00.0`, `Cycle 0 / 0`, start enabled, stop disabled); the ratio, the duration and every other variable are unchanged |
| Sequencer.StopIdempotent | app.js:110-125 | stopping twice is the same as stopping once |
| Sequencer.WrapSpec | app.js:131-134 | past the last step, the phase index returns to 0 and the cycle index goes up by one, which keeps the position `cycleIndex*n + phaseIndex`; otherwise nothing changes; no other variable is touched |
| Sequencer.EmitSpec | app.js:141-157 | shows step `phaseIndex` with its label, as cycle `cycleIndex + 1` of `cycles`, ending at now plus its duration; moves the phase index on by one and arms the phase timer; only the phase text, class, countdown and cycle text of the page change |
| Sequencer.Advance | app.js:127-158 | nextPhase does nothing exactly when the session is not running or there is no technique. Ending the session stops it. After a phase is shown, the phase timer is armed, `1 <= phaseIndex <= steps.length` and `cycleIndex < cycles`; the phase shown is the step just passed, with its label, cycle `cycleIndex + 1` of `cycles`, and an end time of now plus its duration |
| Sequencer.Begin | app.js:163-176 | startSession's reset: running, tick timer armed, both indices 0, the technique's cycles replaced by the coerced count, the active gradient, start disabled and stop enabled; every other variable, the phase timer included, is unchanged |
| Sequencer.Start | app.js:160-179 | without a technique nothing happens. With one, the session restarts even if it is running, and its first call shows step 0 as cycle 1 of c and leaves `phaseIndex` at 1. A technique without steps ends at once when c is 1 and faults otherwise |
| Sequencer.UpdateDuration | app.js:103-108 | without a technique nothing changes; otherwise only the duration text changes, to the formatted total for the coerced cycle count |
| Sequencer.EditCycles | app.js:212 | the cycles field takes the new value and only the duration text of the page changes, to the total for the count that value asks for |
| Sequencer.Select | app.js:181-189 | `current` becomes the first technique with the id, or nothing; with a technique the session ends idle with no timer; without one nothing else changes |
| Sequencer.Load | app.js:193-205 | the list is kept; an empty list changes nothing else; otherwise its first technique is selected |
| Sequencer.SelectFound | app.js:181-189 | selecting a known id ends idle with both timers cleared, that technique current, its own cycle count in the field, its ratio and its duration shown |
| Sequencer.SelectUnknown | app.js:181-183 | selecting an unknown id only clears `current`: `running` is kept, and the next nextPhase or startSession does nothing |
| Sequencer.LoadSelectsFirst | app.js:193-205 | loading a non-empty list selects its first technique and leaves the page idle |
| Sequencer.InvAdvance | app.js:127-158 | nextPhase preserves the invariant |
| Sequencer.InvStart | app.js:160-179 | startSession preserves the invariant, which also says that start is disabled while a session runs |
| Sequencer.InvStop | app.js:110-125 | stopSession establishes the invariant from any state |
| Sequencer.InvSelect | app.js:181-189 | selectTechnique preserves the invariant |
| Sequencer.InvLoad | app.js:191-206 | loading a list preserves the invariant |
| Sequencer.InvEditCycles | app.js:103-108 | editing the cycles field preserves the invariant |
| Sequencer.Run | app.js:157 | the timer makes at most one call per clock reading and at least one; every call but the last showed a phase |
| Sequencer.SessionRun | app.js:157-178 | a session makes at least one and at most one call per clock reading; every call but the last showed a phase; without a technique startSession does nothing and there is no further call |
| Sequencer.Trace | app.js:131-157 | the outcomes from position p to the end q are the `q - p` phases followed by the end of the session |
| Sequencer.TraceAt | app.js:131-157 | item k of the outcomes from p is phase `p + k` while `p + k < q`, and the end of the session at `p + k == q` |
| Sequencer.ExpectedInOrder | app.js:141-154 | the k-th phase is step `k mod n` (the k-th step of the repeated schedule) in cycle `k div n + 1`, never beyond c; a phase one cycle later is the same step, one cycle higher |
| Sequencer.AtBound | app.js:131-136 | a running session's position `cycleIndex*n + phaseIndex` never passes `c*n` |
| Sequencer.AdvanceAt | app.js:131-155 | one nextPhase at position p < c*n shows phase p and moves to p + 1; at p == c*n it ends the session |
| Sequencer.EmitAt | app.js:141-155 | showing the step at position p emits phase p and moves to position p + 1 |
| Sequencer.RunFrom | app.js:131-157 | from position p the timer calls show every remaining phase in order and then end the session, idle and with no timer |
| Sequencer.RunFromStep | app.js:131-157 | the first timer call from p < c*n shows phase p, and the rest of the run continues from position p + 1 |
| Sequencer.RunFromEnd | app.js:136-139 | the timer call at position c*n ends the session and is the last one |
| Sequencer.RunStep | app.js:157 | one more timer call extends the outcomes so far by its own outcome, and the run goes on only if that call showed a phase |
| Sequencer.SessionTrace | app.js:131-178 | a session started from a stopped page, of c cycles of n >= 1 steps, makes exactly c*n + 1 nextPhase calls. Call k < c*n shows step `k mod n` with its label, as cycle `k div n + 1` of c; the last call stops the session, leaving the idle page and no timer |
| Sequencer.EmissionMatches | app.js:141-154 | the k-th outcome of a whole session is a shown phase with that step, label and cycle |
| Sequencer.WorkedExampleDuration | app.js:98-108 | steps of 4, 4, 4 and 2 seconds over 3 cycles are shown as the duration of 42 seconds |
| Sequencer.WorkedExampleSession | app.js:131-178 | the same technique, started from a stopped page, shows 12 phases and stops on the 13th call |
| App.Session.constructor | app.js:14-21 | the variables start with no techniques, nothing selected, not running, zero indices and no timers, which satisfies the invariant |
| App.Session.StopSession | app.js:110-125 | the fields become what `Sequencer.Stop` gives, so the invariant holds afterwards |
| App.Session.NextPhase | app.js:127-158 | the fields and outcome are what `Sequencer.Advance` gives; the invariant is preserved |
| App.Session.ShowPhase | app.js:141-157 | showing step `phaseIndex` updates the fields as the emitting branch of nextPhase does and returns that emission |
| App.Session.StartSession | app.js:160-179 | the fields and outcome are what `Sequencer.Start` gives; the invariant is preserved |
| App.Session.UpdateDuration | app.js:103-108 | the fields become what `Sequencer.UpdateDuration` gives; the invariant is preserved |
| App.Session.EditCycles | app.js:212 | the cycles field takes the new value, then the duration is updated as `Sequencer.EditCycles` says; the invariant is preserved |
| App.Session.SelectTechnique | app.js:181-189 | the fields become what `Sequencer.Select` gives; the invariant is preserved |
| App.Session.LoadTechniques | app.js:193-205 | the fields become what `Sequencer.Load` gives; the invariant is preserved |
| App.Practice | app.js:157-178 | the loop of timer calls gives exactly the outcomes and final state of `Sequencer.SessionRun`, so `SessionTrace` applies to it |

## Left out

- Looking up DOM elements and writing `textContent`, `className`, `disabled` and CSS custom properties (app.js:1-12, 64-81). The page is a `View` value of strings and flags. The two background gradients are the tags `IdleGradient` and `ActiveGradient`.
- The orb's scale and glow (`PHASE_STYLES`, app.js:54-59) and the gradient colour strings (app.js:61-62): these are floating-point and CSS constants with no effect on the sequence.
- The audio cue (app.js:24-52): a foreign browser API with floating-point frequencies and gains.
- `formatSeconds`/`updateTimer` and the 100 ms tick (app.js:83-90, 175-176): they read the wall clock and format it with floats. While a phase runs, the countdown is `CountingDown(phaseEndsAt)`; the tick only refreshes that display.
- The real `setTimeout`/`setInterval`/`clearTimeout` scheduling: timer handles become booleans, and the firing of the phase timer is the `Run` sequence and the `Practice` loop over given clock readings.
- App.Session.StartSession: when a session is already running, the source leaves the old phase timer handle armed, and startSession starts a second chain of nextPhase calls beside it. With booleans for handles, the model keeps one chain only.
- Fetching and JSON-parsing the technique list, and the event-listener wiring (app.js:191-202, 208-217). The parsed list is a parameter of `Load`.
- Techniques.CycleCount: the cycles field is an optional integer. A non-numeric entry (`NaN`, which makes the session run forever) and a fractional entry are not modelled.
- Text.UpperAscii: `toUpperCase` is modelled on ASCII letters only; the phase names the page uses are ASCII.
- Step durations are whole seconds (`nat`), so `formatDuration` is modelled on natural numbers.
- Sequencer.Run: its own contract states only the number of calls and that each call but the last showed a phase; which phases a run shows is stated by `RunFrom` and `SessionTrace`.
- Sequencer.Run: the clock readings are unconstrained, so the model does not say that the timer's next call comes `seconds*1000` milliseconds after the previous one (app.js:157); `phaseEndsAt` records when it is due.
- Display.FormatDuration: numbers are unbounded integers, while the page computes with IEEE doubles. The model agrees with the page while totals stay below 2^53. Above that `Math.floor(total / 60)` and `String` round, and from 10^21 on `String` writes an exponent, so `FormatDurationRoundTrip` holds of the page only below 2^53.
- Text.Digits: the rendering of an unbounded natural number; it matches `String` on doubles only below 2^53 (a typed cycle count in the hundreds of trillions gets there).
- Techniques.TotalSeconds: an exact product of unbounded integers; the page's product of doubles is exact only below 2^53.
- The audio set-up at the start of startSession (app.js:24-31, 162) throws where the browser has no `AudioContext`, which ends startSession before it changes anything; the model assumes the browser has one.
