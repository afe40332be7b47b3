/**
 * Techniques as loaded from the technique list: an ordered sequence of
 * timed steps, a default cycle count and the labels shown beside them.
 * Also the three pieces of arithmetic the app does on them: the lookup by
 * id, the per-cycle sum of step durations (a `reduce`), and the coercion
 * of the cycle count the user typed.
 */
module Techniques {
  import opened Options

  /** One timed phase; `phase` is one of "inhale", "hold", "exhale", "hold_after". */
  datatype Step = Step(phase: string, seconds: nat)

  /** `cycles` is the default repeat count; a session overrides it. */
  datatype Technique = Technique(id: string, name: string, ratio: string, cycles: int, steps: seq<Step>)

  /** Index of the first technique with the given id, or `|ts|` when there is none. */
  function FindIndex(ts: seq<Technique>, id: string): (i: nat)
    ensures i <= |ts|
    ensures forall j :: 0 <= j < i ==> ts[j].id != id
    ensures i < |ts| ==> ts[i].id == id
  {
    if ts == [] then 0 else if ts[0].id == id then 0 else 1 + FindIndex(ts[1..], id)
  }

  /** The lookup selectTechnique makes: the first technique carrying `id`, if any. */
  function Find(ts: seq<Technique>, id: string): (r: Option<Technique>)
    ensures r.None? <==> forall j :: 0 <= j < |ts| ==> ts[j].id != id
    ensures r.Some? ==> r.value.id == id
    ensures r.Some? ==> exists i :: 0 <= i < |ts| && ts[i] == r.value && forall j :: 0 <= j < i ==> ts[j].id != id
  {
    var i := FindIndex(ts, id);
    if i < |ts| then Some(ts[i]) else None
  }

  /** The first technique of the list is what looking up its own id finds. */
  lemma FindFirst(ts: seq<Technique>)
    requires 0 < |ts|
    ensures Find(ts, ts[0].id) == Some(ts[0])
  {
  }

  /**
   * The per-cycle duration: the step durations added up from the left,
   * starting at 0, as the app's fold does. No step lasts longer than the
   * sum, and the sum is 0 exactly when every step lasts 0 seconds.
   */
  function SumSeconds(steps: seq<Step>): (r: nat)
    ensures forall i :: 0 <= i < |steps| ==> steps[i].seconds <= r
    ensures r == 0 <==> forall i :: 0 <= i < |steps| ==> steps[i].seconds == 0
    decreases |steps|
  {
    if steps == [] then 0 else SumSeconds(steps[..|steps| - 1]) + steps[|steps| - 1].seconds
  }

  lemma {:induction false} SumSecondsAppend(a: seq<Step>, b: seq<Step>)
    ensures SumSeconds(a + b) == SumSeconds(a) + SumSeconds(b)
    decreases |b|
  {
    if b == [] {
      assert a + b == a;
    } else {
      assert (a + b)[..|a + b| - 1] == a + b[..|b| - 1];
      SumSecondsAppend(a, b[..|b| - 1]);
    }
  }

  /** Independent reference: the sum taken from the front. */
  function SumFromFront(steps: seq<Step>): nat
    decreases |steps|
  {
    if steps == [] then 0 else steps[0].seconds + SumFromFront(steps[1..])
  }

  lemma {:induction false} SumSecondsIsSum(steps: seq<Step>)
    ensures SumSeconds(steps) == SumFromFront(steps)
    decreases |steps|
  {
    if steps != [] {
      assert steps == [steps[0]] + steps[1..];
      SumSecondsAppend([steps[0]], steps[1..]);
      assert [steps[0]][..0] == [];
      SumSecondsIsSum(steps[1..]);
    }
  }

  /** The duration of a whole session: the per-cycle duration times the cycle count. */
  function TotalSeconds(t: Technique, cycles: nat): (r: nat)
    ensures r == 0 <==> cycles == 0 || forall i :: 0 <= i < |t.steps| ==> t.steps[i].seconds == 0
    ensures 0 < cycles ==> forall i :: 0 <= i < |t.steps| ==> t.steps[i].seconds <= r
  {
    var perCycle := SumSeconds(t.steps);
    MulZero(perCycle, cycles);
    perCycle * cycles
  }

  lemma MulZero(a: nat, b: nat)
    ensures a * b == 0 <==> a == 0 || b == 0
    ensures 0 < b ==> a <= a * b
  {
    if 0 < b {
      assert a * b == a * (b - 1) + a;
    }
  }

  lemma TotalSecondsOfNoSteps(t: Technique, cycles: nat)
    requires t.steps == []
    ensures TotalSeconds(t, cycles) == 0
  {
  }

  /**
   * The cycle count a session uses: the typed count when the field is not
   * empty (`None` is the empty field), else the technique's own count,
   * raised to 1 when below it.
   */
  function CycleCount(input: Option<int>, fallback: int): (c: nat)
    ensures 1 <= c
    ensures var asked := if input.Some? then input.value else fallback;
      (1 <= asked ==> c == asked) && (asked < 1 ==> c == 1)
  {
    var asked := if input.Some? then input.value else fallback;
    if asked < 1 then 1 else asked
  }

  /** The steps of `cycles` consecutive cycles, in the order a session plays them. */
  function Repeat(steps: seq<Step>, cycles: nat): (r: seq<Step>)
    ensures |r| == cycles * |steps|
    decreases cycles
  {
    if cycles == 0 then [] else Repeat(steps, cycles - 1) + steps
  }

  lemma DivModOf(q: nat, r: nat, n: nat)
    requires r < n
    ensures (q * n + r) / n == q && (q * n + r) % n == r
  {
    var k := q * n + r;
    var d := q - k / n;
    assert d * n == k % n - r;
  }

  /** Position k of the repeated schedule is step `k mod n` of the technique. */
  lemma {:induction false} RepeatAt(steps: seq<Step>, cycles: nat, k: nat)
    requires k < cycles * |steps|
    ensures |steps| > 0 && Repeat(steps, cycles)[k] == steps[k % |steps|]
    decreases cycles
  {
    var n := |steps|;
    assert cycles > 0;
    assert n > 0;
    var prefix := (cycles - 1) * n;
    assert cycles * n == prefix + n;
    if k < prefix {
      RepeatAt(steps, cycles - 1, k);
    } else {
      DivModOf(cycles - 1, k - prefix, n);
    }
  }

  /** The displayed total is exactly the sum of the durations of every step a session plays. */
  lemma MulStep(a: nat, b: nat)
    requires 0 < b
    ensures a * b == a * (b - 1) + a
  {
  }

  lemma {:induction false} TotalSecondsOfSchedule(t: Technique, cycles: nat)
    ensures SumSeconds(Repeat(t.steps, cycles)) == TotalSeconds(t, cycles)
    decreases cycles
  {
    if cycles > 0 {
      var perCycle := SumSeconds(t.steps);
      SumSecondsAppend(Repeat(t.steps, cycles - 1), t.steps);
      TotalSecondsOfSchedule(t, cycles - 1);
      MulStep(perCycle, cycles);
      assert TotalSeconds(t, cycles) == perCycle * cycles;
      assert TotalSeconds(t, cycles - 1) == perCycle * (cycles - 1);
    }
  }
}
