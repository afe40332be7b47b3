/**
 * The text the app writes into the page: the `MM:SS` session duration,
 * the phase label derived from a step's phase name, and the cycle counter.
 */
module Display {
  import opened Options
  import opened Text

  /**
   * The session duration: whole minutes and the remaining seconds, each
   * left-padded with zeros to two digits, joined by a colon. Minutes are not capped at 59.
   */
  function FormatDuration(total: nat): (r: string)
    ensures 5 <= |r| && r[|r| - 3] == ':'
    ensures total < 6000 ==> |r| == 5
  {
    var minutes, seconds := total / 60, total % 60;
    assert seconds < 60;
    TwoDigits(minutes) + ":" + TwoDigits(seconds)
  }

  /** A number rendered in decimal and left-padded with zeros to two digits. */
  function TwoDigits(n: nat): (r: string)
    ensures 2 <= |r|
    ensures n < 100 ==> |r| == 2
  {
    PadStart(Digits(n), 2, '0')
  }

  /** Reads a `minutes:seconds` string back: both fields non-empty and all digits. */
  function ParseClock(s: string): Option<(nat, nat)> {
    var i := FirstIndex(s, ':');
    if i == |s| then None
    else
      var mm, ss := s[..i], s[i + 1..];
      if mm != [] && ss != [] && AllDigits(mm) && AllDigits(ss) then Some((Value(mm), Value(ss)))
      else None
  }

  lemma ParseClockOfFields(mm: string, ss: string)
    requires mm != [] && ss != [] && AllDigits(mm) && AllDigits(ss)
    ensures ParseClock(mm + ":" + ss) == Some((Value(mm), Value(ss)))
  {
    var r := mm + ":" + ss;
    var i := FirstIndex(r, ':');
    assert r[|mm|] == ':';
    assert forall j :: 0 <= j < |mm| ==> r[j] == mm[j];
    assert i == |mm|;
    assert r[..i] == mm;
    assert r[i + 1..] == ss;
  }

  /** The rendered duration parses back to the minutes and seconds it was made from. */
  lemma FormatDurationRoundTrip(total: nat)
    ensures ParseClock(FormatDuration(total)) == Some((total / 60, total % 60))
    ensures var clock := ParseClock(FormatDuration(total)).value; clock.1 < 60 && clock.0 * 60 + clock.1 == total
  {
    var mm := TwoDigits(total / 60);
    var ss := TwoDigits(total % 60);
    assert FormatDuration(total) == mm + ":" + ss;
    ValueOfPadStart(Digits(total / 60), 2);
    ValueOfPadStart(Digits(total % 60), 2);
    ValueOfDigits(total / 60);
    ValueOfDigits(total % 60);
    ParseClockOfFields(mm, ss);
  }

  /** A number below 100 is rendered as exactly its tens digit and its units digit. */
  lemma TwoDigitsOfSmall(n: nat)
    requires n < 100
    ensures TwoDigits(n) == [DigitChar(n / 10), DigitChar(n % 10)]
  {
    if n < 10 {
      assert PadStart([DigitChar(n)], 2, '0') == ['0', DigitChar(n)];
    } else {
      assert Digits(n) == Digits(n / 10) + [DigitChar(n % 10)];
    }
  }

  /** Below 100 minutes the duration is always `MM:SS`, digit by digit. */
  lemma FormatDurationDigits(total: nat)
    requires total < 6000
    ensures var m, s := total / 60, total % 60;
      FormatDuration(total) == [DigitChar(m / 10), DigitChar(m % 10), ':', DigitChar(s / 10), DigitChar(s % 10)]
  {
    var m, s := total / 60, total % 60;
    assert m < 100 && s < 60;
    TwoDigitsOfSmall(m);
    TwoDigitsOfSmall(s);
    var mm, ss := TwoDigits(m), TwoDigits(s);
    assert FormatDuration(total) == mm + ":" + ss;
    assert mm + ":" + ss == [mm[0], mm[1], ':', ss[0], ss[1]];
  }

  /** The 42-second session of the worked example. */
  lemma FormatDurationExample()
    ensures FormatDuration(42) == "00:42"
  {
    FormatDurationDigits(42);
    assert DigitChar(0) == '0' && DigitChar(4) == '4' && DigitChar(2) == '2';
  }

  /**
   * The phase label: the first `_` of the phase name becomes a space, then
   * the first character is upper-cased.
   */
  function PhaseLabel(phase: string): (r: string)
    ensures |r| == |phase|
  {
    Capitalize(ReplaceFirst(phase, '_', ' '))
  }

  /**
   * What the label rule does to each character: the first `_` reads as a
   * space, the first character is upper-cased, every other character is
   * kept.
   */
  lemma PhaseLabelSpec(phase: string)
    ensures var r := PhaseLabel(phase); var i := FirstIndex(phase, '_');
      (forall j :: 0 < j < |phase| ==> r[j] == if j == i then ' ' else phase[j]) &&
      (0 < |phase| ==> r[0] == if i == 0 then ' ' else UpperAscii(phase[0]))
  {
    ReplaceFirstSpec(phase, '_', ' ');
  }

  /** A phase name without `_` is only capitalised. */
  lemma PhaseLabelWithoutUnderscore(phase: string)
    requires '_' !in phase
    ensures PhaseLabel(phase) == Capitalize(phase)
  {
    ReplaceFirstSpec(phase, '_', ' ');
    assert ReplaceFirst(phase, '_', ' ') == phase;
  }

  /** The label of a phase name whose first `_` is at position i > 0. */
  lemma PhaseLabelAt(s: string, i: nat)
    requires 0 < i < |s| && s[i] == '_'
    requires forall j :: 0 <= j < i ==> s[j] != '_'
    ensures PhaseLabel(s)[0] == UpperAscii(s[0]) && PhaseLabel(s)[i] == ' '
    ensures forall j :: 0 < j < |s| && j != i ==> PhaseLabel(s)[j] == s[j]
  {
    assert FirstIndex(s, '_') == i;
    PhaseLabelSpec(s);
  }

  /** A phase name made of a word, `_`, and the rest: the `_` reads as a space. */
  lemma PhaseLabelOfJoined(head: char, tail: string, rest: string)
    requires head != '_' && '_' !in tail
    ensures PhaseLabel([head] + tail + "_" + rest) == [UpperAscii(head)] + tail + " " + rest
  {
    var s := [head] + tail + "_" + rest;
    var i := 1 + |tail|;
    forall j | 0 < j < i
      ensures s[j] != '_'
    {
      assert s[j] == tail[j - 1];
    }
    PhaseLabelAt(s, i);
    var r, e := PhaseLabel(s), [UpperAscii(head)] + tail + " " + rest;
    forall j | 0 <= j < |e|
      ensures r[j] == e[j]
    {
      if 0 < j < i {
        assert e[j] == tail[j - 1] == s[j];
      } else if i < j {
        assert e[j] == rest[j - i - 1] == s[j];
      }
    }
    assert r == e;
  }

  /** The labels of the phase names the bundled techniques use. */
  lemma PhaseLabelOfInhale()
    ensures PhaseLabel("inhale") == "Inhale"
  {
    PhaseLabelWithoutUnderscore("inhale");
  }

  lemma PhaseLabelOfHoldAfter()
    ensures PhaseLabel("hold_after") == "Hold after"
  {
    PhaseLabelOfJoined('h', "old", "after");
    assert ['h'] + "old" + "_" + "after" == "hold_after";
    assert [UpperAscii('h')] + "old" + " " + "after" == "Hold after";
  }

  /** The cycle counter: the word Cycle, the current cycle, a slash and the cycle count. */
  function CycleText(cycle: int, cycles: int): (r: string)
    ensures 11 <= |r|
    ensures forall i :: 0 <= i < 6 ==> r[i] == "Cycle "[i]
  {
    "Cycle " + IntToString(cycle) + " / " + IntToString(cycles)
  }

  /** Reads a cycle counter back: the fixed words around two non-empty digit fields. */
  function ParseCycleText(s: string): Option<(nat, nat)> {
    if |s| < 6 || s[..6] != "Cycle " then None
    else
      var rest := s[6..];
      var i := FirstIndex(rest, ' ');
      if |rest| < i + 3 || rest[i..i + 3] != " / " then None
      else
        var a, b := rest[..i], rest[i + 3..];
        if a != [] && b != [] && AllDigits(a) && AllDigits(b) then Some((Value(a), Value(b))) else None
  }

  lemma ParseCycleTextOfFields(a: string, b: string)
    requires a != [] && b != [] && AllDigits(a) && AllDigits(b)
    ensures ParseCycleText("Cycle " + a + " / " + b) == Some((Value(a), Value(b)))
  {
    var s := "Cycle " + a + " / " + b;
    var rest := a + " / " + b;
    assert s[..6] == "Cycle ";
    assert s[6..] == rest;
    assert rest[|a|] == ' ';
    assert forall j :: 0 <= j < |a| ==> rest[j] == a[j];
    assert FirstIndex(rest, ' ') == |a|;
    assert rest[|a|..|a| + 3] == " / ";
    assert rest[..|a|] == a;
    assert rest[|a| + 3..] == b;
  }

  /** The counter for a cycle and a cycle count, both non-negative, reads back as those two numbers. */
  lemma CycleTextRoundTrip(cycle: nat, cycles: nat)
    ensures ParseCycleText(CycleText(cycle, cycles)) == Some((cycle, cycles))
  {
    ValueOfDigits(cycle);
    ValueOfDigits(cycles);
    ParseCycleTextOfFields(Digits(cycle), Digits(cycles));
  }
}
