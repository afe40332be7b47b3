/**
 * The few JavaScript string operations the breathing app relies on:
 * decimal rendering of integers, left padding, replacing the first
 * occurrence of a one-character pattern (and the search it makes), and
 * upper-casing the first character of a string.
 */
module Text {

  predicate IsDigit(c: char) {
    '0' <= c <= '9'
  }

  predicate AllDigits(s: string) {
    forall i :: 0 <= i < |s| ==> IsDigit(s[i])
  }

  function DigitValue(c: char): nat
    requires IsDigit(c)
  {
    c as int - '0' as int
  }

  function DigitChar(d: nat): (c: char)
    requires d < 10
    ensures IsDigit(c) && DigitValue(c) == d
  {
    ('0' as int + d) as char
  }

  /** Decimal rendering of a whole number, without leading zeros. */
  function Digits(n: nat): (r: string)
    ensures 1 <= |r| && AllDigits(r)
    ensures (|r| == 1) == (n < 10)
    ensures n < 100 ==> |r| <= 2
    ensures 1 < |r| ==> r[0] != '0'
    decreases n
  {
    if n < 10 then [DigitChar(n)] else Digits(n / 10) + [DigitChar(n % 10)]
  }

  /** The number a string of decimal digits denotes (leading zeros allowed). */
  function Value(s: string): nat
    requires AllDigits(s)
    decreases |s|
  {
    if s == [] then 0 else Value(s[..|s| - 1]) * 10 + DigitValue(s[|s| - 1])
  }

  lemma {:induction false} ValueOfDigits(n: nat)
    ensures Value(Digits(n)) == n
    decreases n
  {
    if n >= 10 {
      var r := Digits(n);
      assert r[..|r| - 1] == Digits(n / 10);
      ValueOfDigits(n / 10);
    }
  }

  /** Decimal rendering of an integer that may be negative. */
  function IntToString(i: int): (r: string)
    ensures 0 <= i ==> r == Digits(i)
    ensures i < 0 ==> 2 <= |r| && r[0] == '-' && r[1..] == Digits(-i)
  {
    if i < 0 then "-" + Digits(-i) else Digits(i)
  }

  function Fill(k: nat, c: char): (r: string)
    ensures |r| == k && forall i :: 0 <= i < k ==> r[i] == c
  {
    seq(k, _ => c)
  }

  /** Left padding of `s` with the character `fill` up to `width` characters. */
  function PadStart(s: string, width: nat, fill: char): (r: string)
    ensures |r| == if |s| < width then width else |s|
    ensures forall i :: 0 <= i < |r| ==> r[i] == if i < |r| - |s| then fill else s[i - (|r| - |s|)]
  {
    if |s| >= width then s else Fill(width - |s|, fill) + s
  }

  lemma {:induction false} ValueOfZeros(k: nat)
    ensures AllDigits(Fill(k, '0')) && Value(Fill(k, '0')) == 0
    decreases k
  {
    if k > 0 {
      assert Fill(k, '0')[..k - 1] == Fill(k - 1, '0');
      ValueOfZeros(k - 1);
    }
  }

  /** Left-padding a digit string with zeros does not change the number it denotes. */
  lemma {:induction false} ValueOfZeroPadded(k: nat, s: string)
    requires AllDigits(s)
    ensures AllDigits(Fill(k, '0') + s) && Value(Fill(k, '0') + s) == Value(s)
    decreases |s|
  {
    var z := Fill(k, '0');
    if s == [] {
      assert z + s == z;
      ValueOfZeros(k);
    } else {
      var t := z + s;
      assert t[..|t| - 1] == z + s[..|s| - 1];
      ValueOfZeroPadded(k, s[..|s| - 1]);
    }
  }

  lemma ValueOfPadStart(s: string, width: nat)
    requires AllDigits(s)
    ensures AllDigits(PadStart(s, width, '0')) && Value(PadStart(s, width, '0')) == Value(s)
  {
    if |s| < width {
      ValueOfZeroPadded(width - |s|, s);
    }
  }

  /**
   * The position of the first occurrence of `c`, where a replacement acts,
   * or `|s|` when there is none.
   */
  function FirstIndex(s: string, c: char): (r: nat)
    ensures r <= |s|
    ensures forall j :: 0 <= j < r ==> s[j] != c
    ensures r < |s| ==> s[r] == c
    ensures (r == |s|) == (c !in s)
  {
    if s == [] then 0 else if s[0] == c then 0 else 1 + FirstIndex(s[1..], c)
  }

  /** Replacement of the first occurrence of the character `from` by `to`. */
  function ReplaceFirst(s: string, from: char, to: char): (r: string)
    ensures |r| == |s|
  {
    if s == [] then []
    else if s[0] == from then [to] + s[1..]
    else [s[0]] + ReplaceFirst(s[1..], from, to)
  }

  /**
   * Only the first occurrence of `from` changes; without one (`FirstIndex`
   * is then `|s|`), nothing does.
   */
  lemma {:induction false} ReplaceFirstSpec(s: string, from: char, to: char)
    ensures var r, i := ReplaceFirst(s, from, to), FirstIndex(s, from);
      forall j :: 0 <= j < |s| ==> r[j] == if j == i then to else s[j]
    decreases |s|
  {
    if s != [] && s[0] != from {
      ReplaceFirstSpec(s[1..], from, to);
      var r, i := ReplaceFirst(s, from, to), FirstIndex(s, from);
      forall j | 0 < j < |s|
        ensures r[j] == if j == i then to else s[j]
      {
        assert r[j] == ReplaceFirst(s[1..], from, to)[j - 1];
        assert s[1..][j - 1] == s[j];
      }
    }
  }

  /** Upper-casing of the ASCII letters; every other character is left alone. */
  function UpperAscii(c: char): (u: char)
    ensures 'a' <= c <= 'z' ==> 'A' <= u <= 'Z' && u as int == c as int - 32
    ensures !('a' <= c <= 'z') ==> u == c
  {
    if 'a' <= c <= 'z' then (c as int - 32) as char else c
  }

  /** The first character upper-cased and the rest kept; the empty string stays empty. */
  function Capitalize(s: string): (r: string)
    ensures |r| == |s|
    ensures 0 < |s| ==> r[0] == UpperAscii(s[0])
    ensures forall j :: 0 < j < |s| ==> r[j] == s[j]
  {
    if s == [] then [] else [UpperAscii(s[0])] + s[1..]
  }
}
