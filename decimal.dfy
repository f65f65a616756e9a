/**
 * Decimal text as the animation's colour strings use it: template literals
 * print integers in base 10, and `str.match(/\d+/g).map(Number)` reads back
 * the maximal runs of decimal digits.
 */
module Decimal {

  predicate IsDigit(c: char) {
    '0' <= c <= '9'
  }

  predicate AllDigits(s: string) {
    forall k :: 0 <= k < |s| ==> IsDigit(s[k])
  }

  predicate NoDigits(s: string) {
    forall k :: 0 <= k < |s| ==> !IsDigit(s[k])
  }

  function DigitValue(c: char): (d: nat)
    requires IsDigit(c)
    ensures d < 10
  {
    c as int - '0' as int
  }

  function DigitChar(d: nat): (c: char)
    requires d < 10
    ensures IsDigit(c) && DigitValue(c) == d
  {
    ('0' as int + d) as char
  }

  /** The base-10 rendering of a non-negative integer (no sign, no leading zeros). */
  function NatToString(n: nat): string
    decreases n
  {
    if n < 10 then [DigitChar(n)] else NatToString(n / 10) + [DigitChar(n % 10)]
  }

  /** The rendering is a non-empty run of digits without a leading zero. */
  lemma {:induction false} NatToStringDigits(n: nat)
    ensures var s := NatToString(n);
            |s| > 0 && AllDigits(s) && (s[0] == '0' ==> n == 0)
    decreases n
  {
    if n >= 10 {
      NatToStringDigits(n / 10);
      var s := NatToString(n);
      assert s[0] == NatToString(n / 10)[0];
    }
  }

  /** The base-10 rendering of any integer, with a leading '-' for negatives. */
  function IntToString(i: int): (s: string)
    ensures 0 <= i ==> s == NatToString(i)
    ensures i < 0 ==> s == "-" + NatToString(-i)
  {
    if i < 0 then "-" + NatToString(-i) else NatToString(i)
  }

  /** `Number(ds)` for a non-empty run of decimal digits. */
  function DigitsValue(ds: string): nat
    requires AllDigits(ds)
  {
    if ds == [] then 0 else 10 * DigitsValue(ds[..|ds| - 1]) + DigitValue(ds[|ds| - 1])
  }

  /** Reading a printed natural number gives the number back. */
  lemma {:induction false} DigitsValueOfNatToString(n: nat)
    ensures AllDigits(NatToString(n)) && DigitsValue(NatToString(n)) == n
  {
    NatToStringDigits(n);
    if n >= 10 {
      var s := NatToString(n);
      assert s[..|s| - 1] == NatToString(n / 10);
      DigitsValueOfNatToString(n / 10);
    }
  }

  /** The length of the run of digits that starts `s`. */
  function LeadingDigits(s: string): (k: nat)
    ensures k <= |s|
    ensures AllDigits(s[..k])
    ensures k < |s| ==> !IsDigit(s[k])
  {
    if s == [] || !IsDigit(s[0]) then 0
    else
      var k := 1 + LeadingDigits(s[1..]);
      assert s[..k] == [s[0]] + s[1..][..k - 1];
      k
  }

  /**
   * `s.match(/\d+/g)?.map(Number)`: the values of the maximal runs of
   * decimal digits in `s`, left to right ([] where JavaScript gives null).
   */
  function DigitRuns(s: string): seq<nat>
    decreases |s|
  {
    if s == [] then []
    else if !IsDigit(s[0]) then DigitRuns(s[1..])
    else
      var k := LeadingDigits(s);
      [DigitsValue(s[..k])] + DigitRuns(s[k..])
  }

  /** A prefix without digits contributes no run. */
  lemma {:induction false} DigitRunsSkipsNonDigits(p: string, t: string)
    requires NoDigits(p)
    ensures DigitRuns(p + t) == DigitRuns(t)
  {
    if p != [] {
      assert (p + t)[0] == p[0] && !IsDigit(p[0]);
      assert (p + t)[1..] == p[1..] + t;
      assert DigitRuns(p + t) == DigitRuns(p[1..] + t);
      DigitRunsSkipsNonDigits(p[1..], t);
    } else {
      assert p + t == t;
    }
  }

  lemma {:induction false} LeadingDigitsOfRun(d: string, t: string)
    requires AllDigits(d)
    requires t == [] || !IsDigit(t[0])
    ensures LeadingDigits(d + t) == |d|
  {
    if d != [] {
      assert (d + t)[1..] == d[1..] + t;
      LeadingDigitsOfRun(d[1..], t);
    }
  }

  /**
   * `x` reads as the runs `rx` wherever it is followed by a non-digit: it
   * neither merges with nor hides the runs after it.
   */
  ghost predicate ReadsAs(x: string, rx: seq<nat>) {
    forall t: string {:trigger DigitRuns(x + t)} :: t != [] && !IsDigit(t[0]) ==> DigitRuns(x + t) == rx + DigitRuns(t)
  }

  /** A printed number followed by a non-digit is read back as one run. */
  lemma DigitRunsOfNumber(n: nat, t: string)
    requires t == [] || !IsDigit(t[0])
    ensures DigitRuns(NatToString(n) + t) == [n] + DigitRuns(t)
  {
    var d := NatToString(n);
    NatToStringDigits(n);
    LeadingDigitsOfRun(d, t);
    assert (d + t)[..|d|] == d;
    assert (d + t)[|d|..] == t;
    DigitsValueOfNatToString(n);
  }

  lemma NumberReadsAs(n: nat)
    ensures ReadsAs(NatToString(n), [n])
  {
    forall t: string | t != [] && !IsDigit(t[0])
      ensures DigitRuns(NatToString(n) + t) == [n] + DigitRuns(t)
    {
      DigitRunsOfNumber(n, t);
    }
  }
}
