/** Decimal digit strings: runs of digits, their value, and the decimal
    rendering of a natural number that a template literal produces. */
module Digits {

  predicate IsDigit(c: char) {
    '0' <= c <= '9'
  }

  predicate AllDigits(s: string) {
    forall i | 0 <= i < |s| :: IsDigit(s[i])
  }

  function DigitValue(c: char): nat
    requires IsDigit(c)
  {
    c as int - '0' as int
  }

  function DigitChar(d: nat): (c: char)
    requires d < 10
    ensures IsDigit(c) && DigitValue(c) == d
  {
    ('0' as int + d) as char
  }

  /** Length of the longest run of digits in `s` that starts at index `i`. */
  function DigitRun(s: string, i: nat): (n: nat)
    requires i <= |s|
    ensures i + n <= |s|
    ensures AllDigits(s[i..i + n])
    ensures i + n == |s| || !IsDigit(s[i + n])
    decreases |s| - i
  {
    if i < |s| && IsDigit(s[i]) then
      var n := DigitRun(s, i + 1);
      assert s[i..i + 1 + n] == [s[i]] + s[i + 1..i + 1 + n];
      1 + n
    else 0
  }

  /** A run of `m` digits ending at a non-digit or at the end is the run `DigitRun` finds. */
  lemma {:induction false} DigitRunExact(s: string, i: nat, m: nat)
    requires i + m <= |s|
    requires AllDigits(s[i..i + m])
    requires i + m == |s| || !IsDigit(s[i + m])
    ensures DigitRun(s, i) == m
    decreases m
  {
    if m > 0 {
      assert s[i] == s[i..i + m][0];
      assert s[i + 1..i + m] == s[i..i + m][1..];
      DigitRunExact(s, i + 1, m - 1);
    }
  }

  /** A run is unaffected by what stands before the index it starts at. */
  lemma {:induction false} DigitRunShift(p: string, q: string, i: nat)
    requires i <= |q|
    ensures DigitRun(p + q, |p| + i) == DigitRun(q, i)
    decreases |q| - i
  {
    if i < |q| {
      assert (p + q)[|p| + i] == q[i];
      DigitRunShift(p, q, i + 1);
    }
  }

  /** A digit string followed by a non-digit is one whole run. */
  lemma DigitRunWhole(a: string, r: string)
    requires AllDigits(a)
    requires r == [] || !IsDigit(r[0])
    ensures DigitRun(a + r, 0) == |a|
  {
    assert (a + r)[0..|a|] == a;
    DigitRunExact(a + r, 0, |a|);
  }

  /** The value of a digit string read as a decimal numeral, most significant digit first. */
  function DigitsValue(s: string): nat
    requires AllDigits(s)
  {
    if s == [] then 0 else 10 * DigitsValue(s[..|s| - 1]) + DigitValue(s[|s| - 1])
  }

  function Pow10(k: nat): (p: nat)
    ensures p > 0
  {
    if k == 0 then 1 else 10 * Pow10(k - 1)
  }

  /** Digits read left to right: the first digit weighs 10^(n-1). */
  lemma {:induction false} DigitsValueFront(s: string)
    requires |s| > 0 && AllDigits(s)
    ensures DigitsValue(s) == DigitValue(s[0]) * Pow10(|s| - 1) + DigitsValue(s[1..])
    decreases |s|
  {
    if |s| > 1 {
      var init := s[..|s| - 1];
      assert init[0] == s[0];
      assert init[1..] == s[1..][..|s[1..]| - 1];
      DigitsValueFront(init);
    } else {
      assert s[..|s| - 1] == [];
    }
  }

  /** A digit string of length n is below 10^n. */
  lemma {:induction false} DigitsValueBound(s: string)
    requires AllDigits(s)
    ensures DigitsValue(s) < Pow10(|s|)
    decreases |s|
  {
    if s != [] {
      DigitsValueBound(s[..|s| - 1]);
    }
  }

  /** Decimal rendering of a natural number, without leading zeros: reading it back gives the number. */
  function NatToString(n: nat): (s: string)
    ensures |s| > 0 && AllDigits(s)
    ensures |s| > 1 ==> s[0] != '0'
    ensures DigitsValue(s) == n
  {
    if n < 10 then [DigitChar(n)]
    else
      var prefix := NatToString(n / 10);
      var s := prefix + [DigitChar(n % 10)];
      assert s[..|s| - 1] == prefix;
      s
  }

  /** `DigitRunWhole` on a string given by name. */
  lemma RunOfWhole(s: string, a: string, r: string)
    requires s == a + r && AllDigits(a) && (r == [] || !IsDigit(r[0]))
    ensures DigitRun(s, 0) == |a|
  {
    DigitRunWhole(a, r);
  }

  /** `DigitRunShift` on a string given by name. */
  lemma RunAfterPrefix(s: string, p: string, q: string, i: nat)
    requires s == p + q && i <= |q|
    ensures DigitRun(s, |p| + i) == DigitRun(q, i)
  {
    DigitRunShift(p, q, i);
  }
}
