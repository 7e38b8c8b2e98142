/** Runs of decimal digits, and the runs a text falls into. */
module Digits {
  import opened Orders

  predicate IsDigit(c: char) {
    '0' <= c <= '9'
  }

  predicate AllDigits(s: string) {
    forall i | 0 <= i < |s| :: IsDigit(s[i])
  }

  predicate IsRun(x: string) {
    x != [] && AllDigits(x)
  }

  /** `s` does not end, or does not start, in a digit. */
  predicate EndsClear(s: string) {
    s == [] || !IsDigit(s[|s| - 1])
  }

  predicate StartsClear(s: string) {
    s == [] || !IsDigit(s[0])
  }

  /** The number a run of digits spells, an empty one being zero. */
  function Value(digits: string): nat
    requires AllDigits(digits)
  {
    if digits == [] then 0
    else
      var last := digits[|digits| - 1];
      assert IsDigit(last);
      10 * Value(digits[..|digits| - 1]) + (last as int - '0' as int)
  }

  /** Where the leading run of digits, or of anything else, ends. */
  function RunEnd(s: string, digits: bool): (end: nat)
    ensures end <= |s|
    ensures forall i | 0 <= i < end :: IsDigit(s[i]) == digits
    ensures end < |s| ==> IsDigit(s[end]) != digits
  {
    if s == [] || IsDigit(s[0]) != digits then 0 else 1 + RunEnd(s[1..], digits)
  }

  lemma Past(p: string, u: string, k: nat, at: nat)
    requires k <= |u| && at == |p| + k
    ensures (p + u)[..at] == p + u[..k] && (p + u)[at..] == u[k..]
  {
  }

  /** The run a text starts with ends where it did, unless it went on to the very end. */
  lemma RunEndExtended(s: string, more: string, digits: bool)
    ensures RunEnd(s, digits) < |s| ==> RunEnd(s + more, digits) == RunEnd(s, digits)
    ensures RunEnd(s, digits) == |s| && more != [] && IsDigit(more[0]) != digits ==> RunEnd(s + more, digits) == |s|
    ensures RunEnd(s, digits) == |s| ==> RunEnd(s + more, digits) >= |s|
  {
    var whole := s + more;
    assert forall i | 0 <= i < |s| :: whole[i] == s[i];
    assert more != [] ==> whole[|s|] == more[0];
  }

  /** So splitting off the run splits the extended text alike. */
  lemma SplitExtended(s: string, more: string, digits: bool)
    requires RunEnd(s, digits) < |s| || (more != [] && IsDigit(more[0]) != digits)
    ensures var end := RunEnd(s, digits);
      RunEnd(s + more, digits) == end && (s + more)[..end] == s[..end] && (s + more)[end..] == s[end..] + more
  {
    RunEndExtended(s, more, digits);
    hide RunEnd, IsDigit;
    var end := RunEnd(s, digits);
    assert (s + more)[..end] == s[..end];
    assert (s + more)[end..] == s[end..] + more;
  }

  /** Digit runs of one length compare as text and as numbers alike. */
  lemma {:induction false} EqualLengthsCompareAsNumbers(a: string, b: string)
    requires AllDigits(a) && AllDigits(b) && |a| == |b|
    ensures CompareText(a, b) == CompareInts(Value(a), Value(b))
  {
    if a != [] {
      var n := |a| - 1;
      EqualLengthsCompareAsNumbers(a[..n], b[..n]);
      TextByTheLast(a, b);
      assert IsDigit(a[n]) && IsDigit(b[n]);
    }
  }

  function Pow10(n: nat): nat {
    if n == 0 then 1 else 10 * Pow10(n - 1)
  }

  lemma {:induction false} ValueBelow(a: string)
    requires AllDigits(a)
    ensures Value(a) < Pow10(|a|)
  {
    if a != [] {
      ValueBelow(a[..|a| - 1]);
      assert IsDigit(a[|a| - 1]);
    }
  }

  /** And a run that does not start with a zero is at least the power of its length. */
  lemma {:induction false} ValueAtLeast(a: string)
    requires AllDigits(a) && a != [] && a[0] != '0'
    ensures Value(a) >= Pow10(|a| - 1)
  {
    assert IsDigit(a[0]);
    if |a| == 1 {
      assert a[..0] == [] && Value([]) == 0;
    } else {
      ValueAtLeast(a[..|a| - 1]);
      assert IsDigit(a[|a| - 1]);
    }
  }

  lemma {:induction false} Pow10Grows(m: nat, n: nat)
    requires m <= n
    ensures Pow10(m) <= Pow10(n)
    decreases n - m
  {
    if m < n {
      Pow10Grows(m, n - 1);
    }
  }

  /** `s` without its leading zeros. */
  function Stripped(s: string): string {
    if s != [] && s[0] == '0' then Stripped(s[1..]) else s
  }

  /** A leading zero changes no number. */
  lemma {:induction false} LeadingZero(a: string)
    requires AllDigits(a) && a != [] && a[0] == '0'
    ensures AllDigits(a[1..]) && Value(a) == Value(a[1..])
  {
    if |a| > 1 {
      LeadingZero(a[..|a| - 1]);
      assert a[..|a| - 1][1..] == a[1..][..|a| - 2];
      assert a[1..][|a| - 2] == a[|a| - 1];
    } else {
      assert a[..0] == [] && Value([]) == 0 && a[1..] == [];
    }
  }

  lemma {:induction false} StrippedIsTheNumber(a: string)
    requires AllDigits(a)
    ensures AllDigits(Stripped(a)) && Value(Stripped(a)) == Value(a)
    ensures Stripped(a) != [] ==> Stripped(a)[0] != '0'
  {
    if a != [] && a[0] == '0' {
      LeadingZero(a);
      StrippedIsTheNumber(a[1..]);
    }
  }
}
