/**
 * The other half of the condition: every version with a wild digit run stands in a cycle with
 * two tame ones.
 */
module WildVersions {
  import opened Orders
  import opened Digits
  import opened Versions
  import opened VersionOrder
  import opened SharedFronts

  // ---------- the cycle ----------

  /** The first wild run of a version, between a tame front and whatever follows. */
  lemma {:induction false} FirstWild(s: string) returns (p: string, x: string, q: string)
    requires !Tame(s)
    ensures s == p + x + q && Tame(p) && EndsClear(p) && StartsClear(q)
    ensures IsRun(x) && !TameRun(x)
    decreases |s|
  {
    hide FirstRun, AfterRun, TameRun, IsDigit;
    var (run, rest) := (FirstRun(s), AfterRun(s));
    TheFirstRun(s);
    if IsDigit(s[0]) && !TameRun(run) {
      p, x, q := [], run, rest;
      assert [] + run + rest == s;
    } else {
      var p', x', q' := FirstWild(rest);
      p, x, q := run + p', x', q';
      assert s == run + (p' + x' + q') == run + p' + x' + q';
      assert rest[0] == (p' + x' + q')[0];
      assert p' != [] ==> p'[0] == rest[0];
      assert p' == [] ==> rest[0] == x'[0];
      assert run[0] == s[0];
      RunsOf(run + p', run, p');
    }
  }

  function Nines(n: nat): string {
    if n == 0 then [] else Nines(n - 1) + ['9']
  }

  lemma {:induction false} NinesValue(n: nat)
    ensures |Nines(n)| == n && AllDigits(Nines(n)) && Value(Nines(n)) == Pow10(n) - 1
  {
    if n > 0 {
      NinesValue(n - 1);
      assert Nines(n)[..n - 1] == Nines(n - 1);
    }
  }

  /** A run that is long and fits is all padding before its last twenty digits. */
  lemma {:induction false} Unpadded(x: string)
    requires IsRun(x) && |x| >= 20 && Fits(x)
    ensures var z := x[|x| - 20..];
      AllDigits(z) && Value(z) == Value(x)
    decreases |x|
  {
    if |x| > 20 {
      TwentyDigits();
      assert Pow10(20) == 10 * Pow10(19);
      assert x[0] == '0' by {
        if x[0] != '0' {
          ValueAtLeast(x);
          Pow10Grows(20, |x| - 1);
        }
      }
      LeadingZero(x);
      Unpadded(x[1..]);
      assert x[1..][|x| - 1 - 20..] == x[|x| - 20..];
    } else {
      assert x[0..] == x;
    }
  }

  /** Putting a run after a tame front, and text after the run, keeps a version tame. */
  lemma {:induction false} TameExtended(p: string, x: string, t: string)
    requires Tame(p) && EndsClear(p) && IsRun(x) && TameRun(x)
    requires forall i | 0 <= i < |t| :: !IsDigit(t[i])
    ensures Tame(p + x + t)
    decreases |p|
  {
    hide FirstRun, AfterRun, TameRun, IsDigit;
    if p == [] {
      assert p + x + t == x + t;
      assert IsDigit(x[0]);
      RunsOf(x + t, x, t);
      if t != [] {
        assert t == t + [];
        RunsOf(t, t, []);
      }
    } else {
      assert p + x + t == p + (x + t);
      assert IsDigit((x + t)[0]);
      RunsOfAFront(p, x + t);
      TameExtended(AfterRun(p), x, t);
      assert AfterRun(p) + (x + t) == AfterRun(p) + x + t;
      assert p[0] == (p + (x + t))[0];
    }
  }

  /** A component's own text, made longer, is above it. */
  lemma LongerTextIsAbove(q: string) returns (t: string)
    requires StartsClear(q)
    ensures t != [] && (forall i | 0 <= i < |t| :: !IsDigit(t[i]) && !IsSeparator(t[i]))
    ensures CompareComponent(FirstPart(q), t) == Less
  {
    var part := FirstPart(q);
    var run := if part == [] then [] else FirstRun(part);
    t := run + ['a'];
    if part != [] {
      TheFirstRun(part);
      forall i | 0 <= i < |t|
        ensures !IsDigit(t[i]) && !IsSeparator(t[i])
      {
        assert i < |run| ==> t[i] == part[i] == q[i];
      }
      assert t + [] == t;
      RunsOf(t, t, []);
      TextOfAPrefix(run, ['a']);
      hide FirstRun;
    }
  }

  /** Every wild version is above a tame one that is above another that is above it. */
  lemma WildVersionsCycle(v: string) returns (u: string, w: string)
    requires !Tame(v)
    ensures Tame(u) && Tame(w)
    ensures Compare(v, u) == Greater && Compare(u, w) == Greater && Compare(w, v) == Greater
  {
    var p, x, q := FirstWild(v);
    var (y, z) := (Nines(20), x[|x| - 20..]);
    NinesValue(20);
    TwentyDigits();
    assert Pow10(20) == 10 * Pow10(19);
    Unpadded(x);
    var t := LongerTextIsAbove(q);
    u, w := p + y + [], p + z + t;
    EqualLengthsCompareAsNumbers(y, z);
    assert CompareDigits(x, y) == Greater && CompareDigits(y, z) == Greater && CompareDigits(x, z) == Equal;
    SeparatorAtIs(t, |t|);
    assert FirstPart(t) == t;
    hide Tame, Compare, CompareDigits, CompareComponent, FirstPart, Value, Pow10, Nines;
    TameExtended(p, y, []);
    TameExtended(p, z, t);
    VersionsPartAt(p, x, q, y, []);
    VersionsPartAt(p, y, [], z, t);
    VersionsPartAt(p, x, q, z, t);
    Flips(v, w);
  }

  /** A version the order can be trusted with: it chains with every pair of tame ones. */
  ghost predicate Orderly(v: string) {
    forall u, w | Tame(u) && Tame(w) :: Chain(Compare(v, u), Compare(u, w), Compare(v, w))
  }

  /** The order chains exactly where every long digit run overflows. */
  lemma OrderlyIsTame(v: string)
    ensures Orderly(v) <==> Tame(v)
  {
    hide Tame, Compare;
    if Tame(v) {
      forall u, w | Tame(u) && Tame(w)
        ensures Chain(Compare(v, u), Compare(u, w), Compare(v, w))
      {
        TameVersionsChain(v, u, w);
      }
    } else {
      var u, w := WildVersionsCycle(v);
      Flips(w, v);
      assert !Chain(Compare(v, u), Compare(u, w), Compare(v, w));
    }
  }

  function Zeros(n: nat): string {
    if n == 0 then [] else ['0'] + Zeros(n - 1)
  }

  lemma {:induction false} PaddedValue(n: nat)
    ensures var x := Zeros(n) + "1"; |x| == n + 1 && AllDigits(x) && Value(x) == 1
  {
    var x := Zeros(n) + "1";
    if n == 0 {
      assert x == "1" && "1"[..0] == [] && Value([]) == 0;
    } else {
      PaddedValue(n - 1);
      assert x == ['0'] + (Zeros(n - 1) + "1") && x[1..] == Zeros(n - 1) + "1";
      LeadingZero(x);
    }
  }

  /** For one: a release number one, padded to twenty-one digits, stands in a cycle. */
  lemma APaddedOneCycles() returns (u: string, w: string)
    ensures var v := Zeros(20) + "1";
      Compare(v, u) == Greater && Compare(u, w) == Greater && Compare(w, v) == Greater
  {
    var v := Zeros(20) + "1";
    PaddedValue(20);
    hide Zeros;
    assert v == v + [];
    RunsOf(v, v, []);
    u, w := WildVersionsCycle(v);
  }
}
