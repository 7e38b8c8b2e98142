/**
 * Where the version order is an order. It flips for all versions. It chains exactly for the
 * versions whose digit runs longer than twenty characters do not fit 64 bits: a zero-padded
 * run that is long and still fits is compared by length against one that overflows and by
 * value against one that does not, and the two disagree.
 */
module VersionOrder {
  import opened Orders
  import opened Digits
  import opened Versions

  // ---------- flipping ----------

  lemma DigitsFlip(x: string, y: string)
    requires AllDigits(x) && AllDigits(y)
    ensures CompareDigits(y, x) == Flip(CompareDigits(x, y))
  {
    TextFlips(x, y);
  }

  lemma FirstFlips(a: string, b: string)
    requires a != [] && b != []
    ensures CompareFirst(b, a) == Flip(CompareFirst(a, b))
  {
    hide FirstRun, CompareDigits;
    TextFlips(FirstRun(a), FirstRun(b));
    if IsDigit(a[0]) && IsDigit(b[0]) {
      DigitsFlip(FirstRun(a), FirstRun(b));
    }
  }

  lemma {:induction false} ComponentFlips(a: string, b: string)
    ensures CompareComponent(b, a) == Flip(CompareComponent(a, b))
    decreases |a| + |b|
  {
    hide CompareFirst, AfterRun;
    if a != [] && b != [] {
      FirstFlips(a, b);
      ComponentFlips(AfterRun(a), AfterRun(b));
    }
  }

  lemma {:induction false} PartsFlip(a: seq<string>, b: seq<string>)
    ensures CompareParts(b, a) == Flip(CompareParts(a, b))
    decreases |a| + |b|
  {
    hide CompareComponent;
    if a != [] || b != [] {
      ComponentFlips(Top(a), Top(b));
      PartsFlip(Pop(a), Pop(b));
    }
  }

  /** Reversing the arguments reverses the answer, so every version equals itself. */
  lemma Flips(a: string, b: string)
    ensures Compare(b, a) == Flip(Compare(a, b))
    ensures Compare(a, a) == Equal
  {
    hide Release, PreRelease, CompareParts;
    PartsFlip(Split(Release(a)), Split(Release(b)));
    PartsFlip(Split(Release(a)), Split(Release(a)));
    var (x, y) := (PreRelease(a), PreRelease(b));
    if x.Some? {
      PartsFlip(Split(x.value), Split(x.value));
      if y.Some? {
        PartsFlip(Split(x.value), Split(y.value));
      }
    }
  }

  // ---------- chaining ----------

  /** A run that is long overflows. */
  predicate TameRun(run: string)
    requires AllDigits(run)
  {
    |run| <= 20 || !Fits(run)
  }

  /** Every run of digits in `s` is tame. */
  predicate Tame(s: string)
    decreases |s|
  {
    s == [] || ((IsDigit(s[0]) ==> TameRun(FirstRun(s))) && Tame(AfterRun(s)))
  }

  lemma TwentyDigits()
    ensures Pow10(19) == 10_000_000_000_000_000_000
  {
    assert Pow10(10) == 10_000_000_000;
    assert Pow10(13) == 10_000_000_000_000;
    assert Pow10(16) == 10_000_000_000_000_000;
  }

  /** A tame run that fits is below every run that does not. */
  lemma FittingIsBelow(x: string, y: string)
    requires AllDigits(x) && AllDigits(y) && TameRun(x) && Fits(x) && !Fits(y)
    ensures CompareDigits(x, y) == Less
  {
    if |y| < 20 {
      ValueBelow(y);
      Pow10Grows(|y|, 19);
      TwentyDigits();
      assert false;
    }
    if |x| == |y| {
      EqualLengthsCompareAsNumbers(x, y);
    }
  }

  lemma DigitsChain(x: string, y: string, z: string)
    requires AllDigits(x) && AllDigits(y) && AllDigits(z) && TameRun(x) && TameRun(y) && TameRun(z)
    ensures Chain(CompareDigits(x, y), CompareDigits(y, z), CompareDigits(x, z))
  {
    hide Value, CompareText;
    TextChains(x, y, z);
    if Fits(x) && !Fits(y) { FittingIsBelow(x, y); }
    if Fits(y) && !Fits(x) { FittingIsBelow(y, x); DigitsFlip(y, x); }
    if Fits(y) && !Fits(z) { FittingIsBelow(y, z); }
    if Fits(z) && !Fits(y) { FittingIsBelow(z, y); DigitsFlip(z, y); }
    if Fits(x) && !Fits(z) { FittingIsBelow(x, z); }
    if Fits(z) && !Fits(x) { FittingIsBelow(z, x); DigitsFlip(z, x); }
  }

  lemma FirstChains(a: string, b: string, c: string)
    requires a != [] && b != [] && c != [] && Tame(a) && Tame(b) && Tame(c)
    ensures Chain(CompareFirst(a, b), CompareFirst(b, c), CompareFirst(a, c))
  {
    hide FirstRun, CompareDigits, CompareText, TameRun;
    TextChains(FirstRun(a), FirstRun(b), FirstRun(c));
    if IsDigit(a[0]) && IsDigit(b[0]) && IsDigit(c[0]) {
      DigitsChain(FirstRun(a), FirstRun(b), FirstRun(c));
    }
  }

  lemma {:induction false} ComponentChains(a: string, b: string, c: string)
    requires Tame(a) && Tame(b) && Tame(c)
    ensures Chain(CompareComponent(a, b), CompareComponent(b, c), CompareComponent(a, c))
    decreases |a| + |b| + |c|
  {
    hide CompareFirst, AfterRun, TameRun, FirstRun;
    if a != [] && b != [] && c != [] {
      FirstChains(a, b, c);
      ComponentChains(AfterRun(a), AfterRun(b), AfterRun(c));
    }
  }

  ghost predicate TameParts(parts: seq<string>) {
    forall part <- parts :: Tame(part)
  }

  lemma TopIsTame(parts: seq<string>)
    requires TameParts(parts)
    ensures Tame(Top(parts)) && TameParts(Pop(parts))
  {
    if parts == [] {
      assert Value("0") == 0 by { assert "0"[..0] == []; }
      assert FirstRun("0") == "0" && AfterRun("0") == [];
    }
  }

  lemma PartsUnroll(a: seq<string>, b: seq<string>)
    ensures CompareParts(a, b) == Then(CompareComponent(Top(a), Top(b)), CompareParts(Pop(a), Pop(b)))
  {
    ComponentFlips("0", "0");
  }

  lemma {:induction false} PartsChain(a: seq<string>, b: seq<string>, c: seq<string>)
    requires TameParts(a) && TameParts(b) && TameParts(c)
    ensures Chain(CompareParts(a, b), CompareParts(b, c), CompareParts(a, c))
    decreases |a| + |b| + |c|
  {
    hide CompareComponent, CompareParts, Top, Pop, Tame, TameParts;
    if a == [] && b == [] && c == [] {
      PartsFlip(a, a);
    } else {
      TopIsTame(a);
      TopIsTame(b);
      TopIsTame(c);
      PartsUnroll(a, b);
      PartsUnroll(b, c);
      PartsUnroll(a, c);
      ComponentChains(Top(a), Top(b), Top(c));
      PartsChain(Pop(a), Pop(b), Pop(c));
    }
  }

  // ---------- tame pieces of tame texts ----------

  /** A run of one kind and what follows of the other are what `s` splits into. */
  lemma RunsOf(s: string, run: string, rest: string)
    requires s == run + rest && run != []
    requires forall i | 0 <= i < |run| :: IsDigit(run[i]) == IsDigit(run[0])
    requires rest != [] ==> IsDigit(rest[0]) != IsDigit(run[0])
    ensures FirstRun(s) == run && AfterRun(s) == rest
  {
    var end := RunEnd(s, IsDigit(s[0]));
    assert forall i | 0 <= i < |run| :: s[i] == run[i];
    assert rest != [] ==> s[|run|] == rest[0];
    assert end == |run|;
    assert s[..|run|] == run && s[|run|..] == rest;
  }

  /** Every character of the first run is of one kind, and the next is of the other. */
  lemma TheFirstRun(s: string)
    requires s != []
    ensures forall i | 0 <= i < |FirstRun(s)| :: IsDigit(FirstRun(s)[i]) == IsDigit(s[0])
    ensures AfterRun(s) != [] ==> IsDigit(AfterRun(s)[0]) != IsDigit(s[0])
  {
  }

  /** A tame text cut before a non-digit is tame. */
  lemma {:induction false} TameFront(s: string, i: nat)
    requires Tame(s) && i <= |s| && (i < |s| ==> !IsDigit(s[i]))
    ensures Tame(s[..i])
    decreases |s|
  {
    hide FirstRun, AfterRun, TameRun, IsDigit;
    if 0 < i {
      var (run, rest) := (FirstRun(s), AfterRun(s));
      TheFirstRun(s);
      assert run[0] == s[0];
      if i < |run| {
        assert run[i] == s[i];
        RunsOf(s[..i], run[..i], []);
      } else {
        assert s[..i] == run + rest[..i - |run|];
        RunsOf(s[..i], run, rest[..i - |run|]);
        assert i < |s| ==> s[i] == rest[i - |run|];
        TameFront(rest, i - |run|);
      }
    }
  }

  /** And so is what follows a non-digit. */
  lemma {:induction false} TameBack(s: string, i: nat)
    requires Tame(s) && 0 < i <= |s| && !IsDigit(s[i - 1])
    ensures Tame(s[i..])
    decreases |s|
  {
    hide FirstRun, AfterRun, TameRun, IsDigit;
    var (run, rest) := (FirstRun(s), AfterRun(s));
    TheFirstRun(s);
    assert run[0] == s[0];
    if i < |run| {
      assert run[i - 1] == s[i - 1];
      assert s[i..] == run[i..] + rest;
      RunsOf(s[i..], run[i..], rest);
    } else {
      assert s[i..] == rest[i - |run|..];
      if i > |run| {
        assert s[i - 1] == rest[i - |run| - 1];
        TameBack(rest, i - |run|);
      } else {
        assert rest[0..] == rest;
      }
    }
  }

  lemma {:induction false} SplitIsTame(s: string)
    requires Tame(s)
    ensures TameParts(Split(s))
    decreases |s|
  {
    var i := SeparatorAt(s);
    if i < |s| {
      assert IsSeparator(s[i]) && !IsDigit(s[i]);
      TameFront(s, i);
      TameBack(s, i + 1);
      SplitIsTame(s[i + 1..]);
    }
  }

  lemma TameHalves(s: string)
    requires Tame(s)
    ensures TameParts(Split(Release(s)))
    ensures PreRelease(s).Some? ==> TameParts(Split(PreRelease(s).value))
  {
    hide Tame, Split, IsDigit;
    var end := ReleaseEnd(s, 0);
    assert end < |s| ==> s[end] == '-';
    HyphenIsNoDigit();
    TameFront(s, end);
    SplitIsTame(s[..end]);
    if end < |s| {
      TameBack(s, end + 1);
      SplitIsTame(s[end + 1..]);
    }
  }

  lemma HyphenIsNoDigit()
    ensures !IsDigit('-')
  {
  }

  /** On tame versions the order chains: it is a total preorder there. */
  lemma TameVersionsChain(a: string, b: string, c: string)
    requires Tame(a) && Tame(b) && Tame(c)
    ensures Chain(Compare(a, b), Compare(b, c), Compare(a, c))
  {
    hide Tame, Release, PreRelease, CompareParts, Split, TameParts;
    TameHalves(a);
    TameHalves(b);
    TameHalves(c);
    PartsChain(Split(Release(a)), Split(Release(b)), Split(Release(c)));
    var (x, y, z) := (PreRelease(a), PreRelease(b), PreRelease(c));
    if x.Some? && y.Some? && z.Some? {
      PartsChain(Split(x.value), Split(y.value), Split(z.value));
    }
  }

  // ---------- what the order says ----------

  /** A candidate for a release comes before it, whatever the release and the candidate. */
  lemma APreReleasePrecedes(release: string, pre: string)
    requires PreRelease(release).None? && (pre == [] || !IsDigit(pre[0]))
    ensures Compare(release + "-" + pre, release) == Less
  {
    var (v, n) := (release + "-" + pre, |release|);
    assert StartsPreRelease(v, n) by {
      assert v[n] == '-' && (pre != [] ==> v[n + 1] == pre[0]);
    }
    forall j: nat | j < n
      ensures !StartsPreRelease(v, j)
    {
      assert v[j] == release[j] && !StartsPreRelease(release, j);
      assert j + 1 < n ==> v[j + 1] == release[j + 1];
    }
    assert ReleaseEnd(v, 0) == n && v[..n] == release == Release(release);
    hide CompareParts, ReleaseEnd;
    PartsFlip(Split(release), Split(release));
  }

  /** A separator-free text before a separator is the first part. */
  lemma SplitAtTheFirst(first: string, separator: char, rest: string)
    requires SeparatorAt(first) == |first| && IsSeparator(separator)
    ensures Split(first + [separator] + rest) == [first] + Split(rest)
  {
    var (v, n) := (first + [separator] + rest, |first|);
    assert SeparatorAt(v) == n by {
      assert forall j | 0 <= j < n :: v[j] == first[j];
      assert v[n] == separator;
    }
    assert v[..n] == first && v[n + 1..] == rest;
  }

  lemma Regroup<T>(a: seq<T>, b: seq<T>, c: seq<T>, d: seq<T>, e: seq<T>)
    ensures a + b + c + d + e == a + b + (c + d + e)
  {
  }

  /** A text up to its first separator, that separator, and the rest. */
  lemma CutAtTheFirst(s: string) returns (first: string, separator: char, rest: string)
    requires SeparatorAt(s) < |s|
    ensures s == first + [separator] + rest && SeparatorAt(first) == |first| && IsSeparator(separator)
  {
    var i := SeparatorAt(s);
    first, separator, rest := s[..i], s[i], s[i + 1..];
    assert forall j | 0 <= j < i :: first[j] == s[j];
  }

  lemma {:induction false} SplitDotted(s: string, last: string)
    requires SeparatorAt(last) == |last|
    ensures Split(s + "." + last) == Split(s) + [last]
    decreases |s|
  {
    assert Split(last) == [last];
    hide SeparatorAt, Split;
    if SeparatorAt(s) < |s| {
      var first, separator, rest := CutAtTheFirst(s);
      SplitDotted(rest, last);
      Regroup(first, [separator], rest, ".", last);
      SplitAtTheFirst(first, separator, rest);
      SplitAtTheFirst(first, separator, rest + "." + last);
    } else {
      SplitAtTheFirst(s, '.', last);
      SplitNowhere(s);
    }
  }

  lemma SplitNowhere(s: string)
    requires SeparatorAt(s) == |s|
    ensures Split(s) == [s]
  {
  }

  lemma {:induction false} ZeroPart(parts: seq<string>)
    ensures CompareParts(parts + ["0"], parts) == Equal
  {
    hide CompareComponent;
    ComponentFlips(Top(parts), Top(parts));
    if parts == [] {
      ComponentFlips("0", "0");
      assert parts + ["0"] == ["0"] && ["0"][1..] == [];
    } else {
      assert (parts + ["0"])[1..] == parts[1..] + ["0"];
      ZeroPart(parts[1..]);
    }
  }

  lemma DottedZero(s: string)
    ensures CompareParts(Split(s + ".0"), Split(s)) == Equal
  {
    assert SeparatorAt("0") == 1;
    hide CompareParts, Split;
    assert s + "." + "0" == s + ".0";
    SplitDotted(s, "0");
    ZeroPart(Split(s));
  }

  lemma Extended<T>(s: seq<T>, more: seq<T>, i: nat)
    requires i <= |s|
    ensures (s + more)[..i] == s[..i] && (s + more)[i..] == s[i..] + more
  {
  }

  /** A trailing zero component is the same version. */
  lemma ATrailingZeroIsNothing(version: string)
    ensures Compare(version + ".0", version) == Equal
  {
    hide SeparatorAt, CompareParts, ReleaseEnd, Split;
    var (v, end) := (version + ".0", ReleaseEnd(version, 0));
    SameCut(version);
    Extended(version, ".0", end);
    if end < |version| {
      Extended(version, ".0", end + 1);
      DottedZero(version[end + 1..]);
      PartsFlip(Split(version[..end]), Split(version[..end]));
    } else {
      assert v[..|v|] == v && version[..end] == version;
      DottedZero(version);
    }
  }

  lemma SameCut(version: string)
    ensures var (v, end) := (version + ".0", ReleaseEnd(version, 0));
      ReleaseEnd(v, 0) == if end < |version| then end else |v|
  {
    var (v, n) := (version + ".0", |version|);
    assert v[n] == '.' && v[n + 1] == '0';
    forall j: nat | j < n
      ensures StartsPreRelease(v, j) == StartsPreRelease(version, j)
    {
      assert v[j] == version[j];
      assert j + 1 < n ==> v[j + 1] == version[j + 1];
    }
    assert !StartsPreRelease(v, n) && !StartsPreRelease(v, n + 1);
  }
}
