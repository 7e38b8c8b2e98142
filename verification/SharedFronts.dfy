/**
 * What decides between two versions that start alike: not the front they share, but the number,
 * the text or the want of either that they part at.
 */
module SharedFronts {
  import opened Wrappers
  import opened Orders
  import opened Digits
  import opened Versions
  import opened VersionOrder

  /** No run of digits, and none of text, goes on from `p` into `u`. */
  predicate Parts(p: string, u: string) {
    || p == [] || u == []
    || IsSeparator(p[|p| - 1]) || IsSeparator(u[0])
    || IsDigit(p[|p| - 1]) != IsDigit(u[0])
  }

  // ---------- within a component ----------

  /** What `p` starts with is what any text extending it past its last run starts with. */
  lemma RunsOfAFront(p: string, more: string)
    requires p != [] && (more == [] || IsDigit(p[|p| - 1]) != IsDigit(more[0]))
    ensures FirstRun(p + more) == FirstRun(p) && AfterRun(p + more) == AfterRun(p) + more
    ensures AfterRun(p) != [] ==> AfterRun(p)[|AfterRun(p)| - 1] == p[|p| - 1]
  {
    hide IsDigit;
    var (run, rest) := (FirstRun(p), AfterRun(p));
    TheFirstRun(p);
    hide FirstRun, AfterRun;
    assert run[0] == p[0];
    if rest == [] {
      assert p == run && run[|run| - 1] == p[|p| - 1];
    } else {
      assert rest[|rest| - 1] == p[|p| - 1];
    }
    assert p + more == run + (rest + more);
    RunsOf(p + more, run, rest + more);
  }

  lemma FirstEquals(a: string, b: string)
    requires a != [] && b != [] && FirstRun(a) == FirstRun(b)
    ensures CompareFirst(a, b) == Equal
  {
    assert a[0] == FirstRun(a)[0] && b[0] == FirstRun(b)[0];
    TextFlips(FirstRun(a), FirstRun(a));
    if IsDigit(a[0]) {
      DigitsFlip(FirstRun(a), FirstRun(a));
    }
  }

  lemma {:induction false} ComponentsShare(p: string, u: string, w: string)
    requires p == [] || u == [] || IsDigit(p[|p| - 1]) != IsDigit(u[0])
    requires p == [] || w == [] || IsDigit(p[|p| - 1]) != IsDigit(w[0])
    ensures CompareComponent(p + u, p + w) == CompareComponent(u, w)
    decreases |p|
  {
    hide IsDigit, FirstRun, AfterRun, CompareFirst;
    if p == [] {
      assert p + u == u && p + w == w;
    } else {
      RunsOfAFront(p, u);
      RunsOfAFront(p, w);
      FirstEquals(p + u, p + w);
      ComponentsShare(AfterRun(p), u, w);
    }
  }

  // ---------- components ----------

  /** The first component of `q`, and nothing past it. */
  function FirstPart(q: string): string {
    q[..SeparatorAt(q)]
  }

  lemma SeparatorAtIs(s: string, i: nat)
    requires i <= |s| && (i < |s| ==> IsSeparator(s[i])) && forall j | 0 <= j < i :: !IsSeparator(s[j])
    ensures SeparatorAt(s) == i
  {
  }

  /** A digit run holds no separator. */
  lemma NoSeparatorIn(x: string)
    requires IsRun(x)
    ensures SeparatorAt(x) == |x|
  {
    forall j | 0 <= j < |x|
      ensures !IsSeparator(x[j])
    {
      assert IsDigit(x[j]);
    }
    SeparatorAtIs(x, |x|);
  }

  /** After a text without one, the first separator is that of what follows. */
  lemma SeparatorAfter(p: string, q: string)
    requires SeparatorAt(p) == |p|
    ensures SeparatorAt(p + q) == |p| + SeparatorAt(q) && FirstPart(p + q) == p + FirstPart(q)
  {
    var (s, i) := (p + q, SeparatorAt(q));
    assert forall j | 0 <= j < |p| :: s[j] == p[j];
    assert forall j | |p| <= j < |s| :: s[j] == q[j - |p|];
    SeparatorAtIs(s, |p| + i);
    assert s[..|p| + i] == p + q[..i];
  }

  lemma TopAndPop(s: string)
    ensures Top(Split(s)) == FirstPart(s)
    ensures var i := SeparatorAt(s);
      Pop(Split(s)) == if i == |s| then [] else Split(s[i + 1..])
  {
    hide SeparatorAt;
    assert s[..|s|] == s;
  }

  /** So what follows joins the first component, and leaves the others as they were. */
  lemma SplitAfter(p: string, q: string)
    requires SeparatorAt(p) == |p|
    ensures Top(Split(p + q)) == p + FirstPart(q) && Top(Split(q)) == FirstPart(q)
    ensures Pop(Split(p + q)) == Pop(Split(q))
  {
    hide Split, Top, Pop, SeparatorAt, FirstPart;
    SeparatorAfter(p, q);
    TopAndPop(p + q);
    TopAndPop(q);
    var i := SeparatorAt(q);
    if i < |q| {
      assert (p + q)[|p| + i + 1..] == q[i + 1..];
    }
  }

  lemma DropAComponent(p: string, more: string)
    requires SeparatorAt(p) < |p|
    ensures Split(p + more) == [p[..SeparatorAt(p)]] + Split(p[SeparatorAt(p) + 1..] + more)
  {
    var i := SeparatorAt(p);
    assert forall j | 0 <= j <= i :: (p + more)[j] == p[j];
    SeparatorAtIs(p + more, i);
    assert (p + more)[..i] == p[..i] && (p + more)[i + 1..] == p[i + 1..] + more;
  }

  /** Two dotted texts compare by what follows the front they share. */
  lemma {:induction false} DottedShare(p: string, u: string, w: string)
    requires Parts(p, u) && Parts(p, w)
    ensures CompareDotted(p + u, p + w) == CompareDotted(u, w)
    decreases |p|
  {
    hide CompareComponent, Split, SeparatorAt, IsDigit, FirstPart;
    var i := SeparatorAt(p);
    if i == |p| {
      SplitAfter(p, u);
      SplitAfter(p, w);
      LastRunsPart(p, u);
      LastRunsPart(p, w);
      ComponentsShare(p, FirstPart(u), FirstPart(w));
    } else {
      DropAComponent(p, u);
      DropAComponent(p, w);
      var p' := p[i + 1..];
      assert p' != [] ==> p'[|p'| - 1] == p[|p| - 1];
      DottedShare(p', u, w);
      ComponentFlips(p[..i], p[..i]);
    }
    PartsUnroll(Split(p + u), Split(p + w));
    PartsUnroll(Split(u), Split(w));
  }

  lemma LastRunsPart(p: string, u: string)
    requires Parts(p, u) && SeparatorAt(p) == |p|
    ensures p == [] || FirstPart(u) == [] || IsDigit(p[|p| - 1]) != IsDigit(FirstPart(u)[0])
  {
    assert p != [] ==> !IsSeparator(p[|p| - 1]);
  }

  lemma DottedFlips(s: string)
    ensures CompareDotted(s, s) == Equal
  {
    PartsFlip(Split(s), Split(s));
  }

  // ---------- versions ----------

  /** Both ends of a hyphen that ends the front are on the same side of it. */
  predicate SameSide(p: string, u: string, w: string) {
    p != [] && p[|p| - 1] == '-' ==> (StartsClear(u) <==> StartsClear(w))
  }

  /** Whether a hyphen in a shared front starts a pre-release does not depend on what follows. */
  lemma SameMarks(p: string, u: string, w: string)
    requires SameSide(p, u, w)
    ensures var (a, b, n) := (p + u, p + w, |p|);
      && (ReleaseEnd(a, 0) < n ==> ReleaseEnd(b, 0) == ReleaseEnd(a, 0))
      && (ReleaseEnd(a, 0) >= n ==> ReleaseEnd(a, 0) == n + ReleaseEnd(u, 0))
      && (ReleaseEnd(a, 0) >= n ==> ReleaseEnd(b, 0) == n + ReleaseEnd(w, 0))
  {
    var (a, b, n) := (p + u, p + w, |p|);
    assert forall j | 0 <= j < n :: a[j] == p[j] && b[j] == p[j];
    assert u != [] ==> a[n] == u[0];
    assert w != [] ==> b[n] == w[0];
    forall j: nat | j < n
      ensures StartsPreRelease(a, j) == StartsPreRelease(b, j)
    {
    }
    MarksAfter(p, u);
    MarksAfter(p, w);
  }

  lemma MarksAfter(p: string, u: string)
    ensures ReleaseEnd(p + u, 0) >= |p| ==> ReleaseEnd(p + u, 0) == |p| + ReleaseEnd(u, 0)
  {
    var (a, n) := (p + u, |p|);
    forall j: nat | j < |u|
      ensures StartsPreRelease(a, n + j) == StartsPreRelease(u, j)
    {
      assert a[n + j] == u[j] && (j + 1 < |u| ==> a[n + j + 1] == u[j + 1]);
    }
    hide StartsPreRelease, ReleaseEnd;
    var (e, k) := (ReleaseEnd(a, 0), ReleaseEnd(u, 0));
    if n <= e {
      assert e < |a| ==> StartsPreRelease(u, e - n);
      assert k < |u| ==> StartsPreRelease(a, n + k);
    }
  }

  /** Cutting at a separator leaves the first component as it is. */
  lemma FirstPartOfACut(q: string, k: nat)
    requires k <= |q| && (k < |q| ==> IsSeparator(q[k]))
    ensures FirstPart(q[..k]) == FirstPart(q)
  {
    var i := SeparatorAt(q);
    assert i <= k;
    SeparatorAtIs(q[..k], i);
    assert q[..k][..i] == q[..i];
  }

  /** A version whose pre-release starts in its front. */
  lemma CutWithin(p: string, u: string)
    requires Parts(p, u) && ReleaseEnd(p + u, 0) < |p|
    ensures var e := ReleaseEnd(p + u, 0);
      && Release(p + u) == p[..e] && PreRelease(p + u) == Some(p[e + 1..] + u)
      && Parts(p[e + 1..], u)
  {
    hide ReleaseEnd, IsDigit;
    var e := ReleaseEnd(p + u, 0);
    assert (p + u)[..e] == p[..e] && (p + u)[e + 1..] == p[e + 1..] + u;
  }

  /** And one whose does not. */
  lemma CutAfter(p: string, u: string)
    requires ReleaseEnd(p + u, 0) == |p| + ReleaseEnd(u, 0)
    ensures Release(p + u) == p + Release(u) && PreRelease(p + u) == PreRelease(u)
  {
    hide ReleaseEnd;
    var k := ReleaseEnd(u, 0);
    Past(p, u, k, |p| + k);
    if k < |u| {
      Past(p, u, k + 1, |p| + k + 1);
    }
  }

  lemma CutParts(p: string, u: string)
    requires Parts(p, u)
    ensures Parts(p, Release(u))
  {
    hide ReleaseEnd, IsDigit;
  }

  /**
   * Two versions that share a front compare by what follows it: as versions, or as parts of a
   * pre-release where that started in the front.
   */
  lemma TheFrontIsNothing(p: string, u: string, w: string)
    requires Parts(p, u) && Parts(p, w) && SameSide(p, u, w)
    ensures Compare(p + u, p + w) == if ReleaseEnd(p + u, 0) < |p| then CompareDotted(u, w) else Compare(u, w)
  {
    hide CompareDotted, Parts, SameSide, Release, PreRelease, ReleaseEnd;
    var e := ReleaseEnd(p + u, 0);
    SameMarks(p, u, w);
    if e < |p| {
      CutWithin(p, u);
      CutWithin(p, w);
      DottedFlips(p[..e]);
      DottedShare(p[e + 1..], u, w);
    } else {
      CutAfter(p, u);
      CutAfter(p, w);
      CutParts(p, u);
      CutParts(p, w);
      DottedShare(p, Release(u), Release(w));
    }
  }

  lemma DottedByTheFirst(u: string, w: string)
    ensures var first := CompareComponent(FirstPart(u), FirstPart(w));
      first != Equal ==> CompareDotted(u, w) == first
  {
    hide CompareComponent, FirstPart, SeparatorAt, Split;
    TopAndPop(u);
    TopAndPop(w);
    PartsUnroll(Split(u), Split(w));
  }

  lemma ReleaseKeepsTheFirst(u: string)
    ensures FirstPart(Release(u)) == FirstPart(u)
  {
    FirstPartOfACut(u, ReleaseEnd(u, 0));
  }

  /** So the first component ends that differ decide, whatever follows them. */
  lemma TheFirstDifferenceDecides(p: string, u: string, w: string)
    requires Parts(p, u) && Parts(p, w) && SameSide(p, u, w)
    ensures var first := CompareComponent(FirstPart(u), FirstPart(w));
      first != Equal ==> Compare(p + u, p + w) == first
  {
    hide CompareComponent, CompareDotted, FirstPart, Parts, SameSide, Release, PreRelease, ReleaseEnd;
    TheFrontIsNothing(p, u, w);
    DottedByTheFirst(u, w);
    ReleaseKeepsTheFirst(u);
    ReleaseKeepsTheFirst(w);
    DottedByTheFirst(Release(u), Release(w));
  }

  // ---------- what the order says of versions as written ----------

  /** Components that start in numbers compare by them, and then by what follows. */
  lemma NumbersFirst(x: string, q: string, y: string, r: string)
    requires IsRun(x) && IsRun(y) && StartsClear(q) && StartsClear(r)
    ensures CompareComponent(FirstPart(x + q), FirstPart(y + r))
      == Then(CompareDigits(x, y), CompareComponent(FirstPart(q), FirstPart(r)))
  {
    hide CompareDigits;
    NoSeparatorIn(x);
    NoSeparatorIn(y);
    SeparatorAfter(x, q);
    SeparatorAfter(y, r);
    assert IsDigit(x[0]) && IsDigit(y[0]);
    RunsOf(x + FirstPart(q), x, FirstPart(q));
    RunsOf(y + FirstPart(r), y, FirstPart(r));
    hide FirstRun, AfterRun, FirstPart;
  }

  /** Two versions that part at a digit run compare by it, and then by the component's end. */
  lemma VersionsPartAt(p: string, x: string, q: string, y: string, r: string)
    requires EndsClear(p) && IsRun(x) && IsRun(y) && StartsClear(q) && StartsClear(r)
    ensures var first := Then(CompareDigits(x, y), CompareComponent(FirstPart(q), FirstPart(r)));
      first != Equal ==> Compare(p + x + q, p + y + r) == first
  {
    hide CompareDigits, CompareComponent, FirstPart, Compare;
    assert p + x + q == p + (x + q) && p + y + r == p + (y + r);
    assert IsDigit(x[0]) && IsDigit(y[0]);
    NumbersFirst(x, q, y, r);
    TheFirstDifferenceDecides(p, x + q, y + r);
  }

  /**
   * Of two versions alike up to a number, the one with the smaller number is earlier, whatever
   * follows: by value where both fit 64 bits, and past that a longer run is the later one.
   */
  lemma TheSmallerNumberIsEarlier(p: string, x: string, q: string, y: string, r: string)
    requires EndsClear(p) && IsRun(x) && IsRun(y) && StartsClear(q) && StartsClear(r)
    ensures Value(x) < Value(y) < 0x1_0000_0000_0000_0000 ==> Compare(p + x + q, p + y + r) == Less
    ensures Value(x) >= 0x1_0000_0000_0000_0000 || Value(y) >= 0x1_0000_0000_0000_0000 ==>
      (|x| < |y| || (|x| == |y| && Value(x) < Value(y)) ==> Compare(p + x + q, p + y + r) == Less)
  {
    hide Compare, CompareComponent, Value, FirstPart, CompareText;
    VersionsPartAt(p, x, q, y, r);
    if |x| == |y| {
      EqualLengthsCompareAsNumbers(x, y);
    }
  }

  lemma NoMarkInARun(x: string, q: string)
    requires IsRun(x)
    ensures ReleaseEnd(x + q, 0) == |x| + ReleaseEnd(q, 0)
  {
    forall j: nat | j < |x|
      ensures (x + q)[j] != '-'
    {
      assert (x + q)[j] == x[j] && IsDigit(x[j]);
    }
    MarksAfter(x, q);
  }

  lemma DottedSameNumber(x: string, y: string, q: string)
    requires IsRun(x) && IsRun(y) && StartsClear(q) && CompareDigits(x, y) == Equal
    ensures CompareDotted(x + q, y + q) == Equal
  {
    hide CompareDigits, CompareComponent, FirstPart, Split, SeparatorAt;
    NumbersFirst(x, q, y, q);
    ComponentFlips(FirstPart(q), FirstPart(q));
    NoSeparatorIn(x);
    NoSeparatorIn(y);
    SeparatorAfter(x, q);
    SeparatorAfter(y, q);
    SplitAfter(x, q);
    SplitAfter(y, q);
    PartsUnroll(Split(x + q), Split(y + q));
    PartsFlip(Pop(Split(q)), Pop(Split(q)));
  }

  lemma VersionsSameNumber(x: string, y: string, q: string)
    requires IsRun(x) && IsRun(y) && StartsClear(q) && CompareDigits(x, y) == Equal
    ensures Compare(x + q, y + q) == Equal
  {
    hide CompareDigits, CompareDotted, Release, PreRelease, ReleaseEnd, IsDigit, IsRun, StartsClear;
    NoMarkInARun(x, q);
    NoMarkInARun(y, q);
    CutAfter(x, q);
    CutAfter(y, q);
    ReleaseStartsClear(q);
    DottedSameNumber(x, y, Release(q));
    SameCandidate(PreRelease(q));
  }

  /** A number written another way is the same version. */
  lemma TheSameNumberIsTheSameVersion(p: string, x: string, y: string, q: string)
    requires EndsClear(p) && IsRun(x) && IsRun(y) && StartsClear(q)
    requires Value(x) == Value(y) < 0x1_0000_0000_0000_0000
    ensures Compare(p + x + q, p + y + q) == Equal
  {
    hide CompareDotted, Compare, Value;
    assert IsDigit(x[0]) && IsDigit(y[0]);
    assert p + x + q == p + (x + q) && p + y + q == p + (y + q);
    TheFrontIsNothing(p, x + q, y + q);
    DottedSameNumber(x, y, q);
    VersionsSameNumber(x, y, q);
  }

  lemma ReleaseStartsClear(q: string)
    requires StartsClear(q)
    ensures StartsClear(Release(q))
  {
  }

  lemma SameCandidate(pre: Option<string>)
    ensures ComparePre(pre, pre) == Equal
  {
    hide CompareDotted;
    if pre.Some? {
      DottedFlips(pre.value);
    }
  }

  predicate IsText(t: string) {
    t != [] && forall i | 0 <= i < |t| :: !IsDigit(t[i]) && !IsSeparator(t[i])
  }

  /** Nothing, or what cannot be more of a text. */
  predicate EndsText(q: string) {
    q == [] || IsDigit(q[0]) || IsSeparator(q[0])
  }

  lemma TextIsInOneComponent(t: string)
    requires IsText(t)
    ensures SeparatorAt(t) == |t|
  {
    SeparatorAtIs(t, |t|);
  }

  lemma TextFirst(t: string, q: string)
    requires IsText(t) && EndsText(q)
    ensures var part := FirstPart(t + q);
      part != [] && !IsDigit(part[0]) && FirstRun(part) == t && AfterRun(part) == FirstPart(q)
  {
    TextIsInOneComponent(t);
    SeparatorAfter(t, q);
    RunsOf(t + FirstPart(q), t, FirstPart(q));
  }

  /** Of two versions alike up to a piece of text, the text decides, in the order of text. */
  lemma TextsCompareAsText(p: string, t: string, q: string, s: string, r: string)
    requires IsText(t) && IsText(s) && t != s && EndsText(q) && EndsText(r)
    requires p == [] || IsDigit(p[|p| - 1]) || IsSeparator(p[|p| - 1])
    ensures Compare(p + t + q, p + s + r) == CompareText(t, s)
  {
    hide FirstRun, AfterRun, FirstPart, Compare, CompareText, SeparatorAt, IsDigit;
    TextFirst(t, q);
    TextFirst(s, r);
    TextFlips(t, s);
    assert p + t + q == p + (t + q) && p + s + r == p + (s + r);
    assert (t + q)[0] == t[0] && (s + r)[0] == s[0];
    TheFirstDifferenceDecides(p, t + q, s + r);
  }

  /** At the start of a component, a digit is later than a letter. */
  lemma ADigitIsLaterThanALetter(p: string, d: char, q: string, c: char, r: string)
    requires p == [] || p[|p| - 1] == '.'
    requires IsDigit(d) && !IsDigit(c) && !IsSeparator(c)
    ensures Compare(p + [d] + q, p + [c] + r) == Greater
  {
    assert p + [d] + q == p + ([d] + q) && p + [c] + r == p + ([c] + r);
    var (u, w) := ([d] + q, [c] + r);
    assert SeparatorAt(u) > 0 && SeparatorAt(w) > 0;
    assert FirstPart(u)[0] == d && FirstPart(w)[0] == c;
    TheFirstDifferenceDecides(p, u, w);
    hide FirstPart, Compare, FirstRun, AfterRun, SeparatorAt;
  }

  /** The text `v` ends with, if any, and what comes before it. */
  lemma {:induction false} LastText(v: string) returns (p: string, t: string)
    ensures v == p + t && (t == [] || IsText(t)) && (p == [] || IsDigit(p[|p| - 1]) || IsSeparator(p[|p| - 1]))
  {
    if v == [] || IsDigit(v[|v| - 1]) || IsSeparator(v[|v| - 1]) {
      p, t := v, [];
    } else {
      p, t := LastText(v[..|v| - 1]);
      assert v == v[..|v| - 1] + [v[|v| - 1]] == p + (t + [v[|v| - 1]]);
      t := t + [v[|v| - 1]];
    }
  }

  lemma TheTextOf(more: string) returns (t: string, q: string)
    requires more != [] && !IsDigit(more[0]) && !IsSeparator(more[0])
    ensures more == t + q && IsText(t) && EndsText(q)
    decreases |more|
  {
    if |more| == 1 || IsDigit(more[1]) || IsSeparator(more[1]) {
      t, q := more[..1], more[1..];
    } else {
      t, q := TheTextOf(more[1..]);
      assert more == [more[0]] + more[1..] == ([more[0]] + t) + q;
      t := [more[0]] + t;
    }
  }

  lemma {:induction false} TextOfAPrefix(a: string, more: string)
    requires more != []
    ensures CompareText(a, a + more) == Less
  {
    if a != [] {
      assert (a + more)[1..] == a[1..] + more;
      TextOfAPrefix(a[1..], more);
    }
  }

  /** A version that goes on into text is later than where it started: the component that runs out is smaller. */
  lemma MoreTextIsLater(v: string, more: string)
    requires more != [] && !IsDigit(more[0]) && !IsSeparator(more[0])
    ensures Compare(v, v + more) == Less
  {
    hide FirstPart, Compare, FirstRun, AfterRun, CompareText, IsDigit;
    var p, t := LastText(v);
    var t', q := TheTextOf(more);
    if t == [] {
      assert v == v + [] == p;
      TextFirst(t', q);
      NothingComesFirst();
      TheFirstDifferenceDecides(v, [], more);
    } else {
      assert v + more == p + (t + t') + q && v == p + t + [];
      TextOfAPrefix(t, t');
      TextsCompareAsText(p, t, [], t + t', q);
    }
  }

  /** And so it is where a number follows its text. */
  lemma ANumberAfterTextIsLater(v: string, more: string)
    requires v != [] && !IsDigit(v[|v| - 1]) && !IsSeparator(v[|v| - 1])
    requires more != [] && IsDigit(more[0])
    ensures Compare(v, v + more) == Less
  {
    assert SeparatorAt(more) > 0;
    assert v + [] == v && FirstPart(more) != [];
    NothingComesFirst();
    TheFirstDifferenceDecides(v, [], more);
    hide FirstPart, Compare, FirstRun, AfterRun, SeparatorAt;
  }

  lemma NothingComesFirst()
    ensures FirstPart([]) == []
  {
  }

  lemma DottedByTheSecond(q: string)
    ensures var second := CompareComponent("0", FirstPart(q));
      second != Equal ==> CompareDotted([], "." + q) == second
  {
    hide CompareComponent, FirstPart, SeparatorAt, Split;
    assert [] + "." + q == "." + q;
    NothingHasNoSeparator();
    SplitNowhere([]);
    SplitAtTheFirst([], '.', q);
    TopAndPop(q);
    ComponentFlips([], []);
    PartsUnroll([[]], [[]] + Split(q));
    PartsUnroll([], Split(q));
  }

  lemma NothingHasNoSeparator()
    ensures SeparatorAt([]) == 0
  {
  }

  /** A version with a component more compares as if the other went on with a zero. */
  lemma AMissingComponent(v: string, q: string)
    ensures var second := CompareComponent("0", FirstPart(q));
      second != Equal ==> Compare(v, v + "." + q) == second
  {
    hide CompareComponent, CompareDotted, FirstPart, Release, PreRelease, ReleaseEnd;
    assert v + [] == v && v + "." + q == v + ("." + q);
    TheFrontIsNothing(v, [], "." + q);
    DottedByTheSecond(q);
    NoMarkInADot(q);
    CutAfter(".", q);
    NothingIsReleased();
    ReleaseKeepsTheFirst(q);
    DottedByTheSecond(Release(q));
  }

  lemma NoMarkInADot(q: string)
    ensures ReleaseEnd("." + q, 0) == 1 + ReleaseEnd(q, 0)
  {
    assert ("." + q)[0] == '.';
    MarksAfter(".", q);
  }

  lemma NothingIsReleased()
    ensures Release([]) == []
  {
  }

  /** One component more makes a version later where it is a number above zero. */
  lemma AMissingComponentIsZero(v: string, x: string, q: string)
    requires IsRun(x) && StartsClear(q)
    ensures Value(x) > 0 ==> Compare(v, v + "." + x + q) == Less
  {
    assert v + "." + x + q == v + "." + (x + q);
    AMissingComponent(v, x + q);
    if Value(x) > 0 {
      ZeroIsBelow(x);
      NumbersFirst("0", [], x, q);
      assert "0" + [] == "0";
      ZeroIsAComponent();
    }
    hide Compare, CompareComponent, CompareDigits, FirstPart, Value;
  }

  lemma ZeroIsAComponent()
    ensures IsRun("0") && FirstPart("0") == "0"
  {
    assert SeparatorAt("0") == 1;
  }

  lemma ZeroIsBelow(x: string)
    requires IsRun(x) && Value(x) > 0
    ensures AllDigits("0") && CompareDigits("0", x) == Less
  {
    assert Value("0") == 0 by { assert "0"[..0] == []; }
    if |x| == 1 {
      ValueBelow(x);
      assert Pow10(1) == 10;
    }
  }

  /** And earlier where it is text. */
  lemma ATextComponentIsEarlier(v: string, c: char, q: string)
    requires !IsDigit(c) && !IsSeparator(c)
    ensures Compare(v, v + "." + [c] + q) == Greater
  {
    assert v + "." + [c] + q == v + "." + ([c] + q);
    assert SeparatorAt([c] + q) > 0 && FirstPart([c] + q)[0] == c;
    assert CompareComponent("0", FirstPart([c] + q)) == Greater;
    hide Compare, CompareComponent, FirstPart;
    AMissingComponent(v, [c] + q);
  }
}
