/**
 * What the package order says of versions as they are written, `[epoch:]upstream[-revision]`: the
 * epochs decide, then the upstream versions, then the revisions, and each by the first number or
 * the first character that differs.
 */
module PackageOrder {
  import opened Orders
  import opened Digits
  import opened Dpkg

  // ---------- one part ----------

  lemma {:induction false} WeightsShare(p: string, a: string, b: string)
    ensures CompareWeights(p + a, p + b) == CompareWeights(a, b)
  {
    if p == [] {
      assert p + a == a && p + b == b;
    } else {
      WeightsShare(p[1..], a, b);
      assert (p + a)[1..] == p[1..] + a && (p + b)[1..] == p[1..] + b;
    }
  }

  lemma RunEndIs(s: string, digits: bool, end: nat)
    requires end <= |s| && (forall i | 0 <= i < end :: IsDigit(s[i]) == digits)
    requires end < |s| ==> IsDigit(s[end]) != digits
    ensures RunEnd(s, digits) == end
  {
  }

  /** A front without digits joins the first text. */
  lemma TextJoins(p: string, u: string)
    requires RunEnd(p, false) == |p|
    ensures TextRun(p + u) == p + TextRun(u) && DigitRun(p + u) == DigitRun(u) && Rest(p + u) == Rest(u)
  {
    hide RunEnd, IsDigit, AllDigits;
    JoinedText(p, u);
  }

  lemma JoinedText(p: string, u: string)
    requires RunEnd(p, false) == |p|
    ensures var (s, end) := (p + u, RunEnd(u, false));
      s[..RunEnd(s, false)] == p + u[..end] && s[RunEnd(s, false)..] == u[end..]
  {
    RunEndJoins(p, u);
    Past(p, u, RunEnd(u, false), RunEnd(p + u, false));
  }

  lemma RunEndJoins(p: string, u: string)
    requires RunEnd(p, false) == |p|
    ensures RunEnd(p + u, false) == |p| + RunEnd(u, false)
  {
    var (s, n, end) := (p + u, |p|, RunEnd(u, false));
    assert forall i | 0 <= i < n :: s[i] == p[i];
    assert forall i | n <= i < |s| :: s[i] == u[i - n];
    RunEndIs(s, false, n + end);
  }

  /** And one with digits keeps its runs. */
  lemma RunsStay(p: string, u: string)
    requires RunEnd(p, false) < |p| && (EndsClear(p) || StartsClear(u))
    ensures TextRun(p + u) == TextRun(p) && DigitRun(p + u) == DigitRun(p) && Rest(p + u) == Rest(p) + u
    ensures EndsClear(p) ==> EndsClear(Rest(p))
  {
    hide RunEnd, IsDigit, AllDigits, EndsClear;
    RestEnds(p);
    if u == [] {
      assert p + u == p && Rest(p) + u == Rest(p);
    } else {
      SplitExtended(p, u, false);
      SplitExtended(p[RunEnd(p, false)..], u, true);
    }
  }

  lemma RestEnds(p: string)
    requires RunEnd(p, false) < |p|
    ensures var rest := p[RunEnd(p, false)..];
      EndsClear(p) ==> RunEnd(rest, true) < |rest| && EndsClear(Rest(p))
    ensures var rest := p[RunEnd(p, false)..];
      !EndsClear(p) && RunEnd(rest, true) == |rest| ==> Rest(p) == []
  {
    hide RunEnd;
    var rest := p[RunEnd(p, false)..];
    assert rest[|rest| - 1] == p[|p| - 1];
    var last := rest[RunEnd(rest, true)..];
    assert last != [] ==> last[|last| - 1] == p[|p| - 1];
  }

  /** Two parts compare by what follows the front they share. */
  lemma {:induction false} PartsShare(p: string, u: string, w: string)
    requires EndsClear(p) || (StartsClear(u) && StartsClear(w))
    ensures ComparePart(p + u, p + w) == ComparePart(u, w)
    decreases |p|
  {
    hide TextRun, DigitRun, Rest, CompareRuns, CompareWeights, ComparePart, IsDigit;
    PartUnrolls(p + u, p + w);
    if RunEnd(p, false) == |p| {
      TextJoins(p, u);
      TextJoins(p, w);
      WeightsShare(p, TextRun(u), TextRun(w));
      PartUnrolls(u, w);
    } else {
      RunsStay(p, u);
      RunsStay(p, w);
      WeightsFlip(TextRun(p), TextRun(p));
      RunsFlip(DigitRun(p), DigitRun(p));
      PartsShare(Rest(p), u, w);
    }
  }

  lemma RunFirst(x: string, q: string)
    requires IsRun(x) && StartsClear(q)
    ensures TextRun(x + q) == [] && DigitRun(x + q) == x && Rest(x + q) == q
  {
    var s := x + q;
    assert IsDigit(x[0]) && s[0] == x[0];
    RunEndIs(s, false, 0);
    assert s[0..] == s;
    assert forall i | 0 <= i < |x| :: s[i] == x[i];
    assert q != [] ==> s[|x|] == q[0];
    RunEndIs(s, true, |x|);
    hide RunEnd, IsDigit;
    assert s[..|x|] == x && s[|x|..] == q;
  }

  /** Parts that part at a number compare by it, and then by what follows. */
  lemma PartsPartAt(p: string, x: string, q: string, y: string, r: string)
    requires EndsClear(p) && IsRun(x) && IsRun(y) && StartsClear(q) && StartsClear(r)
    ensures ComparePart(p + x + q, p + y + r) == Then(CompareInts(Value(x), Value(y)), ComparePart(q, r))
  {
    hide TextRun, DigitRun, Rest, CompareRuns, ComparePart, IsDigit, Value;
    assert p + x + q == p + (x + q) && p + y + r == p + (y + r);
    PartsShare(p, x + q, y + r);
    PartUnrolls(x + q, y + r);
    RunFirst(x, q);
    RunFirst(y, r);
    RunsCompareAsNumbers(x, y);
  }

  /** Where a character of text sorts before another: tildes first, letters next, and by code within. */
  predicate Lighter(c: char, d: char) {
    if c == '~' || d == '~' then d != '~'
    else if IsLetter(c) == IsLetter(d) then c < d
    else IsLetter(c)
  }

  lemma TextFirst(c: char, q: string)
    requires !IsDigit(c)
    ensures TextRun([c] + q) == [c] + TextRun(q)
  {
    assert RunEnd([c], false) == 1;
    hide TextRun, DigitRun, Rest, RunEnd;
    TextJoins([c], q);
  }

  /** Parts that part at a character of text compare by where it sorts. */
  lemma PartsPartAtText(p: string, c: char, q: string, d: char, r: string)
    requires !IsDigit(c) && !IsDigit(d) && Lighter(c, d)
    ensures ComparePart(p + [c] + q, p + [d] + r) == Less
  {
    assert p + [c] + q == p + ([c] + q) && p + [d] + r == p + ([d] + r);
    PartsShare(p, [c] + q, [d] + r);
    TextFirst(c, q);
    TextFirst(d, r);
    assert ([c] + TextRun(q))[0] == c && ([d] + TextRun(r))[0] == d;
    assert c as int < 0x11_0000 && Weight(c) < Weight(d);
    WeightsUnroll([c] + TextRun(q), [d] + TextRun(r));
    hide TextRun, DigitRun, Rest, CompareRuns, CompareWeights, ComparePart;
    PartUnrolls([c] + q, [d] + r);
  }

  // ---------- a version as written ----------

  /** What comes before the first colon, where there is one, is not a number, and so no epoch. */
  predicate Epochless(s: string) {
    forall i | 0 <= i < |s| && s[i] == ':' && ':' !in s[..i] :: !IsRun(s[..i])
  }

  /** An epoch with its colon or none, an upstream version, and a hyphen with its revision or none. */
  predicate Written(front: string, upstream: string, back: string) {
    && (front == [] ==> Epochless(upstream + back))
    && (front != [] ==> IsRun(front[..|front| - 1]) && front[|front| - 1] == ':')
    && (back == [] ==> '-' !in upstream)
    && (back != [] ==> back[0] == '-' && '-' !in back[1..])
  }

  function EpochIn(front: string): (epoch: nat)
    requires front != [] ==> IsRun(front[..|front| - 1])
  {
    if front == [] then 0 else Value(front[..|front| - 1])
  }

  lemma FirstIs(s: string, c: char, i: nat)
    requires i <= |s| && (i < |s| ==> s[i] == c) && forall j | 0 <= j < i :: s[j] != c
    ensures First(s, c) == i
  {
  }

  lemma LastIs(s: string, c: char, i: nat)
    requires i < |s| && s[i] == c && forall j | i < j < |s| :: s[j] != c
    ensures Last(s, c) == i
  {
    assert c in s;
  }

  lemma EpochWritten(front: string, rest: string)
    requires front == [] ==> Epochless(rest)
    requires front != [] ==> IsRun(front[..|front| - 1]) && front[|front| - 1] == ':'
    ensures EpochOf(front + rest) == (if front == [] then "0" else front[..|front| - 1], rest)
  {
    var s := front + rest;
    if front == [] {
      assert s == rest;
      var colon := First(s, ':');
      assert ':' !in s[..colon];
    } else {
      var n := |front| - 1;
      forall j | 0 <= j < n
        ensures s[j] != ':'
      {
        assert s[j] == front[..n][j] && IsDigit(front[..n][j]);
      }
      assert s[n] == ':';
      FirstIs(s, ':', n);
      hide First;
      assert s[..n] == front[..n] && s[n + 1..] == rest;
    }
  }

  lemma RevisionWritten(upstream: string, back: string)
    requires back == [] ==> '-' !in upstream
    requires back != [] ==> back[0] == '-' && '-' !in back[1..]
    ensures RevisionOf(upstream + back) == (upstream, if back == [] then "0" else back[1..])
  {
    var (s, n) := (upstream + back, |upstream|);
    if back == [] {
      assert s == upstream;
      assert forall j | 0 <= j < |s| :: s[j] in s;
    } else {
      assert s[n] == '-';
      forall j | n < j < |s|
        ensures s[j] != '-'
      {
        assert s[j] == back[1..][j - n - 1];
      }
      LastIs(s, '-', n);
      hide Last;
      assert s[..n] == upstream && s[n + 1..] == back[1..];
    }
  }

  lemma PartsWritten(front: string, upstream: string, back: string)
    requires Written(front, upstream, back)
    ensures PartsOf(front + upstream + back) == Parts(
      if front == [] then "0" else front[..|front| - 1], upstream, if back == [] then "0" else back[1..])
  {
    hide EpochOf, RevisionOf;
    assert front + upstream + back == front + (upstream + back);
    EpochWritten(front, upstream + back);
    RevisionWritten(upstream, back);
  }

  lemma EpochsCompare(front: string, other: string)
    requires front != [] ==> IsRun(front[..|front| - 1])
    requires other != [] ==> IsRun(other[..|other| - 1])
    ensures var (e, f) := (if front == [] then "0" else front[..|front| - 1],
        if other == [] then "0" else other[..|other| - 1]);
      CompareRuns(e, f) == CompareInts(EpochIn(front), EpochIn(other))
  {
    ZeroIsZero();
    hide Value, CompareRuns;
    RunsCompareAsNumbers(
      if front == [] then "0" else front[..|front| - 1], if other == [] then "0" else other[..|other| - 1]);
  }

  lemma ZeroIsZero()
    ensures AllDigits("0") && Value("0") == 0
  {
    assert "0"[..0] == [];
  }

  /** The smaller epoch is the earlier version, whatever follows it; a missing one is zero. */
  lemma TheSmallerEpochIsEarlier(
      front: string, upstream: string, back: string, front': string, upstream': string, back': string)
    requires Written(front, upstream, back) && Written(front', upstream', back')
    requires EpochIn(front) < EpochIn(front')
    ensures Compare(front + upstream + back, front' + upstream' + back') == Less
  {
    hide PartsOf, CompareRuns, ComparePart, EpochIn, AllDigits;
    PartsWritten(front, upstream, back);
    PartsWritten(front', upstream', back');
    EpochsCompare(front, front');
  }

  /** With one epoch, upstream versions that part at a number go by it, whatever the revisions. */
  lemma TheSmallerUpstreamIsEarlier(
      front: string, back: string, front': string, back': string,
      p: string, x: string, q: string, y: string, r: string)
    requires Written(front, p + x + q, back) && Written(front', p + y + r, back')
    requires EpochIn(front) == EpochIn(front')
    requires EndsClear(p) && IsRun(x) && IsRun(y) && StartsClear(q) && StartsClear(r)
    requires Value(x) < Value(y)
    ensures Compare(front + (p + x + q) + back, front' + (p + y + r) + back') == Less
  {
    hide PartsOf, CompareRuns, ComparePart, EpochIn, AllDigits, Value;
    PartsWritten(front, p + x + q, back);
    PartsWritten(front', p + y + r, back');
    EpochsCompare(front, front');
    PartsPartAt(p, x, q, y, r);
  }

  /** And those that part at a character of text, by where that sorts. */
  lemma TheLighterUpstreamIsEarlier(
      front: string, back: string, front': string, back': string,
      p: string, c: char, q: string, d: char, r: string)
    requires Written(front, p + [c] + q, back) && Written(front', p + [d] + r, back')
    requires EpochIn(front) == EpochIn(front')
    requires !IsDigit(c) && !IsDigit(d) && Lighter(c, d)
    ensures Compare(front + (p + [c] + q) + back, front' + (p + [d] + r) + back') == Less
  {
    hide PartsOf, CompareRuns, ComparePart, EpochIn, AllDigits, Value, Lighter;
    PartsWritten(front, p + [c] + q, back);
    PartsWritten(front', p + [d] + r, back');
    EpochsCompare(front, front');
    PartsPartAtText(p, c, q, d, r);
  }

  /** With one epoch and one upstream version, revisions that part at a number go by it. */
  lemma TheSmallerRevisionIsEarlier(
      front: string, front': string, upstream: string, p: string, x: string, q: string, y: string, r: string)
    requires Written(front, upstream, "-" + (p + x + q)) && Written(front', upstream, "-" + (p + y + r))
    requires EpochIn(front) == EpochIn(front')
    requires EndsClear(p) && IsRun(x) && IsRun(y) && StartsClear(q) && StartsClear(r)
    requires Value(x) < Value(y)
    ensures Compare(front + upstream + ("-" + (p + x + q)), front' + upstream + ("-" + (p + y + r))) == Less
  {
    hide PartsOf, CompareRuns, ComparePart, EpochIn, AllDigits, Value;
    PartsWritten(front, upstream, "-" + (p + x + q));
    PartsWritten(front', upstream, "-" + (p + y + r));
    assert ("-" + (p + x + q))[1..] == p + x + q && ("-" + (p + y + r))[1..] == p + y + r;
    EpochsCompare(front, front');
    PartFlips(upstream, upstream);
    PartsPartAt(p, x, q, y, r);
  }

  lemma StillEpochless(upstream: string)
    requires Epochless(upstream + "-0")
    ensures Epochless(upstream)
  {
    var s := upstream + "-0";
    forall i | 0 <= i < |upstream| && upstream[i] == ':' && ':' !in upstream[..i]
      ensures !IsRun(upstream[..i])
    {
      assert s[i] == ':' && s[..i] == upstream[..i];
    }
  }

  /** A missing epoch and a missing revision are both zero. */
  lemma WhatIsMissingIsZero(upstream: string, back: string)
    ensures Written([], upstream, back) ==> Compare(upstream + back, "0:" + upstream + back) == Equal
    ensures Epochless(upstream + "-0") && '-' !in upstream ==> Compare(upstream, upstream + "-0") == Equal
  {
    hide PartsOf, CompareRuns, ComparePart;
    ZeroIsZero();
    RunsFlip("0", "0");
    PartFlips(upstream, upstream);
    PartFlips("0", "0");
    assert [] + upstream == upstream;
    if Written([], upstream, back) {
      assert "0:"[..1] == "0";
      PartsWritten([], upstream, back);
      PartsWritten("0:", upstream, back);
      PartFlips(if back == [] then "0" else back[1..], if back == [] then "0" else back[1..]);
    }
    if Epochless(upstream + "-0") && '-' !in upstream {
      assert "-0"[1..] == "0" && upstream + [] == upstream;
      StillEpochless(upstream);
      PartsWritten([], upstream, []);
      PartsWritten([], upstream, "-0");
    }
  }
}
