/**
 * The order of Debian package versions, which fixes are published in. Alternating runs of
 * non-digits, by weight, and of digits, as numbers.
 */
module Dpkg {
  import opened Orders
  import opened Digits

  predicate IsLetter(c: char) {
    'a' <= c <= 'z' || 'A' <= c <= 'Z'
  }

  /** Where one character of a non-digit run sorts: a tilde below the end, letters below the rest. */
  function Weight(c: char): int {
    if c == '~' then -1 else if IsLetter(c) then c as int else c as int + 256
  }

  /** The weight of the first character, where the end of the run weighs nothing. */
  function Head(s: string): int {
    if s == [] then 0 else Weight(s[0])
  }

  function Tail(s: string): string {
    if s == [] then [] else s[1..]
  }

  function CompareWeights(a: string, b: string): Ordering
    decreases |a| + |b|
  {
    if a == [] && b == [] then Equal
    else Then(CompareInts(Head(a), Head(b)), CompareWeights(Tail(a), Tail(b)))
  }

  /** Two runs of digits, as the numbers they spell. */
  function CompareRuns(a: string, b: string): Ordering {
    Then(CompareInts(|Stripped(a)|, |Stripped(b)|), CompareText(Stripped(a), Stripped(b)))
  }

  /** The leading non-digits of `s`, the digits after them, and what follows. */
  function TextRun(s: string): string {
    s[..RunEnd(s, false)]
  }

  function DigitRun(s: string): (run: string)
    ensures AllDigits(run)
  {
    var rest := s[RunEnd(s, false)..];
    rest[..RunEnd(rest, true)]
  }

  function Rest(s: string): (rest: string)
    ensures s != [] ==> |rest| < |s|
    ensures |rest| <= |s|
  {
    var rest := s[RunEnd(s, false)..];
    rest[RunEnd(rest, true)..]
  }

  /** One part of a version, the upstream version or the revision. */
  function ComparePart(a: string, b: string): Ordering
    decreases |a| + |b|
  {
    if a == [] && b == [] then Equal
    else Then(CompareWeights(TextRun(a), TextRun(b)),
         Then(CompareRuns(DigitRun(a), DigitRun(b)), ComparePart(Rest(a), Rest(b))))
  }

  method PartCompare(a: string, b: string) returns (order: Ordering)
    ensures order == ComparePart(a, b)
  {
    var x, y := a, b;
    while x != [] || y != []
      invariant ComparePart(x, y) == ComparePart(a, b)
      decreases |x| + |y|
    {
      var text := CompareWeights(TextRun(x), TextRun(y));
      if text != Equal {
        return text;
      }
      var number := CompareRuns(DigitRun(x), DigitRun(y));
      if number != Equal {
        return number;
      }
      x, y := Rest(x), Rest(y);
    }
    return Equal;
  }

  datatype Parts = Parts(epoch: string, upstream: string, revision: string)

  /** Where `c` first is in `s`, and where it last is, or the length of `s`. */
  function First(s: string, c: char): (i: nat)
    ensures i <= |s| && (i < |s| ==> s[i] == c) && forall j | 0 <= j < i :: s[j] != c
  {
    if s == [] || s[0] == c then 0 else 1 + First(s[1..], c)
  }

  function Last(s: string, c: char): (i: nat)
    ensures i <= |s| && (i < |s| ==> s[i] == c) && (c in s ==> i < |s|)
    ensures forall j | i < j < |s| :: s[j] != c
  {
    if s == [] then 0
    else
      var rest := Last(s[..|s| - 1], c);
      if s[|s| - 1] == c then |s| - 1
      else if rest < |s| - 1 then rest
      else |s|
  }

  /** The epoch and what follows it, a missing one being zero. */
  function EpochOf(version: string): (string, string) {
    var colon := First(version, ':');
    if 0 < colon < |version| && AllDigits(version[..colon]) then (version[..colon], version[colon + 1..])
    else ("0", version)
  }

  /** The upstream version and the revision after it, a missing one being zero. */
  function RevisionOf(rest: string): (string, string) {
    var hyphen := Last(rest, '-');
    if hyphen < |rest| then (rest[..hyphen], rest[hyphen + 1..]) else (rest, "0")
  }

  /** `[epoch:]upstream[-revision]`. */
  function PartsOf(version: string): Parts {
    var (epoch, rest) := EpochOf(version);
    var (upstream, revision) := RevisionOf(rest);
    Parts(epoch, upstream, revision)
  }

  function Compare(a: string, b: string): Ordering {
    Then(CompareRuns(PartsOf(a).epoch, PartsOf(b).epoch),
    Then(ComparePart(PartsOf(a).upstream, PartsOf(b).upstream),
         ComparePart(PartsOf(a).revision, PartsOf(b).revision)))
  }

  // ---------- the order ----------

  /** Digit runs compare as the numbers they spell, at any length. */
  lemma RunsCompareAsNumbers(a: string, b: string)
    requires AllDigits(a) && AllDigits(b)
    ensures CompareRuns(a, b) == CompareInts(Value(a), Value(b))
  {
    StrippedIsTheNumber(a);
    StrippedIsTheNumber(b);
    var x, y := Stripped(a), Stripped(b);
    hide Stripped, Value, CompareText, AllDigits;
    if |x| == |y| {
      EqualLengthsCompareAsNumbers(x, y);
    } else if |x| < |y| {
      LongerIsGreater(x, y);
    } else {
      LongerIsGreater(y, x);
    }
  }

  lemma LongerIsGreater(x: string, y: string)
    requires AllDigits(x) && AllDigits(y) && |x| < |y| && y[0] != '0'
    ensures Value(x) < Value(y)
  {
    hide Value, Pow10;
    ValueBelow(x);
    ValueAtLeast(y);
    Pow10Grows(|x|, |y| - 1);
  }

  lemma RunsFlip(a: string, b: string)
    ensures CompareRuns(b, a) == Flip(CompareRuns(a, b))
  {
    TextFlips(Stripped(a), Stripped(b));
  }

  lemma RunsChain(a: string, b: string, c: string)
    ensures Chain(CompareRuns(a, b), CompareRuns(b, c), CompareRuns(a, c))
  {
    TextChains(Stripped(a), Stripped(b), Stripped(c));
  }

  lemma {:induction false} WeightsFlip(a: string, b: string)
    ensures CompareWeights(b, a) == Flip(CompareWeights(a, b))
    decreases |a| + |b|
  {
    if a != [] || b != [] {
      WeightsFlip(Tail(a), Tail(b));
    }
  }

  /** The comparison unrolls past the end of both runs: nothing weighs as much as nothing. */
  lemma WeightsUnroll(a: string, b: string)
    ensures CompareWeights(a, b) == Then(CompareInts(Head(a), Head(b)), CompareWeights(Tail(a), Tail(b)))
  {
  }

  lemma {:induction false} WeightsChain(a: string, b: string, c: string)
    ensures Chain(CompareWeights(a, b), CompareWeights(b, c), CompareWeights(a, c))
    decreases |a| + |b| + |c|
  {
    if a != [] || b != [] || c != [] {
      WeightsChain(Tail(a), Tail(b), Tail(c));
      WeightsUnroll(a, b);
      WeightsUnroll(b, c);
      WeightsUnroll(a, c);
      ThenChains(
        CompareInts(Head(a), Head(b)), CompareInts(Head(b), Head(c)), CompareInts(Head(a), Head(c)),
        CompareWeights(Tail(a), Tail(b)), CompareWeights(Tail(b), Tail(c)), CompareWeights(Tail(a), Tail(c)));
    }
  }

  lemma {:induction false} PartFlips(a: string, b: string)
    ensures ComparePart(b, a) == Flip(ComparePart(a, b))
    decreases |a| + |b|
  {
    if a != [] || b != [] {
      PartFlips(Rest(a), Rest(b));
      PartUnrolls(a, b);
      PartUnrolls(b, a);
      hide TextRun, DigitRun, Rest, CompareRuns, CompareWeights, ComparePart;
      WeightsFlip(TextRun(a), TextRun(b));
      RunsFlip(DigitRun(a), DigitRun(b));
    }
  }

  lemma PartUnrolls(a: string, b: string)
    ensures ComparePart(a, b) == Then(CompareWeights(TextRun(a), TextRun(b)),
      Then(CompareRuns(DigitRun(a), DigitRun(b)), ComparePart(Rest(a), Rest(b))))
  {
    if a == [] && b == [] {
      assert TextRun(a) == [] && DigitRun(a) == [] && Rest(a) == [];
    }
  }

  lemma {:induction false} PartChains(a: string, b: string, c: string)
    ensures Chain(ComparePart(a, b), ComparePart(b, c), ComparePart(a, c))
    decreases |a| + |b| + |c|
  {
    if a != [] || b != [] || c != [] {
      PartChains(Rest(a), Rest(b), Rest(c));
      PartUnrolls(a, b);
      PartUnrolls(b, c);
      PartUnrolls(a, c);
      hide TextRun, DigitRun, Rest, CompareRuns, CompareWeights, ComparePart;
      WeightsChain(TextRun(a), TextRun(b), TextRun(c));
      RunsChain(DigitRun(a), DigitRun(b), DigitRun(c));
    }
  }

  /** Reversing the arguments reverses the answer, so every version equals itself. */
  lemma Flips(a: string, b: string)
    ensures Compare(b, a) == Flip(Compare(a, b))
    ensures Compare(a, a) == Equal
  {
    var (x, y) := (PartsOf(a), PartsOf(b));
    hide PartsOf, CompareRuns, ComparePart;
    RunsFlip(x.epoch, y.epoch);
    PartFlips(x.upstream, y.upstream);
    PartFlips(x.revision, y.revision);
    RunsFlip(x.epoch, x.epoch);
    PartFlips(x.upstream, x.upstream);
    PartFlips(x.revision, x.revision);
  }

  /** The package order is a total preorder on all strings, well-formed versions or not. */
  lemma Chains(a: string, b: string, c: string)
    ensures Chain(Compare(a, b), Compare(b, c), Compare(a, c))
  {
    var (x, y, z) := (PartsOf(a), PartsOf(b), PartsOf(c));
    hide PartsOf, CompareRuns, ComparePart;
    RunsChain(x.epoch, y.epoch, z.epoch);
    PartChains(x.upstream, y.upstream, z.upstream);
    PartChains(x.revision, y.revision, z.revision);
  }

  // ---------- what an extension means ----------

  lemma {:induction false} WeightsExtended(s: string, more: string)
    requires more != []
    ensures CompareWeights(s + more, s) == if more[0] == '~' then Less else Greater
  {
    if s != [] {
      assert (s + more)[1..] == s[1..] + more;
      WeightsExtended(s[1..], more);
    } else {
      assert s + more == more;
    }
  }

  /** Past its first digit, a text extended by a non-digit keeps its runs and extends the rest. */
  lemma RunsExtended(s: string, more: string)
    requires more != [] && !IsDigit(more[0]) && RunEnd(s, false) < |s|
    ensures TextRun(s + more) == TextRun(s) && DigitRun(s + more) == DigitRun(s)
    ensures Rest(s + more) == Rest(s) + more
  {
    hide RunEnd, IsDigit, AllDigits;
    SplitExtended(s, more, false);
    SplitExtended(s[RunEnd(s, false)..], more, true);
  }

  /** A text without digits, extended by a non-digit, is one longer run. */
  lemma TextExtended(s: string, more: string) returns (front: string)
    requires more != [] && !IsDigit(more[0]) && RunEnd(s, false) == |s|
    ensures TextRun(s) == s
    ensures front <= more && front != [] && TextRun(s + more) == s + front
  {
    var end := RunEnd(s + more, false);
    assert end > |s| by {
      RunEndExtended(s, more, false);
      assert (s + more)[|s|] == more[0];
    }
    hide RunEnd, IsDigit, AllDigits;
    front := more[..end - |s|];
    assert (s + more)[..end] == s + front;
  }

  /**
   * A tilde puts a build before the one it extends, as a candidate before its release, and
   * any other suffix after it, as a security rebuild after the revision it patches.
   */
  lemma {:induction false} AnExtensionIsLater(s: string, more: string)
    requires more != [] && !IsDigit(more[0])
    ensures ComparePart(s + more, s) == if more[0] == '~' then Less else Greater
    decreases |s|
  {
    hide TextRun, DigitRun, Rest, CompareRuns, CompareWeights;
    if RunEnd(s, false) == |s| {
      var front := TextExtended(s, more);
      WeightsExtended(s, front);
    } else {
      RunsExtended(s, more);
      WeightsFlip(TextRun(s), TextRun(s));
      RunsFlip(DigitRun(s), DigitRun(s));
      AnExtensionIsLater(Rest(s), more);
    }
  }

  lemma {:induction false} FirstExtended(s: string, more: string, c: char)
    requires c !in more
    ensures First(s + more, c) == if c in s then First(s, c) else |s + more|
  {
    var whole := s + more;
    assert forall i | 0 <= i < |s| :: whole[i] == s[i];
    var i := First(whole, c);
    assert i < |whole| ==> c in whole;
    if c in s {
      assert c in whole;
    }
  }

  lemma LastExtended(s: string, more: string, c: char)
    requires c !in more
    ensures Last(s + more, c) == if Last(s, c) < |s| then Last(s, c) else |s + more|
  {
    var (whole, i, j) := (s + more, Last(s, c), Last(s + more, c));
    assert forall k | 0 <= k < |s| :: whole[k] == s[k];
    assert forall k | |s| <= k < |whole| :: whole[k] in more;
    assert i < |s| ==> whole[i] == c;
    assert j < |whole| ==> j < |s| && s[j] == c;
  }

  /** A text extended is extended past any place within it. */
  lemma TailExtended(s: string, more: string, i: nat)
    requires i <= |s|
    ensures (s + more)[..i] == s[..i] && (s + more)[i..] == s[i..] + more
  {
  }

  lemma EpochExtended(version: string, more: string)
    requires ':' !in more
    ensures EpochOf(version + more) == (EpochOf(version).0, EpochOf(version).1 + more)
  {
    FirstExtended(version, more, ':');
    var colon := First(version, ':');
    hide First, AllDigits;
    if colon < |version| {
      assert version[colon] in version;
      TailExtended(version, more, colon);
      TailExtended(version, more, colon + 1);
    }
  }

  lemma RevisionExtended(rest: string, more: string)
    requires '-' !in more
    ensures var (whole, p) := (RevisionOf(rest + more), RevisionOf(rest));
      whole == (p.0, p.1 + more) || whole == (p.0 + more, p.1)
  {
    LastExtended(rest, more, '-');
    var hyphen := Last(rest, '-');
    hide Last;
    if hyphen < |rest| {
      TailExtended(rest, more, hyphen);
      TailExtended(rest, more, hyphen + 1);
    }
  }

  /** The parts of a version extended by neither a colon nor a hyphen: the last of them is extended. */
  lemma PartsExtended(version: string, more: string)
    requires ':' !in more && '-' !in more
    ensures var (whole, p) := (PartsOf(version + more), PartsOf(version));
      whole == p.(revision := p.revision + more) || whole == p.(upstream := p.upstream + more)
  {
    hide EpochOf, RevisionOf;
    EpochExtended(version, more);
    RevisionExtended(EpochOf(version).1, more);
  }

  /**
   * A package version extended by a tilde comes before the one it extends, as a candidate before
   * its release, and by anything else after it, as a security rebuild after what it patches.
   */
  lemma AnExtendedVersionIsLater(version: string, more: string)
    requires more != [] && !IsDigit(more[0]) && ':' !in more && '-' !in more
    ensures Compare(version + more, version) == if more[0] == '~' then Less else Greater
  {
    hide PartsOf, CompareRuns, ComparePart;
    PartsExtended(version, more);
    var p := PartsOf(version);
    RunsFlip(p.epoch, p.epoch);
    PartFlips(p.upstream, p.upstream);
    PartFlips(p.revision, p.revision);
    AnExtensionIsLater(p.upstream, more);
    AnExtensionIsLater(p.revision, more);
  }
}
