/**
 * The order of the version strings services emit: component by component, digit runs as
 * numbers and the rest as text, a pre-release before the release it precedes.
 */
module Versions {
  import opened Wrappers
  import opened Orders
  import opened Digits

  // ---------- one component ----------

  /** Whether a run of digits fits an unsigned 64-bit integer. */
  predicate Fits(run: string)
    requires AllDigits(run)
  {
    Value(run) < 0x1_0000_0000_0000_0000
  }

  /** Two digit runs: as numbers where both fit, and by length and then as text otherwise. */
  function CompareDigits(x: string, y: string): Ordering
    requires AllDigits(x) && AllDigits(y)
  {
    if Fits(x) && Fits(y) then CompareInts(Value(x), Value(y))
    else Then(CompareInts(|x|, |y|), CompareText(x, y))
  }

  /** The run of digits, or of anything else, that `s` starts with, and what follows it. */
  function FirstRun(s: string): (run: string)
    requires s != []
    ensures run != [] && run <= s && (IsDigit(s[0]) ==> AllDigits(run))
  {
    s[..RunEnd(s, IsDigit(s[0]))]
  }

  function AfterRun(s: string): (rest: string)
    requires s != []
    ensures |rest| < |s| && FirstRun(s) + rest == s
  {
    s[RunEnd(s, IsDigit(s[0]))..]
  }

  function CompareFirst(a: string, b: string): Ordering
    requires a != [] && b != []
  {
    if IsDigit(a[0]) && IsDigit(b[0]) then CompareDigits(FirstRun(a), FirstRun(b))
    else if IsDigit(a[0]) then Greater
    else if IsDigit(b[0]) then Less
    else CompareText(FirstRun(a), FirstRun(b))
  }

  function CompareComponent(a: string, b: string): Ordering
    decreases |a| + |b|
  {
    if a == [] || b == [] then CompareInts(|a|, |b|)
    else Then(CompareFirst(a, b), CompareComponent(AfterRun(a), AfterRun(b)))
  }

  method ComponentCompare(a: string, b: string) returns (order: Ordering)
    ensures order == CompareComponent(a, b)
  {
    var x, y := a, b;
    while x != [] && y != []
      invariant CompareComponent(x, y) == CompareComponent(a, b)
      decreases |x| + |y|
    {
      order := CompareFirst(x, y);
      x, y := AfterRun(x), AfterRun(y);
      if order != Equal {
        return;
      }
    }
    order := CompareInts(|x|, |y|);
  }

  // ---------- dotted components ----------

  predicate IsSeparator(c: char) {
    c == '.' || c == '-'
  }

  function SeparatorAt(s: string): (i: nat)
    ensures i <= |s| && (i < |s| ==> IsSeparator(s[i])) && forall j | 0 <= j < i :: !IsSeparator(s[j])
  {
    if s == [] || IsSeparator(s[0]) then 0 else 1 + SeparatorAt(s[1..])
  }

  function Split(s: string): (parts: seq<string>)
    ensures parts != []
    decreases |s|
  {
    var i := SeparatorAt(s);
    if i == |s| then [s] else [s[..i]] + Split(s[i + 1..])
  }

  /** The first component, a missing one reading as zero, and those after it. */
  function Top(parts: seq<string>): string {
    if parts == [] then "0" else parts[0]
  }

  function Pop(parts: seq<string>): (rest: seq<string>)
    ensures |rest| <= |parts| && (parts != [] ==> |rest| < |parts|)
  {
    if parts == [] then [] else parts[1..]
  }

  function CompareParts(a: seq<string>, b: seq<string>): Ordering
    decreases |a| + |b|
  {
    if a == [] && b == [] then Equal
    else Then(CompareComponent(Top(a), Top(b)), CompareParts(Pop(a), Pop(b)))
  }

  method PartsCompare(a: seq<string>, b: seq<string>) returns (order: Ordering)
    ensures order == CompareParts(a, b)
  {
    hide CompareComponent;
    var longer := if |a| < |b| then |b| else |a|;
    for i := 0 to longer
      invariant CompareParts(From(a, i), From(b, i)) == CompareParts(a, b)
    {
      var x := if i < |a| then a[i] else "0";
      var y := if i < |b| then b[i] else "0";
      order := ComponentCompare(x, y);
      assert Pop(From(a, i)) == From(a, i + 1) && Pop(From(b, i)) == From(b, i + 1);
      if order != Equal {
        return;
      }
    }
    return Equal;
  }

  function From(parts: seq<string>, i: nat): seq<string> {
    if i <= |parts| then parts[i..] else []
  }

  function CompareDotted(a: string, b: string): Ordering {
    CompareParts(Split(a), Split(b))
  }

  // ---------- a version ----------

  /** Whether the hyphen at `i` starts a pre-release rather than a package revision. */
  predicate StartsPreRelease(s: string, i: nat)
    requires i < |s|
  {
    s[i] == '-' && !(i + 1 < |s| && IsDigit(s[i + 1]))
  }

  /** Where the pre-release starts, or the length of `s`, from `i` on. */
  function ReleaseEnd(s: string, i: nat): (end: nat)
    requires i <= |s|
    ensures i <= end <= |s| && (end < |s| ==> StartsPreRelease(s, end))
    ensures forall j | i <= j < end :: !StartsPreRelease(s, j)
    decreases |s| - i
  {
    if i == |s| || StartsPreRelease(s, i) then i else ReleaseEnd(s, i + 1)
  }

  function Release(s: string): string {
    s[..ReleaseEnd(s, 0)]
  }

  function PreRelease(s: string): Option<string> {
    var end := ReleaseEnd(s, 0);
    if end < |s| then Some(s[end + 1..]) else None
  }

  method SplitPreRelease(version: string) returns (release: string, pre: Option<string>)
    ensures release == Release(version) && pre == PreRelease(version)
  {
    var at := 0;
    while at < |version|
      invariant at <= |version| && ReleaseEnd(version, at) == ReleaseEnd(version, 0)
    {
      if version[at] == '-' && !(at + 1 < |version| && IsDigit(version[at + 1])) {
        return version[..at], Some(version[at + 1..]);
      }
      at := at + 1;
    }
    assert version[..at] == version;
    return version, None;
  }

  /** Of equal releases, a pre-release comes first. */
  function ComparePre(a: Option<string>, b: Option<string>): Ordering {
    if a.None? && b.None? then Equal
    else if b.None? then Less
    else if a.None? then Greater
    else CompareDotted(a.value, b.value)
  }

  function Compare(a: string, b: string): Ordering {
    Then(CompareDotted(Release(a), Release(b)), ComparePre(PreRelease(a), PreRelease(b)))
  }
}
