/** How fast a scan goes: six levels, and what each writes into a configuration. */
module Pace {
  import opened Wrappers
  import opened Digits
  import opened Texts

  datatype Pace = Trickle | Sparing | Gentle | Normal | Brisk | Hurried

  datatype Effort = Single | Fast | Balanced | Thorough

  /** Gaps in milliseconds; patience scales every wait. */
  datatype Spacing = Spacing(anywhere: nat, atHost: nat, patience: Option<real>)

  const HURRIED_PATIENCE: real := 0.5

  function SpacingOf(pace: Pace): Option<Spacing> {
    match pace
    case Trickle => Some(Spacing(1000, 1000, Some(2.0)))
    case Sparing => Some(Spacing(100, 100, Some(1.5)))
    case Gentle => Some(Spacing(5, 50, None))
    case _ => None
  }

  /** What a pace has a view on. */
  datatype Settings = Settings(gap: Option<nat>, hostGap: Option<nat>, effort: Effort, patience: Option<real>)

  function Longer(held: Option<nat>, gap: nat): Option<nat> {
    if held.Some? && held.value >= gap then held else Some(gap)
  }

  function MorePatient(held: Option<real>, patience: Option<real>): Option<real> {
    if patience.None? || (held.Some? && held.value >= patience.value) then held else patience
  }

  function Applied(s: Settings, pace: Pace): Settings {
    match SpacingOf(pace)
    case Some(spacing) =>
      s.(gap := Longer(s.gap, spacing.anywhere),
         hostGap := Longer(s.hostGap, spacing.atHost),
         patience := MorePatient(s.patience, spacing.patience))
    case None =>
      match pace
      case Brisk => s.(effort := Fast)
      case Hurried => s.(effort := Fast, patience := Some(HURRIED_PATIENCE))
      case _ => s
  }

  class Config {
    var probeInterval: Option<nat>
    var hostProbeInterval: Option<nat>
    var effort: Effort
    var timeoutScale: Option<real>

    constructor ()
      ensures Now() == Settings(None, None, Balanced, None)
    {
      probeInterval, hostProbeInterval, effort, timeoutScale := None, None, Balanced, None;
    }

    function Now(): Settings
      reads this
    {
      Settings(probeInterval, hostProbeInterval, effort, timeoutScale)
    }

    method Apply(pace: Pace)
      modifies this
      ensures Now() == Applied(old(Now()), pace)
    {
      var spacing := SpacingOf(pace);
      if spacing.None? {
        match pace {
          case Brisk => effort := Fast;
          case Hurried =>
            effort := Fast;
            timeoutScale := Some(HURRIED_PATIENCE);
          case _ =>
        }
        return;
      }
      probeInterval := Longer(probeInterval, spacing.value.anywhere);
      hostProbeInterval := Longer(hostProbeInterval, spacing.value.atHost);
      if spacing.value.patience.Some? {
        timeoutScale := MorePatient(timeoutScale, spacing.value.patience);
      }
    }
  }

  /** Probes a second a gap in milliseconds comes to. */
  function PerSecond(gap: Option<nat>): Option<nat> {
    if gap.None? || gap.value == 0 then None else Some(1000 / gap.value)
  }

  /**
   * What a pace comes to on a configuration nobody has touched: one, ten and two hundred probes a
   * second across the scan; one, ten and twenty at a host; twice, half again and the usual patience;
   * and past normal no spacing at all, less effort, and at the fastest half the patience.
   */
  lemma WhatEachPaceSends(untouched: Settings)
    requires untouched == Settings(None, None, Balanced, None)
    ensures var s := Applied(untouched, Trickle);
      PerSecond(s.gap) == Some(1) == PerSecond(s.hostGap) && s.patience == Some(2.0) && s.effort == Balanced
    ensures var s := Applied(untouched, Sparing);
      PerSecond(s.gap) == Some(10) == PerSecond(s.hostGap) && s.patience == Some(1.5) && s.effort == Balanced
    ensures var s := Applied(untouched, Gentle);
      PerSecond(s.gap) == Some(200) && PerSecond(s.hostGap) == Some(20) && s.patience == None && s.effort == Balanced
    ensures Applied(untouched, Normal) == untouched
    ensures Applied(untouched, Brisk) == untouched.(effort := Fast)
    ensures Applied(untouched, Hurried) == untouched.(effort := Fast, patience := Some(0.5))
  {
  }

  // ---------- any sequence of paces ----------

  function AppliedAll(s: Settings, paces: seq<Pace>): Settings {
    if paces == [] then s else Applied(AppliedAll(s, paces[..|paces| - 1]), paces[|paces| - 1])
  }

  /** At most, an unset gap being below every set one. */
  predicate Within(a: Option<nat>, b: Option<nat>) {
    a.None? || (b.Some? && a.value <= b.value)
  }

  function GapOf(pace: Pace): Option<nat> {
    var spacing := SpacingOf(pace);
    if spacing.None? then None else Some(spacing.value.anywhere)
  }

  function HostGapOf(pace: Pace): Option<nat> {
    var spacing := SpacingOf(pace);
    if spacing.None? then None else Some(spacing.value.atHost)
  }

  function PatienceOf(pace: Pace): Option<real> {
    var spacing := SpacingOf(pace);
    if spacing.None? then None else spacing.value.patience
  }

  /** `most` is the greatest of what was set and what each pace asks for. */
  ghost predicate IsMost(most: Option<nat>, initial: Option<nat>, paces: seq<Pace>, asks: Pace -> Option<nat>) {
    && Within(initial, most) && (forall pace <- paces :: Within(asks(pace), most))
    && (most == initial || exists pace <- paces :: most == asks(pace))
  }

  lemma {:induction false} MostOneMore(
      most: Option<nat>, initial: Option<nat>, paces: seq<Pace>, pace: Pace, asks: Pace -> Option<nat>)
    requires IsMost(most, initial, paces, asks)
    ensures IsMost(if asks(pace).Some? then Longer(most, asks(pace).value) else most, initial, paces + [pace], asks)
  {
    var more := if asks(pace).Some? then Longer(most, asks(pace).value) else most;
    forall p <- paces + [pace]
      ensures Within(asks(p), more)
    {
    }
    if more == asks(pace) {
      assert pace in paces + [pace];
    } else if most != initial {
      var p :| p in paces && most == asks(p);
      assert p in paces + [pace];
    }
  }

  /** Both gaps end at the greatest of what was set and every spacing applied, fast paces or not. */
  lemma {:induction false} GapsEndAtTheGreatest(s: Settings, paces: seq<Pace>)
    ensures IsMost(AppliedAll(s, paces).gap, s.gap, paces, GapOf)
    ensures IsMost(AppliedAll(s, paces).hostGap, s.hostGap, paces, HostGapOf)
  {
    if paces != [] {
      var n := |paces| - 1;
      GapsEndAtTheGreatest(s, paces[..n]);
      var before := AppliedAll(s, paces[..n]);
      assert paces == paces[..n] + [paces[n]];
      hide IsMost;
      MostOneMore(before.gap, s.gap, paces[..n], paces[n], GapOf);
      MostOneMore(before.hostGap, s.hostGap, paces[..n], paces[n], HostGapOf);
    }
  }

  lemma OneMost(
      a: Option<nat>, b: Option<nat>, initial: Option<nat>, p: seq<Pace>, q: seq<Pace>, asks: Pace -> Option<nat>)
    requires IsMost(a, initial, p, asks) && IsMost(b, initial, q, asks)
    requires forall pace | asks(pace).Some? :: pace in p <==> pace in q
    ensures a == b
  {
    assert Within(a, b) && Within(b, a);
  }

  predicate IsSlow(pace: Pace) {
    SpacingOf(pace).Some?
  }

  /** The gaps depend on which slow paces were applied: not on order, repeats, or fast ones between. */
  lemma OrderDoesNotMatterToGaps(s: Settings, p: seq<Pace>, q: seq<Pace>)
    requires forall pace | IsSlow(pace) :: pace in p <==> pace in q
    ensures AppliedAll(s, p).gap == AppliedAll(s, q).gap && AppliedAll(s, p).hostGap == AppliedAll(s, q).hostGap
  {
    GapsEndAtTheGreatest(s, p);
    GapsEndAtTheGreatest(s, q);
    OneMost(AppliedAll(s, p).gap, AppliedAll(s, q).gap, s.gap, p, q, GapOf);
    OneMost(AppliedAll(s, p).hostGap, AppliedAll(s, q).hostGap, s.hostGap, p, q, HostGapOf);
  }

  // ---------- patience and effort ----------

  ghost predicate IsMostPatient(most: Option<real>, initial: Option<real>, paces: seq<Pace>) {
    && (initial.Some? ==> most.Some? && initial.value <= most.value)
    && (forall pace <- paces :: PatienceOf(pace).Some? ==> most.Some? && PatienceOf(pace).value <= most.value)
    && (most == initial || exists pace <- paces :: most == PatienceOf(pace))
  }

  lemma MostPatientOneMore(most: Option<real>, initial: Option<real>, paces: seq<Pace>, pace: Pace)
    requires IsMostPatient(most, initial, paces)
    ensures IsMostPatient(MorePatient(most, PatienceOf(pace)), initial, paces + [pace])
  {
    hide PatienceOf;
    var more := MorePatient(most, PatienceOf(pace));
    if more == PatienceOf(pace) {
      assert pace in paces + [pace];
    } else if most != initial {
      var p :| p in paces && most == PatienceOf(p);
      assert p in paces + [pace];
    }
  }

  /** What patience starts from: what was set, or half where a hurried pace was applied. */
  function Since(s: Settings, paces: seq<Pace>): (Option<real>, seq<Pace>) {
    if paces == [] then (s.patience, [])
    else
      var n := |paces| - 1;
      if paces[n] == Hurried then (Some(HURRIED_PATIENCE), [])
      else var (start, since) := Since(s, paces[..n]); (start, since + [paces[n]])
  }

  /** `since` is the end of `paces`, after the last hurried one where there is one. */
  predicate IsTheTail(s: Settings, paces: seq<Pace>, start: Option<real>, since: seq<Pace>) {
    && |since| <= |paces| && since == paces[|paces| - |since|..] && Hurried !in since
    && (if Hurried in paces
        then start == Some(HURRIED_PATIENCE) && |since| < |paces| && paces[|paces| - |since| - 1] == Hurried
        else start == s.patience && since == paces)
  }

  /** Since the last hurried pace, or from the start where there is none. */
  lemma {:induction false} SinceIsTheTail(s: Settings, paces: seq<Pace>)
    ensures IsTheTail(s, paces, Since(s, paces).0, Since(s, paces).1)
  {
    hide IsTheTail;
    if paces == [] {
      NothingIsTheTail(s);
    } else {
      var n := |paces| - 1;
      var front := paces[..n];
      SinceIsTheTail(s, front);
      assert paces == front + [paces[n]];
      ATailGrows(s, front, paces[n], Since(s, front).0, Since(s, front).1);
    }
  }

  lemma NothingIsTheTail(s: Settings)
    ensures IsTheTail(s, [], s.patience, [])
  {
  }

  lemma ATailGrows(s: Settings, front: seq<Pace>, last: Pace, start: Option<real>, since: seq<Pace>)
    requires IsTheTail(s, front, start, since)
    ensures if last == Hurried then IsTheTail(s, front + [last], Some(HURRIED_PATIENCE), [])
            else IsTheTail(s, front + [last], start, since + [last])
  {
    var paces := front + [last];
    assert paces[|front|] == last && forall i | 0 <= i < |front| :: paces[i] == front[i];
    if last == Hurried {
      assert paces[|paces|..] == [];
    } else {
      assert front[|front| - |since|..] + [last] == paces[|front| - |since|..];
    }
  }

  /** Patience ends at the greatest since the last hurried pace. */
  lemma {:induction false} PatienceEndsAtTheGreatestSince(s: Settings, paces: seq<Pace>)
    ensures var (start, since) := Since(s, paces); IsMostPatient(AppliedAll(s, paces).patience, start, since)
  {
    if paces != [] {
      var n := |paces| - 1;
      PatienceEndsAtTheGreatestSince(s, paces[..n]);
      var (start, since) := Since(s, paces[..n]);
      var before := AppliedAll(s, paces[..n]);
      MostPatientOneMore(before.patience, start, since, paces[n]);
      hide IsMostPatient;
      assert paces[n] != Hurried ==>
          AppliedAll(s, paces).patience == MorePatient(before.patience, PatienceOf(paces[n]));
    }
  }

  lemma {:induction false} EffortIsFastOnceAsked(s: Settings, paces: seq<Pace>)
    ensures AppliedAll(s, paces).effort == if Brisk in paces || Hurried in paces then Fast else s.effort
  {
    if paces != [] {
      var n := |paces| - 1;
      EffortIsFastOnceAsked(s, paces[..n]);
      assert paces == paces[..n] + [paces[n]];
    }
  }

  lemma OneMostPatient(a: Option<real>, b: Option<real>, initial: Option<real>, p: seq<Pace>, q: seq<Pace>)
    requires IsMostPatient(a, initial, p) && IsMostPatient(b, initial, q)
    requires forall pace :: pace in p <==> pace in q
    ensures a == b
  {
    hide PatienceOf;
    assert a.Some? ==> b.Some? && a.value <= b.value;
    assert b.Some? ==> a.Some? && b.value <= a.value;
  }

  lemma PatienceWithoutHurry(s: Settings, paces: seq<Pace>)
    requires Hurried !in paces
    ensures IsMostPatient(AppliedAll(s, paces).patience, s.patience, paces)
  {
    hide AppliedAll, Since;
    SinceIsTheTail(s, paces);
    PatienceEndsAtTheGreatestSince(s, paces);
  }

  /** Slow paces, in any order and however often, write the same. */
  lemma SlowPacesCommute(s: Settings, p: seq<Pace>, q: seq<Pace>)
    requires (forall pace <- p :: IsSlow(pace)) && (forall pace <- q :: IsSlow(pace))
    requires forall pace :: pace in p <==> pace in q
    ensures AppliedAll(s, p) == AppliedAll(s, q)
  {
    hide AppliedAll, IsMostPatient;
    OrderDoesNotMatterToGaps(s, p, q);
    EffortIsFastOnceAsked(s, p);
    EffortIsFastOnceAsked(s, q);
    PatienceWithoutHurry(s, p);
    PatienceWithoutHurry(s, q);
    OneMostPatient(AppliedAll(s, p).patience, AppliedAll(s, q).patience, s.patience, p, q);
  }

  // ---------- levels as text ----------

  function Name(pace: Pace): string {
    match pace
    case Trickle => "trickle"
    case Sparing => "sparing"
    case Gentle => "gentle"
    case Normal => "normal"
    case Brisk => "brisk"
    case Hurried => "hurried"
  }

  function Level(pace: Pace): nat {
    match pace
    case Trickle => 0
    case Sparing => 1
    case Gentle => 2
    case Normal => 3
    case Brisk => 4
    case Hurried => 5
  }

  function FromLevel(level: nat): Option<Pace> {
    match level
    case 0 => Some(Trickle)
    case 1 => Some(Sparing)
    case 2 => Some(Gentle)
    case 3 => Some(Normal)
    case 4 => Some(Brisk)
    case 5 => Some(Hurried)
    case _ => None
  }

  /** Text the library reads as an unsigned byte: an optional plus, then digits up to 255. */
  function Byte(s: string): Option<nat> {
    var digits := if s != [] && s[0] == '+' then s[1..] else s;
    if digits != [] && AllDigits(digits) && Value(digits) <= 255 then Some(Value(digits)) else None
  }

  const ALL := [Trickle, Sparing, Gentle, Normal, Brisk, Hurried]

  function FirstNamed(all: seq<Pace>, written: string): Option<Pace> {
    if all == [] then None
    else if Lower(Name(all[0])) == Lower(written) then Some(all[0])
    else FirstNamed(all[1..], written)
  }

  function Parse(text: string): Option<Pace> {
    var written := Trim(text);
    var number := Byte(written);
    if number.Some? then FromLevel(number.value) else FirstNamed(ALL, written)
  }

  /** A pace is read exactly from its number, however padded, or its name in any case. */
  lemma ReadExactlyFromItsNumberOrName(text: string, pace: Pace)
    ensures var written := Trim(text);
      Parse(text) == Some(pace) <==> Byte(written) == Some(Level(pace)) || Lower(written) == Name(pace)
  {
    hide Trim, FirstNamed, Value, Lower, Name, Byte;
    var written := Trim(text);
    NamedExactly(written, pace);
    if Lower(written) == Name(pace) {
      ANameIsNoNumber(written, pace);
    }
  }

  lemma ANameIsNoNumber(written: string, pace: Pace)
    requires Lower(written) == Name(pace)
    ensures Byte(written).None?
  {
    hide Value;
    assert |Lower(written)| == |written| && Lower(written)[0] == Name(pace)[0];
    assert !IsDigit(written[0]) && written[0] != '+';
  }

  lemma NoNameIsANumber(sign: string, digits: string, pace: Pace)
    requires (sign == "" || sign == "+") && IsRun(digits)
    ensures Lower(sign + digits) != Name(pace)
  {
    assert IsDigit(digits[0]);
    assert Lower(sign + digits)[0] != Name(pace)[0];
  }

  lemma NumbersAreTight(sign: string, digits: string)
    requires (sign == "" || sign == "+") && IsRun(digits)
    ensures Trim(sign + digits) == sign + digits
    ensures Byte(sign + digits) == if Value(digits) <= 255 then Some(Value(digits)) else None
  {
    hide Trim, Value;
    var text := sign + digits;
    assert IsDigit(digits[0]) && IsDigit(digits[|digits| - 1]);
    assert text[|text| - 1] == digits[|digits| - 1];
    assert text[0] == if sign == "" then digits[0] else '+';
    Untrimmed(text);
    assert sign == "+" ==> text[1..] == digits;
    assert sign == "" ==> text == digits;
  }

  /** Its number is any run of digits that spells it, signed or not. */
  lemma ANumberIsRead(sign: string, digits: string, pace: Pace)
    requires (sign == "" || sign == "+") && IsRun(digits)
    ensures Parse(sign + digits) == Some(pace) <==> Value(digits) == Level(pace)
  {
    hide Trim, Value, FirstNamed, Lower, Name, FromLevel, AllDigits;
    ReadExactlyFromItsNumberOrName(sign + digits, pace);
    NoNameIsANumber(sign, digits, pace);
    NumbersAreTight(sign, digits);
  }

  lemma NamesAreLower(pace: Pace)
    ensures Lower(Name(pace)) == Name(pace)
  {
  }

  lemma NamedExactly(written: string, pace: Pace)
    ensures FirstNamed(ALL, written) == Some(pace) <==> Lower(written) == Name(pace)
  {
    hide Lower;
    NamesAreLower(Trickle);
    NamesAreLower(Sparing);
    NamesAreLower(Gentle);
    NamesAreLower(Normal);
    NamesAreLower(Brisk);
    NamesAreLower(Hurried);
    NamesDiffer();
    var lowered := Lower(written);
    hide Name;
    assert FirstNamed(ALL, written) == FirstNamed([Trickle, Sparing, Gentle, Normal, Brisk, Hurried], written);
    assert FirstNamed([Hurried], written) == if Name(Hurried) == lowered then Some(Hurried) else None;
    assert FirstNamed([Brisk, Hurried], written)
        == if Name(Brisk) == lowered then Some(Brisk) else FirstNamed([Hurried], written);
    assert FirstNamed([Normal, Brisk, Hurried], written)
        == if Name(Normal) == lowered then Some(Normal) else FirstNamed([Brisk, Hurried], written);
    assert FirstNamed([Gentle, Normal, Brisk, Hurried], written)
        == if Name(Gentle) == lowered then Some(Gentle) else FirstNamed([Normal, Brisk, Hurried], written);
    assert FirstNamed([Sparing, Gentle, Normal, Brisk, Hurried], written)
        == if Name(Sparing) == lowered then Some(Sparing) else FirstNamed([Gentle, Normal, Brisk, Hurried], written);
  }

  lemma NamesDiffer()
    ensures forall a, b | a != b :: Name(a) != Name(b)
  {
    forall a, b | a != b
      ensures Name(a) != Name(b)
    {
      assert Name(a)[0] != Name(b)[0];
    }
  }
}
