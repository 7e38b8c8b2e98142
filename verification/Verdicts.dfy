/**
 * Which group an entry is reported in and which counter it is withdrawn under, read off what the
 * distributor, the overlay and the entry say, and nothing in between.
 */
module Verdicts {
  import opened Wrappers
  import opened Texts
  import opened Ranking
  import opened Judge
  import Backport
  import Dpkg
  import Orders

  /** The overlay says nothing of the entry, or that it is in the service itself. */
  predicate Plain(overlay: Overlay, v: Vulnerability) {
    var key := (v.cve, v.vendor + ":" + v.product);
    key in overlay ==> overlay[key].Service?
  }

  predicate OutOfReach(overlay: Overlay, v: Vulnerability) {
    var key := (v.cve, v.vendor + ":" + v.product);
    key in overlay && (overlay[key].Client? || overlay[key].Local?)
  }

  predicate BehindASetting(overlay: Overlay, v: Vulnerability) {
    var key := (v.cve, v.vendor + ":" + v.product);
    key in overlay && overlay[key].Configuration?
  }

  predicate IsPlaced(judged: Judged) {
    judged.built && judged.placing.Placed?
  }

  function StatusesIn(judged: Judged, cve: string): seq<Backport.Status>
    requires IsPlaced(judged)
  {
    if cve in judged.placing.statuses then judged.placing.statuses[cve] else []
  }

  lemma PlacedAndPlain(judged: Judged, kept: seq<Vulnerability>, overlay: Overlay, v: Vulnerability)
    requires IsPlaced(judged) && v in kept && Plain(overlay, v)
    ensures var ruling := Backport.Rule(judged.placing.installed, StatusesIn(judged, v.cve));
      Classifier(judged, kept, overlay)(v) ==
        match ruling
        case WithdrawnFixed(_) => Withdrawn(Fixed)
        case WithdrawnNotAffected(_) => Withdrawn(NotAffected)
        case FixAvailable(_) => Grouped(FixAvailable, Some(ruling))
        case EsmOnly(_) => Grouped(EsmOnly, Some(ruling))
        case NoFix(_, _) => Grouped(NoFix, Some(ruling))
        case PatchLevelHidden(_) => Grouped(PatchLevelHidden, Some(ruling))
        case Untriaged => Grouped(Untriaged, Some(ruling))
        case NotTracked => Grouped(Untriaged, Some(ruling))
  {
    hide Backport.Rule;
  }

  /**
   * An entry of a placed build is reported as fixed in the archive, or in ESM, exactly where the
   * release had it, that channel's fix governs and the known build is before it; and as hidden
   * where the build is not known. The fix named is the one that governs.
   */
  lemma ReportedForAFixExactlyWhere(
      judged: Judged, kept: seq<Vulnerability>, overlay: Overlay, v: Vulnerability, fix: Backport.Fix)
    requires IsPlaced(judged) && Plain(overlay, v)
    ensures var (classify, statuses) := (Classifier(judged, kept, overlay), StatusesIn(judged, v.cve));
      var installed := judged.placing.installed;
      Ruled(v, Some(Backport.FixAvailable(fix))) in Group(kept, classify, FixAvailable) <==>
        && v in kept && !Backport.NeverAffected(statuses)
        && Backport.Governing(statuses, Backport.Archive, fix)
        && installed.Some? && Dpkg.Compare(installed.value, fix.version) == Orders.Less
    ensures var (classify, statuses) := (Classifier(judged, kept, overlay), StatusesIn(judged, v.cve));
      var installed := judged.placing.installed;
      Ruled(v, Some(Backport.EsmOnly(fix))) in Group(kept, classify, EsmOnly) <==>
        && v in kept && !Backport.NeverAffected(statuses)
        && Backport.Governing(statuses, Backport.Esm, fix)
        && installed.Some? && Dpkg.Compare(installed.value, fix.version) == Orders.Less
    ensures var (classify, statuses) := (Classifier(judged, kept, overlay), StatusesIn(judged, v.cve));
      Ruled(v, Some(Backport.PatchLevelHidden(fix))) in Group(kept, classify, PatchLevelHidden) <==>
        && v in kept && !Backport.NeverAffected(statuses) && judged.placing.installed.None?
        && (Backport.Governing(statuses, Backport.Archive, fix) || Backport.Governing(statuses, Backport.Esm, fix))
  {
    hide Classifier, Backport.Rule, Backport.Governing, Backport.NeverAffected, Dpkg.Compare, Plain, Group;
    var (classify, statuses) := (Classifier(judged, kept, overlay), StatusesIn(judged, v.cve));
    GroupHolds(kept, classify, FixAvailable, Ruled(v, Some(Backport.FixAvailable(fix))));
    GroupHolds(kept, classify, EsmOnly, Ruled(v, Some(Backport.EsmOnly(fix))));
    GroupHolds(kept, classify, PatchLevelHidden, Ruled(v, Some(Backport.PatchLevelHidden(fix))));
    if v in kept {
      PlacedAndPlain(judged, kept, overlay, v);
      Backport.RuledByAFixExactlyWhere(judged.placing.installed, statuses, fix);
    }
  }

  /**
   * It is reported without a fix exactly where the release had it, no channel fixed it, and the
   * standing status says why; and as untriaged where that says nobody has looked, or nothing does.
   */
  lemma ReportedOpenExactlyWhere(
      judged: Judged, kept: seq<Vulnerability>, overlay: Overlay, v: Vulnerability,
      kind: Backport.OpenKind, note: Option<string>)
    requires IsPlaced(judged) && Plain(overlay, v)
    ensures var (classify, statuses) := (Classifier(judged, kept, overlay), StatusesIn(judged, v.cve));
      Ruled(v, Some(Backport.NoFix(kind, note))) in Group(kept, classify, NoFix) <==>
        && v in kept && !Backport.NeverAffected(statuses) && Backport.NeverFixed(statuses)
        && kind != Backport.NeedsTriage && Backport.StandsAs(statuses, kind, note)
    ensures var (classify, statuses) := (Classifier(judged, kept, overlay), StatusesIn(judged, v.cve));
      Ruled(v, Some(Backport.Untriaged)) in Group(kept, classify, Untriaged) <==>
        && v in kept && !Backport.NeverAffected(statuses) && Backport.NeverFixed(statuses)
        && exists said :: Backport.StandsAs(statuses, Backport.NeedsTriage, said)
    ensures var (classify, statuses) := (Classifier(judged, kept, overlay), StatusesIn(judged, v.cve));
      Ruled(v, Some(Backport.NotTracked)) in Group(kept, classify, Untriaged) <==> v in kept && statuses == []
  {
    hide Classifier, Backport.Rule, Backport.StandsAs, Backport.NeverAffected, Backport.NeverFixed, Plain, Group;
    var (classify, statuses) := (Classifier(judged, kept, overlay), StatusesIn(judged, v.cve));
    GroupHolds(kept, classify, NoFix, Ruled(v, Some(Backport.NoFix(kind, note))));
    GroupHolds(kept, classify, Untriaged, Ruled(v, Some(Backport.Untriaged)));
    GroupHolds(kept, classify, Untriaged, Ruled(v, Some(Backport.NotTracked)));
    if v in kept {
      PlacedAndPlain(judged, kept, overlay, v);
      Backport.RuledOpenExactlyWhere(judged.placing.installed, statuses, kind, note);
    }
  }

  /** A group of a placed build holds rulings of its own kind and no others. */
  lemma AGroupHoldsItsOwnRulings(
      judged: Judged, kept: seq<Vulnerability>, overlay: Overlay, verdict: Verdict, r: Ruled)
    requires IsPlaced(judged) && Plain(overlay, r.vulnerability)
    requires r in Group(kept, Classifier(judged, kept, overlay), verdict)
    ensures r.ruling.Some?
    ensures match verdict
      case FixAvailable => r.ruling.value.FixAvailable?
      case EsmOnly => r.ruling.value.EsmOnly?
      case NoFix => r.ruling.value.NoFix?
      case PatchLevelHidden => r.ruling.value.PatchLevelHidden?
      case Untriaged => r.ruling.value.Untriaged? || r.ruling.value.NotTracked?
      case _ => false
  {
    hide Classifier, Backport.Rule, Plain, Group;
    GroupHolds(kept, Classifier(judged, kept, overlay), verdict, r);
    PlacedAndPlain(judged, kept, overlay, r.vulnerability);
  }

  /**
   * Where nobody's data was found for the build, or no build was named, the entry and the naming
   * decide: any version, a build unchecked, or affected.
   */
  lemma ReportedUnplacedExactlyWhere(
      judged: Judged, kept: seq<Vulnerability>, overlay: Overlay, r: Ruled)
    requires !IsPlaced(judged) && Plain(overlay, r.vulnerability)
    ensures var (classify, v) := (Classifier(judged, kept, overlay), r.vulnerability);
      && (r in Group(kept, classify, AnyVersion) <==> v in kept && r.ruling.None? && Trim(v.affected) == "*")
      && (r in Group(kept, classify, BuildUnchecked) <==>
          v in kept && r.ruling.None? && Trim(v.affected) != "*" && judged.built)
      && (r in Group(kept, classify, Affected) <==>
          v in kept && r.ruling.None? && Trim(v.affected) != "*" && !judged.built)
  {
    hide Trim, Group;
    var (classify, v) := (Classifier(judged, kept, overlay), r.vulnerability);
    GroupHolds(kept, classify, AnyVersion, r);
    GroupHolds(kept, classify, BuildUnchecked, r);
    GroupHolds(kept, classify, Affected, r);
  }

  /**
   * What needs a setting is reported as that and as nothing else, unless the build's distributor
   * withdraws it first; what is not in the service's reach is never reported.
   */
  lemma TheOverlayDecides(judged: Judged, kept: seq<Vulnerability>, overlay: Overlay, verdict: Verdict, r: Ruled)
    ensures var (classify, v) := (Classifier(judged, kept, overlay), r.vulnerability);
      OutOfReach(overlay, v) ==> r !in Group(kept, classify, verdict)
    ensures var (classify, v) := (Classifier(judged, kept, overlay), r.vulnerability);
      BehindASetting(overlay, v) && !IsPlaced(judged) ==>
        (r in Group(kept, classify, verdict) <==> v in kept && verdict.NeedsSetting? && r.ruling.None?)
    ensures var (classify, v) := (Classifier(judged, kept, overlay), r.vulnerability);
      BehindASetting(overlay, v) && IsPlaced(judged) ==>
        var (installed, statuses) := (judged.placing.installed, StatusesIn(judged, v.cve));
        (r in Group(kept, classify, verdict) <==>
          && v in kept && verdict.NeedsSetting?
          && !Backport.NeverAffected(statuses) && !(installed.Some? && Backport.Covers(installed.value, statuses))
          && r.ruling == Some(Backport.Rule(installed, statuses)))
  {
    hide Group, Backport.Rule, Backport.Covers, Backport.NeverAffected, Trim;
    var (classify, v) := (Classifier(judged, kept, overlay), r.vulnerability);
    GroupHolds(kept, classify, verdict, r);
    if IsPlaced(judged) {
      Backport.WithdrawnByWhich(judged.placing.installed, StatusesIn(judged, v.cve));
    }
  }

  // ---------- what is withdrawn ----------

  /** The entries of `kept` withdrawn for one reason, in their order. */
  function Withdrawals(kept: seq<Vulnerability>, classify: Vulnerability -> Classified, why: Why): seq<Vulnerability> {
    if kept == [] then []
    else
      var n := |kept| - 1;
      Withdrawals(kept[..n], classify, why) + (if classify(kept[n]) == Withdrawn(why) then [kept[n]] else [])
  }

  /** Each counter counts the entries withdrawn for its own reason. */
  lemma {:induction false} EachCounterCountsItsOwn(kept: seq<Vulnerability>, classify: Vulnerability -> Classified)
    ensures var counts := CountsOf(kept, classify);
      && counts.fixed == |Withdrawals(kept, classify, Fixed)|
      && counts.notAffected == |Withdrawals(kept, classify, NotAffected)|
      && counts.elsewhere == |Withdrawals(kept, classify, Elsewhere)|
  {
    if kept != [] {
      EachCounterCountsItsOwn(kept[..|kept| - 1], classify);
    }
  }

  lemma {:induction false} WithdrawalsHold(
      kept: seq<Vulnerability>, classify: Vulnerability -> Classified, why: Why, v: Vulnerability)
    ensures v in Withdrawals(kept, classify, why) <==> v in kept && classify(v) == Withdrawn(why)
  {
    if kept != [] {
      var n := |kept| - 1;
      WithdrawalsHold(kept[..n], classify, why, v);
      assert kept == kept[..n] + [kept[n]];
    }
  }

  /**
   * An entry is withdrawn as elsewhere exactly where the overlay puts it in a client or behind an
   * account; past that, for a placed build, as not affected where the release never had it, and as
   * fixed where it had and the known build is at or past the fix.
   */
  lemma WithdrawnForExactlyWhat(judged: Judged, kept: seq<Vulnerability>, overlay: Overlay, v: Vulnerability)
    ensures var classify := Classifier(judged, kept, overlay);
      v in Withdrawals(kept, classify, Elsewhere) <==> v in kept && OutOfReach(overlay, v)
    ensures var classify := Classifier(judged, kept, overlay);
      v in Withdrawals(kept, classify, NotAffected) <==>
        && v in kept && !OutOfReach(overlay, v) && IsPlaced(judged)
        && Backport.NeverAffected(StatusesIn(judged, v.cve))
    ensures var classify := Classifier(judged, kept, overlay);
      v in Withdrawals(kept, classify, Fixed) <==>
        && v in kept && !OutOfReach(overlay, v) && IsPlaced(judged) && judged.placing.installed.Some?
        && !Backport.NeverAffected(StatusesIn(judged, v.cve))
        && Backport.Covers(judged.placing.installed.value, StatusesIn(judged, v.cve))
  {
    hide Withdrawals, Backport.Rule, Backport.Covers, Backport.NeverAffected, Trim;
    var classify := Classifier(judged, kept, overlay);
    WithdrawalsHold(kept, classify, Elsewhere, v);
    WithdrawalsHold(kept, classify, NotAffected, v);
    WithdrawalsHold(kept, classify, Fixed, v);
    if IsPlaced(judged) {
      Backport.WithdrawnByWhich(judged.placing.installed, StatusesIn(judged, v.cve));
    }
  }
}
