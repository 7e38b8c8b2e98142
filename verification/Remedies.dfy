/** What to do about a group, where the distributor's data says: the newest fix, and its notices. */
module Remedies {
  import opened Wrappers
  import opened Orders
  import opened Ranking
  import opened Judge
  import opened Citations
  import Backport
  import Dpkg

  /** The most notices a remedy names. */
  const MAX_NAMED := 3

  datatype Remedy =
    | Own(text: string)
    | Upgrade(version: string, notices: seq<string>)
    | EnableProAndUpgrade(version: string, notices: seq<string>)
    | MoveRelease
    | CheckTheBuild(version: string, notices: seq<string>)
    | CompareByHand

  function FixesOf(group: seq<Ruled>): seq<Backport.Fix> {
    if group == [] then []
    else
      var n := |group| - 1;
      var fix := if group[n].ruling.Some? then Backport.NamedFix(group[n].ruling.value) else None;
      FixesOf(group[..n]) + (if fix.Some? then [fix.value] else [])
  }

  /** The greatest version in the package order, the last of them where several are. */
  function Newest(fixes: seq<Backport.Fix>): Option<string> {
    if fixes == [] then None
    else
      var n := |fixes| - 1;
      var before := Newest(fixes[..n]);
      if before.Some? && Dpkg.Compare(before.value, fixes[n].version) == Greater then before
      else Some(fixes[n].version)
  }

  // ---------- the notices ----------

  function Advisories(fixes: seq<Backport.Fix>): seq<string> {
    if fixes == [] then []
    else
      var n := |fixes| - 1;
      Advisories(fixes[..n]) + (if fixes[n].advisory.Some? then [fixes[n].advisory.value] else [])
  }

  /** The distinct notices, in the order they first appear. */
  function Distincts(fixes: seq<Backport.Fix>): seq<string> {
    Uniques(Advisories(fixes), _ => true)
  }

  function FirstFew(notices: seq<string>): seq<string> {
    if |notices| <= MAX_NAMED then notices else notices[..MAX_NAMED]
  }

  /** The first three distinct notices among the fixes. */
  method Notices(fixes: seq<Backport.Fix>) returns (notices: seq<string>)
    ensures notices == FirstFew(Distincts(fixes))
  {
    notices := [];
    assert fixes[..0] == [] && FirstFew(Distincts([])) == [];
    hide FirstFew, Distincts;
    for i := 0 to |fixes|
      invariant notices == FirstFew(Distincts(fixes[..i]))
    {
      var advisory := fixes[i].advisory;
      OneMoreNotice(fixes, i);
      if advisory.Some? && advisory.value !in notices && |notices| < MAX_NAMED {
        notices := notices + [advisory.value];
      }
    }
    assert fixes[..|fixes|] == fixes;
  }

  lemma OneMoreNotice(fixes: seq<Backport.Fix>, i: nat)
    requires i < |fixes|
    ensures var (notices, advisory) := (FirstFew(Distincts(fixes[..i])), fixes[i].advisory);
      FirstFew(Distincts(fixes[..i + 1])) ==
        if advisory.Some? && advisory.value !in notices && |notices| < MAX_NAMED then notices + [advisory.value]
        else notices
  {
    var before := Advisories(fixes[..i]);
    assert fixes[..i + 1][..i] == fixes[..i];
    if fixes[i].advisory.Some? {
      assert Advisories(fixes[..i + 1]) == before + [fixes[i].advisory.value];
      UniquesOneMore(before, fixes[i].advisory.value, (_: string) => true);
    } else {
      assert Advisories(fixes[..i + 1]) == before + [] == before;
    }
    hide Advisories, Uniques;
  }

  /** Distinct, at most three, each published with a fix of the group, and all of them where they fit. */
  lemma NoticesAreFewAndDistinct(fixes: seq<Backport.Fix>)
    ensures var notices := FirstFew(Distincts(fixes));
      && |notices| <= MAX_NAMED
      && (forall i, j | 0 <= i < j < |notices| :: notices[i] != notices[j])
      && (forall notice <- notices :: notice in Advisories(fixes))
      && (|notices| < MAX_NAMED ==> forall notice <- Advisories(fixes) :: notice in notices)
  {
    UniquesAreDistinct(Advisories(fixes), (_: string) => true);
    forall notice: string
      ensures notice in Distincts(fixes) <==> notice in Advisories(fixes)
    {
      UniquesHold(Advisories(fixes), (_: string) => true, notice);
    }
    hide Distincts, Advisories;
  }

  // ---------- the remedy ----------

  function RemedyOf(verdict: Verdict, group: seq<Ruled>): Option<Remedy> {
    var fixes := FixesOf(group);
    var newest := Newest(fixes);
    var notices := FirstFew(Distincts(fixes));
    match verdict
    case FixAvailable => if newest.None? then None else Some(Upgrade(newest.value, notices))
    case EsmOnly => if newest.None? then None else Some(EnableProAndUpgrade(newest.value, notices))
    case PatchLevelHidden => if newest.None? then None else Some(CheckTheBuild(newest.value, notices))
    case NoFix => Some(MoveRelease)
    case BuildUnchecked => Some(CompareByHand)
    case _ => None
  }

  lemma {:induction false} NewestIsNewest(fixes: seq<Backport.Fix>)
    ensures Newest(fixes).None? <==> fixes == []
    ensures forall fix <- fixes :: Dpkg.Compare(Newest(fixes).value, fix.version) != Less
    ensures fixes != [] ==> exists fix <- fixes :: fix.version == Newest(fixes).value
  {
    hide Dpkg.Compare;
    if fixes != [] {
      var n := |fixes| - 1;
      NewestIsNewest(fixes[..n]);
      var newest := Newest(fixes).value;
      Dpkg.Flips(fixes[n].version, fixes[n].version);
      assert fixes[n] in fixes;
      if n > 0 {
        var before := Newest(fixes[..n]).value;
        Dpkg.Flips(before, fixes[n].version);
        forall fix <- fixes
          ensures Dpkg.Compare(newest, fix.version) != Less
        {
          assert fix in fixes[..n] || fix == fixes[n];
          Dpkg.Chains(fixes[n].version, before, fix.version);
        }
        var source :| source in fixes[..n] && source.version == before;
        assert source in fixes;
      }
    }
  }

  lemma {:induction false} FixesAreOfTheGroup(group: seq<Ruled>, fix: Backport.Fix) returns (r: Ruled)
    requires fix in FixesOf(group)
    ensures r in group && r.ruling.Some? && Backport.NamedFix(r.ruling.value) == Some(fix)
  {
    var n := |group| - 1;
    if fix in FixesOf(group[..n]) {
      r := FixesAreOfTheGroup(group[..n], fix);
    } else {
      r := group[n];
    }
  }

  lemma {:induction false} AdvisoriesHold(fixes: seq<Backport.Fix>, notice: string)
    ensures notice in Advisories(fixes) <==> exists fix <- fixes :: fix.advisory == Some(notice)
  {
    if fixes != [] {
      var n := |fixes| - 1;
      AdvisoriesHold(fixes[..n], notice);
      assert fixes == fixes[..n] + [fixes[n]];
    }
  }

  lemma {:induction false} FixesOfTheGroup(group: seq<Ruled>, r: Ruled)
    requires r in group && r.ruling.Some? && Backport.NamedFix(r.ruling.value).Some?
    ensures Backport.NamedFix(r.ruling.value).value in FixesOf(group)
  {
    var n := |group| - 1;
    if r != group[n] {
      assert r in group[..n];
      FixesOfTheGroup(group[..n], r);
    }
  }

  predicate NamesAFix(verdict: Verdict) {
    verdict.FixAvailable? || verdict.EsmOnly? || verdict.PatchLevelHidden?
  }

  /** In a group that names fixes, each entry does, and its own data's ruling is the one it carries. */
  lemma EachNamesAFix(judged: Judged, kept: seq<Vulnerability>, overlay: Overlay, verdict: Verdict, r: Ruled)
    requires NamesAFix(verdict) && r in Group(kept, Classifier(judged, kept, overlay), verdict)
    ensures judged.built && kept != [] && judged.placing.Placed?
    ensures r.ruling == Some(RulingOn(judged.placing, r.vulnerability.cve))
    ensures Backport.NamedFix(r.ruling.value).Some?
  {
    GroupHolds(kept, Classifier(judged, kept, overlay), verdict, r);
    hide RulingOn, Group;
  }

  /** A build at or past the fix one entry's ruling names has it withdrawn. */
  lemma TheFixCoversOne(
      judged: Judged, kept: seq<Vulnerability>, overlay: Overlay, verdict: Verdict, build: string, r: Ruled)
    requires NamesAFix(verdict) && r in Group(kept, Classifier(judged, kept, overlay), verdict)
    requires judged.placing.Placed? && r.ruling == Some(RulingOn(judged.placing, r.vulnerability.cve))
    requires var fix := Backport.NamedFix(r.ruling.value); fix.Some? && Dpkg.Compare(build, fix.value.version) != Less
    ensures var upgraded := judged.(placing := judged.placing.(installed := Some(build)));
      Classifier(upgraded, kept, overlay)(r.vulnerability) == Withdrawn(Fixed)
  {
    GroupHolds(kept, Classifier(judged, kept, overlay), verdict, r);
    hide Dpkg.Compare, Backport.Rule, Group;
    var statuses := StatusesOf(judged.placing, r.vulnerability.cve);
    Backport.TheFixWithdraws(judged.placing.installed, build, statuses);
  }

  /**
   * The version a remedy names is at or past every fix the group needs, is one of them, and any
   * build at or past it is one the distributor's data withdraws the whole group for.
   */
  lemma TheRemedyCoversTheGroup(
      judged: Judged, kept: seq<Vulnerability>, overlay: Overlay, verdict: Verdict, build: string)
    requires NamesAFix(verdict) && Group(kept, Classifier(judged, kept, overlay), verdict) != []
    ensures var group := Group(kept, Classifier(judged, kept, overlay), verdict);
      var remedy := RemedyOf(verdict, group);
      && remedy.Some? && !remedy.value.Own? && !remedy.value.MoveRelease? && !remedy.value.CompareByHand?
      && judged.placing.Placed?
      && (Dpkg.Compare(build, remedy.value.version) != Less ==>
            var upgraded := judged.(placing := judged.placing.(installed := Some(build)));
            forall r <- group :: Classifier(upgraded, kept, overlay)(r.vulnerability) == Withdrawn(Fixed))
  {
    hide Dpkg.Compare, Backport.Rule, Group, Classifier, RulingOn;
    var group := Group(kept, Classifier(judged, kept, overlay), verdict);
    var fixes := FixesOf(group);
    EachNamesAFix(judged, kept, overlay, verdict, group[0]);
    FixesOfTheGroup(group, group[0]);
    NewestIsNewest(fixes);
    var newest := Newest(fixes).value;
    if Dpkg.Compare(build, newest) != Less {
      var upgraded := judged.(placing := judged.placing.(installed := Some(build)));
      forall r <- group
        ensures Classifier(upgraded, kept, overlay)(r.vulnerability) == Withdrawn(Fixed)
      {
        EachNamesAFix(judged, kept, overlay, verdict, r);
        FixesOfTheGroup(group, r);
        Dpkg.Chains(build, newest, Backport.NamedFix(r.ruling.value).value.version);
        TheFixCoversOne(judged, kept, overlay, verdict, build, r);
      }
    }
  }

  // ---------- what each group is advised ----------

  /** The fix an entry's ruling names is this one. */
  ghost predicate NamesFix(r: Ruled, fix: Backport.Fix) {
    r.ruling.Some? && Backport.NamedFix(r.ruling.value) == Some(fix)
  }

  /** At or past every fix the group names, and one of them. */
  ghost predicate SettlesAll(version: string, group: seq<Ruled>) {
    && (forall r, fix | r in group && NamesFix(r, fix) :: Dpkg.Compare(version, fix.version) != Less)
    && exists r, advisory :: r in group && NamesFix(r, Backport.Fix(version, advisory))
  }

  /** A notice some fix of the group was announced in. */
  ghost predicate Announces(notice: string, group: seq<Ruled>) {
    exists r, version :: r in group && NamesFix(r, Backport.Fix(version, Some(notice)))
  }

  /** At most three notices of the group, none twice, and all there are where that is fewer. */
  ghost predicate NotesOf(notices: seq<string>, group: seq<Ruled>) {
    && |notices| <= 3
    && (forall i, j | 0 <= i < j < |notices| :: notices[i] != notices[j])
    && (forall notice <- notices :: Announces(notice, group))
    && (|notices| < 3 ==> forall notice | Announces(notice, group) :: notice in notices)
  }

  lemma FixesAreNamed(group: seq<Ruled>, fix: Backport.Fix)
    ensures fix in FixesOf(group) <==> exists r <- group :: NamesFix(r, fix)
  {
    if fix in FixesOf(group) {
      var r := FixesAreOfTheGroup(group, fix);
    }
    if r :| r in group && NamesFix(r, fix) {
      FixesOfTheGroup(group, r);
    }
  }

  lemma NewestSettlesAll(group: seq<Ruled>)
    requires FixesOf(group) != []
    ensures Newest(FixesOf(group)).Some? && SettlesAll(Newest(FixesOf(group)).value, group)
  {
    hide Dpkg.Compare, FixesOf, Newest, NamesFix;
    var fixes := FixesOf(group);
    NewestIsNewest(fixes);
    forall r, fix | r in group && NamesFix(r, fix)
      ensures Dpkg.Compare(Newest(fixes).value, fix.version) != Less
    {
      FixesAreNamed(group, fix);
    }
    var fix :| fix in fixes && fix.version == Newest(fixes).value;
    FixesAreNamed(group, fix);
    assert fix == Backport.Fix(Newest(fixes).value, fix.advisory);
  }

  lemma AnnouncedExactlyWhere(group: seq<Ruled>, notice: string)
    ensures notice in Advisories(FixesOf(group)) <==> Announces(notice, group)
  {
    hide FixesOf, Advisories, NamesFix;
    var fixes := FixesOf(group);
    AdvisoriesHold(fixes, notice);
    if fix :| fix in fixes && fix.advisory == Some(notice) {
      FixesAreNamed(group, fix);
      assert fix == Backport.Fix(fix.version, Some(notice));
    }
    if r, version :| r in group && NamesFix(r, Backport.Fix(version, Some(notice))) {
      FixesAreNamed(group, Backport.Fix(version, Some(notice)));
    }
  }

  lemma NoticesAreOfTheGroup(group: seq<Ruled>)
    ensures NotesOf(FirstFew(Distincts(FixesOf(group))), group)
  {
    hide FixesOf, Advisories, Distincts, FirstFew, Announces;
    NoticesAreFewAndDistinct(FixesOf(group));
    forall notice
      ensures notice in Advisories(FixesOf(group)) <==> Announces(notice, group)
    {
      AnnouncedExactlyWhere(group, notice);
    }
  }

  /**
   * What a group of entries is advised, by its verdict: to upgrade, to enable Pro and upgrade, or to
   * check the build, against the one fix of the group that settles all of it and with the notices
   * that announced them; to move to another release; to compare by hand; or nothing.
   */
  lemma WhatIsAdvised(judged: Judged, kept: seq<Vulnerability>, overlay: Overlay, verdict: Verdict)
    requires Group(kept, Classifier(judged, kept, overlay), verdict) != []
    ensures var group := Group(kept, Classifier(judged, kept, overlay), verdict);
      match RemedyOf(verdict, group)
      case Some(Upgrade(version, notices)) =>
        verdict.FixAvailable? && SettlesAll(version, group) && NotesOf(notices, group)
      case Some(EnableProAndUpgrade(version, notices)) =>
        verdict.EsmOnly? && SettlesAll(version, group) && NotesOf(notices, group)
      case Some(CheckTheBuild(version, notices)) =>
        verdict.PatchLevelHidden? && SettlesAll(version, group) && NotesOf(notices, group)
      case Some(MoveRelease) => verdict.NoFix?
      case Some(CompareByHand) => verdict.BuildUnchecked?
      case Some(Own(_)) => false
      case None => verdict.Affected? || verdict.NeedsSetting? || verdict.Untriaged? || verdict.AnyVersion?
  {
    hide Group, Classifier, SettlesAll, NotesOf, FixesOf, Newest, Distincts, FirstFew, RulingOn;
    var group := Group(kept, Classifier(judged, kept, overlay), verdict);
    if NamesAFix(verdict) {
      EachNamesAFix(judged, kept, overlay, verdict, group[0]);
      FixesOfTheGroup(group, group[0]);
      NewestSettlesAll(group);
      NoticesAreOfTheGroup(group);
    }
  }
}
