/**
 * What a recorded finding says of the entries it speaks for: how bad, how sure, which it cites and
 * which of them are exploited.
 */
module Reporting {
  import opened Wrappers
  import opened Orders
  import opened Texts
  import opened Ranking
  import opened Judge
  import opened Verdicts
  import opened Citations
  import opened Remedies
  import opened Summaries
  import opened Records
  import opened Correlate
  import opened Drawing
  import Backport
  import Cpe
  import Dpkg

  // ---------- how sure ----------

  /** The distributor says the build carries it: known to be before the fix, or open and looked at. */
  ghost predicate Carries(installed: Option<string>, statuses: seq<Backport.Status>) {
    && !Backport.NeverAffected(statuses)
    && (|| (installed.Some? && exists channel, fix ::
              Backport.Governing(statuses, channel, fix) && Dpkg.Compare(installed.value, fix.version) == Less)
        || (Backport.NeverFixed(statuses) && exists kind, note ::
              kind != Backport.NeedsTriage && Backport.StandsAs(statuses, kind, note)))
  }

  /**
   * Whether an entry's claim on the release was checked and holds without a setting: against the
   * build where there is data for it, and else against the version the entry asks for.
   */
  ghost predicate Established(judged: Judged, overlay: Overlay, v: Vulnerability) {
    && !BehindASetting(overlay, v)
    && if IsPlaced(judged) then Carries(judged.placing.installed, StatusesIn(judged, v.cve))
       else !judged.built && Trim(v.affected) != "*"
  }

  lemma CarriedExactlyWhere(installed: Option<string>, statuses: seq<Backport.Status>)
    ensures var ruling := Backport.Rule(installed, statuses);
      Carries(installed, statuses) <==> ruling.FixAvailable? || ruling.EsmOnly? || ruling.NoFix?
  {
    hide Backport.Rule, Backport.Governing, Backport.NeverAffected, Backport.NeverFixed, Backport.StandsAs,
         Dpkg.Compare;
    var ruling := Backport.Rule(installed, statuses);
    match ruling {
      case FixAvailable(fix) => Backport.RuledByAFixExactlyWhere(installed, statuses, fix);
      case EsmOnly(fix) => Backport.RuledByAFixExactlyWhere(installed, statuses, fix);
      case NoFix(kind, note) => Backport.RuledOpenExactlyWhere(installed, statuses, kind, note);
      case _ =>
    }
    if Carries(installed, statuses) {
      if channel, fix :| installed.Some? && Backport.Governing(statuses, channel, fix)
                         && Dpkg.Compare(installed.value, fix.version) == Less {
        Backport.RuledByAFixExactlyWhere(installed, statuses, fix);
        assert channel == Backport.Archive || channel == Backport.Esm;
      } else {
        var kind, note :| kind != Backport.NeedsTriage && Backport.StandsAs(statuses, kind, note);
        Backport.RuledOpenExactlyWhere(installed, statuses, kind, note);
      }
    }
  }

  /** A finding is probable exactly where the claim of every entry it speaks for was established. */
  lemma ProbableExactlyWhere(
      from: Dataset, judged: Judged, kept: seq<Vulnerability>, overlay: Overlay, verdict: Verdict, noted: bool,
      r: Ruled)
    requires r in Group(kept, Classifier(judged, kept, overlay), verdict)
    ensures var group := Group(kept, Classifier(judged, kept, overlay), verdict);
      var finding := FindingOf(from, judged.built, verdict, group, noted);
      finding.Some? ==> (finding.value.confidence == Probable <==> Established(judged, overlay, r.vulnerability))
  {
    hide Group, Backport.Rule, Carries, Trim, Marked, Cited, RemedyOf, Untitled;
    var v := r.vulnerability;
    GroupHolds(kept, Classifier(judged, kept, overlay), verdict, r);
    if IsPlaced(judged) {
      CarriedExactlyWhere(judged.placing.installed, StatusesIn(judged, v.cve));
    }
  }

  // ---------- a summary is of a group ----------

  lemma {:induction false} ASummaryIsOfAGroup(
      from: Dataset, built: bool, verdicts: seq<Verdict>, groups: map<Verdict, seq<Ruled>>, note: bool, s: Summary)
      returns (noted: bool)
    requires s in FindingsFrom(from, built, verdicts, groups, note)
    ensures s.verdict in groups && FindingOf(from, built, s.verdict, groups[s.verdict], noted) == Some(s)
  {
    hide FindingOf;
    if verdicts[0] !in groups {
      noted := ASummaryIsOfAGroup(from, built, verdicts[1..], groups, note, s);
    } else {
      var first := FindingOf(from, built, verdicts[0], groups[verdicts[0]], note);
      if first == Some(s) {
        VerdictOfAFinding(from, built, verdicts[0], groups[verdicts[0]], note);
        noted := note;
      } else {
        noted := ASummaryIsOfAGroup(from, built, verdicts[1..], groups, false, s);
      }
    }
  }

  /** Which entries a finding cites, and which of them as exploited. */
  lemma WhatASummaryCites(from: Dataset, built: bool, verdict: Verdict, group: seq<Ruled>, noted: bool, id: string)
    ensures var s := FindingOf(from, built, verdict, group, noted);
      s.Some? ==>
        && (id in s.value.cited <==> IsCveShaped(id) && exists r <- group :: r.vulnerability.cve == id)
        && (id in s.value.exploited <==> id in s.value.cited && IsListed(from.exploited, id))
  {
    hide IsCveShaped, IsListed, Trim, RemedyOf, Untitled;
    var ids := IdsOf(group);
    var marked := Marked(from.exploited, ids);
    assert id in ids <==> exists r <- group :: r.vulnerability.cve == id by {
      assert forall i | 0 <= i < |group| :: ids[i] == group[i].vulnerability.cve;
    }
    UniquesHold(Only(ids, x => IsListed(from.exploited, x)), IsCveShaped, id);
    OnlyHolds(ids, x => IsListed(from.exploited, x), id);
    UniquesHold(Only(ids, x => x in marked) + Others(ids, x => x in marked), IsCveShaped, id);
    OnlyHolds(ids, x => x in marked, id);
  }

  // ---------- a recorded finding ----------

  /** What a finding recorded for an identifier owes the group it speaks for. */
  ghost predicate SpeaksFor(source: Source, judged: Judged, f: Finding, group: seq<Ruled>) {
    && group != []
    && (exists r <- group :: Rank(r.vulnerability) == f.severity)
    && (forall r <- group :: Rank(r.vulnerability) <= f.severity)
    && (forall r <- group :: f.confidence == if Established(judged, source.overlay, r.vulnerability) then 1 else 0)
    && (forall id :: Cve(id) in f.references <==> IsCveShaped(id) && exists r <- group :: r.vulnerability.cve == id)
    && (forall id :: (f.exploitation.Some? && id in f.exploitation.value) <==>
          && Cve(id) in f.references && source.exploited.Some?
          && Trim(source.exploited.value.id) != "" && id in source.exploited.value.cves)
    && f.exploitation != Some([])
    && (forall n: nat :: Cwe(n) in f.references <==> |group| == 1 && group[0].vulnerability.cwe == Some(n))
  }

  lemma ReferencesHold(s: Summary, id: string)
    ensures Cve(id) in ReferencesOf(s) <==> id in s.cited
    ensures forall n: nat :: Cwe(n) in ReferencesOf(s) <==> s.cwe == Some(n)
  {
    var cves := seq(|s.cited|, i requires 0 <= i < |s.cited| => Cve(s.cited[i]));
    assert forall i | 0 <= i < |s.cited| :: cves[i] == Cve(s.cited[i]);
    assert Cve(id) in ReferencesOf(s) <==> Cve(id) in cves;
    assert forall n: nat :: Cwe(n) !in cves;
  }

  lemma ListedIs(list: Option<KnownExploited>, id: string)
    ensures IsListed(list, id) <==> list.Some? && Trim(list.value.id) != "" && id in list.value.cves
  {
  }

  lemma AStampedSummarySpeaks(
      source: Source, judged: Judged, matched: seq<Vulnerability>, verdict: Verdict, noted: bool,
      cpe: string, about: About)
    ensures var kept := Kept(matched); var group := Group(kept, Classifier(judged, kept, source.overlay), verdict);
      var s := FindingOf(Dataset(source.stamp.id, source.exploited), judged.built, verdict, group, noted);
      s.Some? ==> SpeaksFor(source, judged, Stamped(source, cpe, judged.name, about, s.value), group)
  {
    hide Kept, Group, Classifier, FindingOf, Established, IsCveShaped, IsListed, ReferencesOf, SubjectOf, Rank, RankOf,
         SeverityOf, Untitled, Trim;
    var kept := Kept(matched);
    var group := Group(kept, Classifier(judged, kept, source.overlay), verdict);
    var from := Dataset(source.stamp.id, source.exploited);
    var s := FindingOf(from, judged.built, verdict, group, noted);
    if s.Some? {
      KeptIsSorted(matched);
      ReferencesHold(s.value, "");
      OneEntrySpeaksForItself(from, judged.built, verdict, group, noted);
      ReportedExactlyWhen(from, judged, kept, source.overlay, verdict, noted);
      forall r <- group
        ensures SeverityOf(r.vulnerability.severity).Some? ==>
          Rank(r.vulnerability) == RankOf(SeverityOf(r.vulnerability.severity).value)
        ensures s.value.confidence == Probable <==> Established(judged, source.overlay, r.vulnerability)
      {
        RankIsRankOf(r.vulnerability);
        ProbableExactlyWhere(from, judged, kept, source.overlay, verdict, noted, r);
      }
      forall id
        ensures Cve(id) in ReferencesOf(s.value) <==> id in s.value.cited
        ensures id in s.value.cited <==> IsCveShaped(id) && exists r <- group :: r.vulnerability.cve == id
        ensures id in s.value.exploited <==> id in s.value.cited && IsListed(from.exploited, id)
        ensures IsListed(from.exploited, id) <==>
          from.exploited.Some? && Trim(from.exploited.value.id) != "" && id in from.exploited.value.cves
      {
        ListedIs(from.exploited, id);
        ReferencesHold(s.value, id);
        WhatASummaryCites(from, judged.built, verdict, group, noted, id);
      }
    }
  }

  /** An identifier as it is judged, the entries judged of it, and what becomes of each. */
  function JudgedAs(source: Source, services: Services, key: Key, name: Cpe.Name, build: Option<string>): Judged {
    Judged(name, build.Some?, source.place(services, key, name))
  }

  function EntriesOf(source: Source, name: Cpe.Name): seq<Vulnerability> {
    Kept(Matched(source.entries, name))
  }

  function Becomes(source: Source, judged: Judged): Vulnerability -> Classified {
    Classifier(judged, EntriesOf(source, judged.name), source.overlay)
  }

  function GroupIn(source: Source, judged: Judged, verdict: Verdict): seq<Ruled> {
    Group(EntriesOf(source, judged.name), Becomes(source, judged), verdict)
  }

  function AllIn(source: Source, judged: Judged): seq<Summary> {
    var (kept, classify) := (EntriesOf(source, judged.name), Becomes(source, judged));
    FindingsFrom(
      Dataset(source.stamp.id, source.exploited), judged.built, VERDICTS, GroupsOf(kept, classify),
      Total(CountsOf(kept, classify)) > 0)
  }

  lemma WhatIsDrawn(source: Source, services: Services, key: Key, cpe: string, build: Option<string>)
    requires Cpe.Parse(cpe).Some?
    ensures var name := Cpe.Parse(cpe).value; var judged := JudgedAs(source, services, key, name, build);
      var about := About(source.scope(services, key, name), build, source.advised(services, key, name));
      var drawn := OnIdentifier(source, services, key, cpe, build);
      && drawn.findings == StampedAll(source, cpe, name, about, AllIn(source, judged))
      && drawn.withdrawn == Total(CountsOf(EntriesOf(source, name), Becomes(source, judged)))
  {
    hide Cpe.Parse, Kept, Matched, Classifier, FindingsFrom, CountsOf, StampedAll, GroupsOf;
  }

  /**
   * Every finding an identifier draws speaks for one group of the entries judged of it: it is as bad
   * as the worst of them, as sure as all of them are, cites them and no others, and marks exactly
   * those the list of exploited ones names.
   */
  lemma AFindingSpeaksForItsGroup(
      source: Source, services: Services, key: Key, cpe: string, build: Option<string>, f: Finding)
      returns (verdict: Verdict)
    requires Cpe.Parse(cpe).Some? && f in OnIdentifier(source, services, key, cpe, build).findings
    ensures var judged := JudgedAs(source, services, key, Cpe.Parse(cpe).value, build);
      SpeaksFor(source, judged, f, GroupIn(source, judged, verdict))
    ensures var name := Cpe.Parse(cpe).value;
      && f.detection == source.stamp && f.cpes == {cpe} && f.build == build
      && f.subject == Some(SubjectOf(name, source.scope(services, key, name), verdict))
  {
    hide Cpe.Parse, Kept, Matched, Group, Classifier, FindingsFrom, FindingOf, SpeaksFor, SubjectOf, ReferencesOf,
         CountsOf, OnIdentifier;
    WhatIsDrawn(source, services, key, cpe, build);
    var name := Cpe.Parse(cpe).value;
    var judged := JudgedAs(source, services, key, name, build);
    var (kept, classify) := (EntriesOf(source, name), Becomes(source, judged));
    var from := Dataset(source.stamp.id, source.exploited);
    var (groups, note) := (GroupsOf(kept, classify), Total(CountsOf(kept, classify)) > 0);
    var all := AllIn(source, judged);
    var about := About(source.scope(services, key, name), build, source.advised(services, key, name));
    var i :| 0 <= i < |all| && f == Stamped(source, cpe, name, about, all[i]);
    verdict := all[i].verdict;
    var noted := ASummaryIsOfAGroup(from, judged.built, VERDICTS, groups, note, all[i]);
    assert groups[verdict] == Group(kept, classify, verdict);
    AStampedSummarySpeaks(source, judged, Matched(source.entries, name), verdict, noted, cpe, about);
  }

  lemma TheNoteDecidesNothing(from: Dataset, built: bool, verdict: Verdict, group: seq<Ruled>, noted: bool)
    ensures FindingOf(from, built, verdict, group, noted).Some? == FindingOf(from, built, verdict, group, true).Some?
  {
    hide Marked, Cited, RemedyOf, Untitled, Trim;
  }

  lemma {:induction false} AGroupIsSummarised(
      from: Dataset, built: bool, verdicts: seq<Verdict>, groups: map<Verdict, seq<Ruled>>, note: bool,
      verdict: Verdict)
      returns (s: Summary)
    requires verdict in verdicts && verdict in groups
    requires FindingOf(from, built, verdict, groups[verdict], true).Some?
    ensures s in FindingsFrom(from, built, verdicts, groups, note) && s.verdict == verdict
  {
    hide FindingOf;
    if verdicts[0] == verdict {
      TheNoteDecidesNothing(from, built, verdict, groups[verdict], note);
      VerdictOfAFinding(from, built, verdict, groups[verdict], note);
      s := FindingOf(from, built, verdict, groups[verdict], note).value;
    } else if verdicts[0] in groups {
      s := AGroupIsSummarised(from, built, verdicts[1..], groups, false, verdict);
    } else {
      s := AGroupIsSummarised(from, built, verdicts[1..], groups, note, verdict);
    }
  }

  lemma EveryVerdictIsListed(verdict: Verdict)
    ensures verdict in VERDICTS
  {
    assert VERDICTS[Place(verdict)] == verdict;
  }

  /** And every group with something to report is one some finding speaks for. */
  lemma AGroupIsSpokenFor(
      source: Source, services: Services, key: Key, cpe: string, build: Option<string>, verdict: Verdict)
      returns (f: Finding)
    requires Cpe.Parse(cpe).Some?
    requires var judged := JudgedAs(source, services, key, Cpe.Parse(cpe).value, build);
      Reportable(Dataset(source.stamp.id, source.exploited), verdict, GroupIn(source, judged, verdict))
    ensures f in OnIdentifier(source, services, key, cpe, build).findings
    ensures var name := Cpe.Parse(cpe).value;
      f.subject == Some(SubjectOf(name, source.scope(services, key, name), verdict))
  {
    hide Cpe.Parse, Kept, Matched, Group, Classifier, FindingsFrom, FindingOf, SubjectOf, ReferencesOf, CountsOf, Trim,
         Utf8Length, SeverityOf, RankOf, Rank, OnIdentifier;
    WhatIsDrawn(source, services, key, cpe, build);
    var name := Cpe.Parse(cpe).value;
    var judged := JudgedAs(source, services, key, name, build);
    var (kept, classify) := (EntriesOf(source, name), Becomes(source, judged));
    var from := Dataset(source.stamp.id, source.exploited);
    KeptIsSorted(Matched(source.entries, name));
    ReportedExactlyWhen(from, judged, kept, source.overlay, verdict, true);
    EveryVerdictIsListed(verdict);
    var (groups, note) := (GroupsOf(kept, classify), Total(CountsOf(kept, classify)) > 0);
    var s := AGroupIsSummarised(from, judged.built, VERDICTS, groups, note, verdict);
    var all := AllIn(source, judged);
    var about := About(source.scope(services, key, name), build, source.advised(services, key, name));
    var i :| 0 <= i < |all| && all[i] == s;
    f := Stamped(source, cpe, name, about, s);
    assert StampedAll(source, cpe, name, about, all)[i] == f;
  }

  /** What was withdrawn is counted with them, each entry once and under its own reason. */
  lemma WhatIsWithdrawnIsCounted(source: Source, services: Services, key: Key, cpe: string, build: Option<string>)
    requires Cpe.Parse(cpe).Some?
    ensures var judged := JudgedAs(source, services, key, Cpe.Parse(cpe).value, build);
      var (kept, classify) := (EntriesOf(source, judged.name), Becomes(source, judged));
      OnIdentifier(source, services, key, cpe, build).withdrawn
      == |Withdrawals(kept, classify, Fixed)| + |Withdrawals(kept, classify, NotAffected)|
         + |Withdrawals(kept, classify, Elsewhere)|
  {
    hide Cpe.Parse, Kept, Matched, Classifier, CountsOf, Withdrawals, OnIdentifier;
    WhatIsDrawn(source, services, key, cpe, build);
    var judged := JudgedAs(source, services, key, Cpe.Parse(cpe).value, build);
    EachCounterCountsItsOwn(EntriesOf(source, judged.name), Becomes(source, judged));
  }
}
