/** What the one finding a group becomes says, and the findings of an identification in the order of their claims. */
module Summaries {
  import opened Wrappers
  import opened Orders
  import opened Texts
  import opened Ranking
  import opened Judge
  import opened Citations
  import opened Remedies
  import Decoding

  /** The most bytes of an entry's own title a finding takes for its title. */
  const MAX_SUMMARY_BYTES := 80

  datatype Confidence = Weak | Probable

  datatype Summary = Summary(
    verdict: Verdict, severity: Severity, confidence: Confidence, cited: seq<string>, cwe: Option<nat>,
    exploited: seq<string>, remedy: Option<Remedy>, noted: bool)

  function ConfidenceOf(verdict: Verdict): Confidence {
    match verdict
    case Affected => Probable
    case FixAvailable => Probable
    case EsmOnly => Probable
    case NoFix => Probable
    case _ => Weak
  }

  function Utf8Length(s: string): nat {
    if s == [] then 0 else |Decoding.Utf8(s[0])| + Utf8Length(s[1..])
  }

  /** A lone entry whose own title would be the finding's, and is blank. */
  predicate Untitled(verdict: Verdict, group: seq<Ruled>) {
    && (verdict.Affected? || verdict.AnyVersion?) && |group| == 1
    && Utf8Length(group[0].vulnerability.title) <= MAX_SUMMARY_BYTES
    && Trim(group[0].vulnerability.title) == ""
  }

  function IdsOf(group: seq<Ruled>): seq<string> {
    seq(|group|, i requires 0 <= i < |group| => group[i].vulnerability.cve)
  }

  /** What an analyst reads of a catalogue: its name, and the list it is marked by. */
  datatype Dataset = Dataset(id: string, exploited: Option<KnownExploited>)

  function FindingOf(from: Dataset, built: bool, verdict: Verdict, group: seq<Ruled>, noted: bool): Option<Summary> {
    if group == [] then None
    else
      var severity := SeverityOf(group[0].vulnerability.severity);
      if severity.None? || Trim(from.id) == "" || (verdict.BuildUnchecked? && !built) || Untitled(verdict, group)
      then None
      else
        var marked := Marked(from.exploited, IdsOf(group));
        var only := if |group| == 1 then Some(group[0].vulnerability) else None;
        var own := if only.Some? && only.value.remediation.Some? then Some(Own(only.value.remediation.value)) else None;
        var advised := RemedyOf(verdict, group);
        Some(Summary(
          verdict, severity.value, ConfidenceOf(verdict), Cited(IdsOf(group), marked),
          if only.Some? then only.value.cwe else None,
          marked, if advised.Some? then advised else own, noted))
  }

  const VERDICTS :=
    [Affected, FixAvailable, EsmOnly, NoFix, NeedsSetting, BuildUnchecked, PatchLevelHidden, Untriaged, AnyVersion]

  /** The findings of the verdicts left; the note goes with the first group there is. */
  function FindingsFrom(
      from: Dataset, built: bool, verdicts: seq<Verdict>, groups: map<Verdict, seq<Ruled>>, note: bool): seq<Summary>
  {
    if verdicts == [] then []
    else if verdicts[0] !in groups then FindingsFrom(from, built, verdicts[1..], groups, note)
    else
      var finding := FindingOf(from, built, verdicts[0], groups[verdicts[0]], note);
      var rest := FindingsFrom(from, built, verdicts[1..], groups, false);
      if finding.Some? then [finding.value] + rest else rest
  }

  function FindingsOf(from: Dataset, built: bool, groups: map<Verdict, seq<Ruled>>, withdrawn: Counts): seq<Summary> {
    FindingsFrom(from, built, VERDICTS, groups, Total(withdrawn) > 0)
  }

  // ---------- when a group is reported, and how bad ----------

  /** A build nobody named is never the reason a group goes unreported. */
  lemma UncheckedBuildsAreBuilt(judged: Judged, kept: seq<Vulnerability>, overlay: Overlay)
    requires Group(kept, Classifier(judged, kept, overlay), BuildUnchecked) != []
    ensures judged.built
  {
    var group := Group(kept, Classifier(judged, kept, overlay), BuildUnchecked);
    GroupHolds(kept, Classifier(judged, kept, overlay), BuildUnchecked, group[0]);
    hide RulingOn, Group;
  }

  /** The first of a group is as bad as any of it. */
  lemma TheFirstIsTheWorst(kept: seq<Vulnerability>, classify: Vulnerability -> Classified, verdict: Verdict, r: Ruled)
    requires IsSorted(kept) && r in Group(kept, classify, verdict)
    ensures Rank(Group(kept, classify, verdict)[0].vulnerability) >= Rank(r.vulnerability)
  {
    AGroupIsWorstFirst(kept, classify, verdict);
    var group := Group(kept, classify, verdict);
    hide Group, Rank;
    var i :| 0 <= i < |group| && group[i] == r;
    var entries := Entries(group);
    BeforeFlips(entries[0], entries[0]);
    assert Before(entries[0], entries[i]) != Greater;
  }

  /**
   * A group goes unreported exactly where its catalogue has no name, none of its entries has a
   * severity that can be read, or it is one entry with a blank title for its own; reported, it
   * is as bad as its worst entry.
   */
  lemma ReportedExactlyWhen(
      from: Dataset, judged: Judged, kept: seq<Vulnerability>, overlay: Overlay, verdict: Verdict, noted: bool)
    requires IsSorted(kept)
    ensures var group := Group(kept, Classifier(judged, kept, overlay), verdict);
      var finding := FindingOf(from, judged.built, verdict, group, noted);
      && (finding.None? <==>
            || Trim(from.id) == ""
            || (&& (verdict.Affected? || verdict.AnyVersion?) && |group| == 1
                && Trim(group[0].vulnerability.title) == "" && Utf8Length(group[0].vulnerability.title) <= 80)
            || forall r <- group :: SeverityOf(r.vulnerability.severity).None?)
      && (finding.Some? ==>
            && (exists r <- group :: SeverityOf(r.vulnerability.severity) == Some(finding.value.severity))
            && (forall r <- group :: Rank(r.vulnerability) <= RankOf(finding.value.severity)))
  {
    var classify := Classifier(judged, kept, overlay);
    var group := Group(kept, classify, verdict);
    hide Classifier, Trim, Utf8Length;
    if group != [] {
      if verdict.BuildUnchecked? { UncheckedBuildsAreBuilt(judged, kept, overlay); }
      forall r <- group
        ensures Rank(r.vulnerability) <= Rank(group[0].vulnerability)
        ensures SeverityOf(group[0].vulnerability.severity).None? ==> SeverityOf(r.vulnerability.severity).None?
      {
        TheFirstIsTheWorst(kept, classify, verdict, r);
        RankIsTheSeverity(r.vulnerability, group[0].vulnerability);
      }
      hide Group, Rank, SeverityOf;
      RankIsRankOf(group[0].vulnerability);
      assert group[0] in group;
    }
  }

  function RankOf(severity: Severity): nat {
    match severity
    case Info => 1
    case Low => 2
    case Medium => 3
    case High => 4
    case Critical => 5
  }

  lemma RankIsRankOf(v: Vulnerability)
    ensures SeverityOf(v.severity).Some? ==> Rank(v) == RankOf(SeverityOf(v.severity).value)
  {
  }

  // ---------- what a finding rests on ----------

  /**
   * A finding for one entry names its weakness and, where the distributor has nothing to say, its own
   * remediation; one for several names neither. A build nobody named is never reported unchecked.
   */
  lemma OneEntrySpeaksForItself(from: Dataset, built: bool, verdict: Verdict, group: seq<Ruled>, noted: bool)
    ensures var s := FindingOf(from, built, verdict, group, noted);
      s.Some? ==>
        && (s.value.cwe.Some? ==> |group| == 1) && (|group| == 1 ==> s.value.cwe == group[0].vulnerability.cwe)
        && (RemedyOf(verdict, group).Some? ==> s.value.remedy == RemedyOf(verdict, group))
        && (RemedyOf(verdict, group).None? && s.value.remedy.Some? ==>
              |group| == 1 && s.value.remedy.value.Own?
              && group[0].vulnerability.remediation == Some(s.value.remedy.value.text))
        && (|group| == 1 && group[0].vulnerability.remediation.Some? ==> s.value.remedy.Some?)
    ensures verdict.BuildUnchecked? && !built ==> FindingOf(from, built, verdict, group, noted).None?
  {
    hide RemedyOf, Marked, Cited, Untitled, Trim;
  }

  /** Where a report lists a verdict. */
  function Place(verdict: Verdict): nat {
    match verdict
    case Affected => 0
    case FixAvailable => 1
    case EsmOnly => 2
    case NoFix => 3
    case NeedsSetting => 4
    case BuildUnchecked => 5
    case PatchLevelHidden => 6
    case Untriaged => 7
    case AnyVersion => 8
  }

  ghost predicate InPlace(verdicts: seq<Verdict>) {
    forall i, j | 0 <= i < j < |verdicts| :: Place(verdicts[i]) < Place(verdicts[j])
  }

  /** One finding before another is of a verdict listed before the other's. */
  ghost predicate AreInOrder(findings: seq<Summary>) {
    forall i, j | 0 <= i < j < |findings| :: Place(findings[i].verdict) < Place(findings[j].verdict)
  }

  lemma OneMoreInOrder(first: Summary, rest: seq<Summary>)
    requires AreInOrder(rest) && forall f <- rest :: Place(first.verdict) < Place(f.verdict)
    ensures AreInOrder([first] + rest)
  {
    hide Place;
  }

  lemma TheFirstIsBeforeTheRest(verdicts: seq<Verdict>, v: Verdict)
    requires InPlace(verdicts) && verdicts != [] && v in verdicts[1..]
    ensures Place(verdicts[0]) < Place(v)
  {
    hide Place;
    var i :| 0 <= i < |verdicts| - 1 && verdicts[1..][i] == v;
    assert verdicts[i + 1] == v;
  }

  lemma {:induction false} SummariesKeepTheOrder(
      from: Dataset, built: bool, verdicts: seq<Verdict>, groups: map<Verdict, seq<Ruled>>, note: bool)
    requires InPlace(verdicts)
    ensures AreInOrder(FindingsFrom(from, built, verdicts, groups, note))
  {
    if verdicts == [] {
      assert FindingsFrom(from, built, verdicts, groups, note) == [];
    } else {
      var left := if verdicts[0] in groups then false else note;
      assert InPlace(verdicts[1..]);
      SummariesKeepTheOrder(from, built, verdicts[1..], groups, left);
      hide FindingOf, Place, AreInOrder, InPlace;
      if verdicts[0] in groups {
        var rest := FindingsFrom(from, built, verdicts[1..], groups, false);
        VerdictOfAFinding(from, built, verdicts[0], groups[verdicts[0]], note);
        FindingsAreOf(from, built, verdicts[1..], groups, false);
        forall f <- rest
          ensures Place(verdicts[0]) < Place(f.verdict)
        {
          TheFirstIsBeforeTheRest(verdicts, f.verdict);
        }
        var finding := FindingOf(from, built, verdicts[0], groups[verdicts[0]], note);
        if finding.Some? {
          OneMoreInOrder(finding.value, rest);
        }
      }
    }
  }

  lemma VerdictOfAFinding(from: Dataset, built: bool, verdict: Verdict, group: seq<Ruled>, noted: bool)
    ensures var s := FindingOf(from, built, verdict, group, noted); s.Some? ==> s.value.verdict == verdict
  {
    hide RemedyOf, Marked, Cited, Untitled, Trim;
  }

  /** The findings of an identification come in the report's order: what is affected first, any version last. */
  lemma FindingsAreInOrder(from: Dataset, built: bool, groups: map<Verdict, seq<Ruled>>, withdrawn: Counts)
    ensures AreInOrder(FindingsOf(from, built, groups, withdrawn))
  {
    hide FindingsFrom, InPlace, AreInOrder;
    TheVerdictsAreInPlace();
    SummariesKeepTheOrder(from, built, VERDICTS, groups, Total(withdrawn) > 0);
  }

  lemma TheVerdictsAreInPlace()
    ensures InPlace(VERDICTS)
  {
    forall i | 0 <= i < |VERDICTS|
      ensures Place(VERDICTS[i]) == i
    {
    }
    hide Place;
  }

  // ---------- the list of exploited vulnerabilities ----------

  /** The same finding but for what it says of exploitation and the order it cites in. */
  ghost predicate DiffersOnlyInMarking(plain: Summary, marked: Summary, list: Option<KnownExploited>) {
    && marked.(cited := plain.cited, exploited := plain.exploited) == plain
    && marked.cited == Only(plain.cited, id => IsListed(list, id)) + Others(plain.cited, id => IsListed(list, id))
    && multiset(marked.cited) == multiset(plain.cited)
  }

  lemma MarkingOneFinding(from: Dataset, built: bool, verdict: Verdict, group: seq<Ruled>, noted: bool)
    ensures var (plain, marked) :=
        (FindingOf(from.(exploited := None), built, verdict, group, noted),
         FindingOf(from, built, verdict, group, noted));
      && plain.Some? == marked.Some?
      && (plain.Some? ==> DiffersOnlyInMarking(plain.value, marked.value, from.exploited))
  {
    hide Untitled, RemedyOf, ConfidenceOf, IdsOf, Trim, SeverityOf;
    ListedComeFirst(IdsOf(group), from.exploited);
    assert Marked(None, IdsOf(group)) == [] by { NothingListed(IdsOf(group)); }
    hide Cited, Marked, Only, Others;
  }

  lemma NothingListed(ids: seq<string>)
    ensures Marked(None, ids) == []
  {
    NoneOnly(ids, id => IsListed(None, id));
  }

  /**
   * Consulting a list changes no finding but its marking: as many findings, of the same claims,
   * severities, confidences and remedies, each citing the same identifiers, listed ones first.
   */
  lemma {:induction false} MarkingInterferesWithNothing(
      from: Dataset, built: bool, verdicts: seq<Verdict>, groups: map<Verdict, seq<Ruled>>, note: bool)
    ensures var (plain, marked) :=
        (FindingsFrom(from.(exploited := None), built, verdicts, groups, note),
         FindingsFrom(from, built, verdicts, groups, note));
      && |plain| == |marked|
      && forall i | 0 <= i < |plain| :: DiffersOnlyInMarking(plain[i], marked[i], from.exploited)
  {
    hide FindingOf, DiffersOnlyInMarking;
    if verdicts != [] {
      MarkingInterferesWithNothing(from, built, verdicts[1..], groups, note);
      MarkingInterferesWithNothing(from, built, verdicts[1..], groups, false);
      if verdicts[0] in groups {
        MarkingOneFinding(from, built, verdicts[0], groups[verdicts[0]], note);
      }
    }
  }

  // ---------- one finding a claim, one note ----------

  lemma {:induction false} FindingsAreOf(
      from: Dataset, built: bool, verdicts: seq<Verdict>, groups: map<Verdict, seq<Ruled>>, note: bool)
    ensures forall f <- FindingsFrom(from, built, verdicts, groups, note) :: f.verdict in verdicts && (f.noted ==> note)
  {
    if verdicts != [] {
      FindingsAreOf(from, built, verdicts[1..], groups, note);
      FindingsAreOf(from, built, verdicts[1..], groups, false);
    }
  }

  ghost predicate OneEach(findings: seq<Summary>) {
    forall i, j | 0 <= i < j < |findings| :: findings[i].verdict != findings[j].verdict
  }

  /** Two findings of one identification make two claims. */
  lemma {:induction false} ClaimsDiffer(
      from: Dataset, built: bool, verdicts: seq<Verdict>, groups: map<Verdict, seq<Ruled>>, note: bool)
    requires forall i, j | 0 <= i < j < |verdicts| :: verdicts[i] != verdicts[j]
    ensures OneEach(FindingsFrom(from, built, verdicts, groups, note))
  {
    hide OneEach;
    if verdicts == [] {
      OneMoreEach([]);
    } else if verdicts[0] in groups {
      var rest := FindingsFrom(from, built, verdicts[1..], groups, false);
      ClaimsDiffer(from, built, verdicts[1..], groups, false);
      FindingsAreOf(from, built, verdicts[1..], groups, false);
      OneMoreEach(rest);
    } else {
      ClaimsDiffer(from, built, verdicts[1..], groups, note);
    }
  }

  lemma OneMoreEach(rest: seq<Summary>)
    ensures OneEach([])
    ensures OneEach(rest) ==> forall f: Summary | (forall g <- rest :: g.verdict != f.verdict) :: OneEach([f] + rest)
  {
  }

  /** The first group there is, in the order of the claims. */
  function FirstGroup(verdicts: seq<Verdict>, groups: map<Verdict, seq<Ruled>>): Option<Verdict> {
    if verdicts == [] then None
    else if verdicts[0] in groups then Some(verdicts[0])
    else FirstGroup(verdicts[1..], groups)
  }


  /**
   * What was withdrawn is said once, on the first finding, exactly where the first group has a
   * finding; where that group cannot be reported, the note goes with it and is never said.
   */
  lemma {:induction false} TheNoteIsSaidWhereTheFirstGroupIs(
      from: Dataset, built: bool, verdicts: seq<Verdict>, groups: map<Verdict, seq<Ruled>>)
    ensures var findings := FindingsFrom(from, built, verdicts, groups, true);
      var first := FirstGroup(verdicts, groups);
      && (forall i | 1 <= i < |findings| :: !findings[i].noted)
      && ((findings != [] && findings[0].noted) <==>
            && first.Some? && first.value in groups
            && FindingOf(from, built, first.value, groups[first.value], true).Some?)
  {
    hide FindingsOf;
    if verdicts != [] {
      if verdicts[0] in groups {
        FindingsAreOf(from, built, verdicts[1..], groups, false);
      } else {
        TheNoteIsSaidWhereTheFirstGroupIs(from, built, verdicts[1..], groups);
      }
    }
  }

  // ---------- the note, from a catalogue on ----------

  /** A group that can be reported: under a named catalogue, rated somewhere, and titled. */
  ghost predicate Reportable(from: Dataset, verdict: Verdict, group: seq<Ruled>) {
    && Trim(from.id) != "" && !Untitled(verdict, group)
    && exists r <- group :: SeverityOf(r.vulnerability.severity).Some?
  }

  /**
   * What was withdrawn from an identification is said exactly where something was, and the first
   * group of what was not is under a named catalogue, has a rated entry, and is titled. Otherwise
   * a later group may be reported and the note is lost.
   */
  lemma TheNoteIsSaidExactlyWhen(
      from: Dataset, catalogue: seq<Vulnerability>, judged: Judged, overlay: Overlay, groups: map<Verdict, seq<Ruled>>)
    requires var kept := Kept(Matched(catalogue, judged.name));
      AreTheGroups(groups, kept, Classifier(judged, kept, overlay))
    ensures var kept := Kept(Matched(catalogue, judged.name)); var classify := Classifier(judged, kept, overlay);
      var findings := FindingsOf(from, judged.built, groups, CountsOf(kept, classify));
      var first := FirstGroup(VERDICTS, groups);
      (findings != [] && findings[0].noted) <==>
        && Total(CountsOf(kept, classify)) > 0
        && first.Some? && Reportable(from, first.value, Group(kept, classify, first.value))
  {
    hide Kept, Matched, Classifier, FindingOf, FindingsFrom, CountsOf, Group, Trim, Utf8Length;
    var kept := Kept(Matched(catalogue, judged.name));
    var classify := Classifier(judged, kept, overlay);
    KeptIsSorted(Matched(catalogue, judged.name));
    var first := FirstGroup(VERDICTS, groups);
    if Total(CountsOf(kept, classify)) > 0 {
      TheNoteIsSaidWhereTheFirstGroupIs(from, judged.built, VERDICTS, groups);
      if first.Some? {
        FirstGroupIsOne(VERDICTS, groups);
        ReportedExactlyWhen(from, judged, kept, overlay, first.value, true);
      }
    } else {
      FindingsAreOf(from, judged.built, VERDICTS, groups, false);
    }
  }

  lemma {:induction false} FirstGroupIsOne(verdicts: seq<Verdict>, groups: map<Verdict, seq<Ruled>>)
    ensures var first := FirstGroup(verdicts, groups); first.Some? ==> first.value in groups
  {
    if verdicts != [] { FirstGroupIsOne(verdicts[1..], groups); }
  }

  lemma {:induction false} LastIsReported(from: Dataset, verdicts: seq<Verdict>, groups: map<Verdict, seq<Ruled>>)
    requires verdicts != [] && verdicts[|verdicts| - 1] in groups
    requires var last := verdicts[|verdicts| - 1];
      forall noted :: FindingOf(from, false, last, groups[last], noted).Some?
    ensures forall note :: FindingsFrom(from, false, verdicts, groups, note) != []
  {
    hide FindingOf;
    if |verdicts| > 1 {
      LastIsReported(from, verdicts[1..], groups);
    }
  }
}
