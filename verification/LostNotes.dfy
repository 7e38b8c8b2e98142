/**
 * Catalogues of three entries naming one upstream release at any version. Those that lose the
 * note about what they withdrew hold one needing a setting and unrated, one rated, and one in its
 * clients. One that is counted wrong states an identifier twice.
 */
module LostNotes {
  import opened Wrappers
  import opened Texts
  import opened Ranking
  import opened Judge
  import opened Summaries
  import Cpe
  import Interning
  import Predicates

  datatype Three = Three(
    unrated: Vulnerability, rated: Vulnerability, clients: Vulnerability, name: Cpe.Name, overlay: Overlay)
  {
    function Catalogue(): seq<Vulnerability> {
      [unrated, rated, clients]
    }

    /** The release as no distribution built it. */
    function Identified(): Judged {
      Judged(name, false, Unplaced)
    }

    function KeptOfThem(): seq<Vulnerability> {
      Kept(Matched(Catalogue(), name))
    }

    function Classes(): Vulnerability -> Classified {
      Classifier(Identified(), KeptOfThem(), overlay)
    }

    ghost predicate Fits() {
      && unrated.cve != rated.cve && rated.cve != clients.cve && clients.cve != unrated.cve
      && (forall v <- Catalogue() :: Names(v, name) && !ConstrainsTheVersion(v))
      && AppliesTo(overlay, unrated).Some? && AppliesTo(overlay, unrated).value.Configuration?
      && AppliesTo(overlay, rated).None? && AppliesTo(overlay, clients) == Some(Client)
      && SeverityOf(unrated.severity).None? && SeverityOf(rated.severity).Some? && Trim(rated.title) != ""
    }
  }

  lemma AllAreKept(t: Three, v: Vulnerability)
    requires t.Fits()
    ensures v in t.KeptOfThem() <==> v in t.Catalogue()
  {
    hide Kept, Names, ConstrainsTheVersion, AppliesTo, SeverityOf, Trim;
    var matched := Matched(t.Catalogue(), t.name);
    CountedOnceExactlyWhereNothingInterleaves(matched);
    if v in t.Catalogue() {
      assert v in matched && v.cve in Cves(matched);
      var w :| w in Kept(matched) && w.cve == v.cve;
      KeptWereMatched(t.Catalogue(), t.name, w);
    } else if v in t.KeptOfThem() {
      KeptWereMatched(t.Catalogue(), t.name, v);
    }
  }

  lemma WhereTheyGo(t: Three)
    requires t.Fits()
    ensures t.Classes()(t.unrated) == Grouped(NeedsSetting, None)
    ensures t.Classes()(t.rated) == Grouped(AnyVersion, None)
    ensures t.Classes()(t.clients) == Withdrawn(Elsewhere)
  {
    hide Kept, Matched, Names, ConstrainsTheVersion, AppliesTo, SeverityOf, Trim;
    assert t.Catalogue()[0] in t.Catalogue() && t.Catalogue()[1] in t.Catalogue();
  }

  lemma {:induction false} WithdrawnIsCounted(
      kept: seq<Vulnerability>, classify: Vulnerability -> Classified, v: Vulnerability)
    requires v in kept && classify(v).Withdrawn?
    ensures Total(CountsOf(kept, classify)) > 0
  {
    var n := |kept| - 1;
    if v != kept[n] {
      assert v in kept[..n];
      WithdrawnIsCounted(kept[..n], classify, v);
    }
  }

  /** Only two verdicts have a group, and each is of one entry. */
  lemma WhoIsWhere(t: Three, verdict: Verdict, r: Ruled)
    requires t.Fits() && r in Group(t.KeptOfThem(), t.Classes(), verdict)
    ensures
      || (verdict.NeedsSetting? && r.vulnerability == t.unrated)
      || (verdict.AnyVersion? && r.vulnerability == t.rated)
  {
    hide Group, Three.KeptOfThem, Three.Classes, Three.Fits;
    GroupHolds(t.KeptOfThem(), t.Classes(), verdict, r);
    AllAreKept(t, r.vulnerability);
    WhereTheyGo(t);
  }

  lemma TheTwoGroups(t: Three)
    requires t.Fits()
    ensures Ruled(t.unrated, None) in Group(t.KeptOfThem(), t.Classes(), NeedsSetting)
    ensures Ruled(t.rated, None) in Group(t.KeptOfThem(), t.Classes(), AnyVersion)
    ensures Total(CountsOf(t.KeptOfThem(), t.Classes())) > 0
  {
    hide Group, CountsOf, Three.KeptOfThem, Three.Classes, Three.Fits;
    WhereTheyGo(t);
    var all := t.Catalogue();
    assert all[0] in all && all[1] in all && all[2] in all;
    AllAreKept(t, t.unrated);
    AllAreKept(t, t.rated);
    AllAreKept(t, t.clients);
    GroupHolds(t.KeptOfThem(), t.Classes(), NeedsSetting, Ruled(t.unrated, None));
    GroupHolds(t.KeptOfThem(), t.Classes(), AnyVersion, Ruled(t.rated, None));
    WithdrawnIsCounted(t.KeptOfThem(), t.Classes(), t.clients);
  }

  lemma TheFirstOfTwo(groups: map<Verdict, seq<Ruled>>)
    requires NeedsSetting in groups && forall verdict <- groups :: verdict.NeedsSetting? || verdict.AnyVersion?
    ensures FirstGroup(VERDICTS, groups) == Some(NeedsSetting)
  {
    assert Affected !in groups && FixAvailable !in groups && EsmOnly !in groups && NoFix !in groups;
    assert FirstGroup(VERDICTS[4..], groups) == Some(NeedsSetting);
    assert VERDICTS[3..][1..] == VERDICTS[4..] && VERDICTS[2..][1..] == VERDICTS[3..];
    assert FirstGroup(VERDICTS[3..], groups) == Some(NeedsSetting);
    assert FirstGroup(VERDICTS[2..], groups) == Some(NeedsSetting);
    assert VERDICTS[1..][1..] == VERDICTS[2..];
    assert FirstGroup(VERDICTS[1..], groups) == Some(NeedsSetting);
  }

  /** The unrated entry leads, and its group is not one that can be reported. */
  lemma TheUnratedLeads(t: Three, from: Dataset, groups: map<Verdict, seq<Ruled>>)
    requires t.Fits() && AreTheGroups(groups, t.KeptOfThem(), t.Classes())
    ensures FirstGroup(VERDICTS, groups) == Some(NeedsSetting)
    ensures !Reportable(from, NeedsSetting, Group(t.KeptOfThem(), t.Classes(), NeedsSetting))
  {
    hide Group, Three.KeptOfThem, Three.Classes;
    TheTwoGroups(t);
    forall verdict | verdict in groups
      ensures verdict.NeedsSetting? || verdict.AnyVersion?
    {
      var group := Group(t.KeptOfThem(), t.Classes(), verdict);
      assert group != [];
      WhoIsWhere(t, verdict, group[0]);
    }
    TheFirstOfTwo(groups);
    forall r <- Group(t.KeptOfThem(), t.Classes(), NeedsSetting)
      ensures r.vulnerability == t.unrated
    {
      WhoIsWhere(t, NeedsSetting, r);
    }
  }

  /** And the rated one is reported. */
  lemma TheRatedIsReported(t: Three, from: Dataset, noted: bool)
    requires t.Fits() && Trim(from.id) != ""
    ensures FindingOf(from, false, AnyVersion, Group(t.KeptOfThem(), t.Classes(), AnyVersion), noted).Some?
  {
    KeptIsSorted(Matched(t.Catalogue(), t.name));
    ReportedExactlyWhen(from, t.Identified(), t.KeptOfThem(), t.overlay, AnyVersion, noted);
    hide Group, Kept, Matched, Classifier, FindingOf, Trim, Utf8Length, SeverityOf, Names, AppliesTo,
         ConstrainsTheVersion;
    TheTwoGroups(t);
    var group := Group(t.KeptOfThem(), t.Classes(), AnyVersion);
    assert !Untitled(AnyVersion, group) by { WhoIsWhere(t, AnyVersion, group[0]); }
  }

  /** So it is: something was withdrawn, a finding is reported, and nothing is said of the first. */
  lemma TheNoteCanBeLost(t: Three, from: Dataset, groups: map<Verdict, seq<Ruled>>)
    requires t.Fits() && Trim(from.id) != "" && AreTheGroups(groups, t.KeptOfThem(), t.Classes())
    ensures var findings := FindingsOf(from, false, groups, CountsOf(t.KeptOfThem(), t.Classes()));
      Total(CountsOf(t.KeptOfThem(), t.Classes())) > 0 && findings != [] && !findings[0].noted
  {
    TheNoteIsSaidExactlyWhen(from, t.Catalogue(), t.Identified(), t.overlay, groups);
    hide Kept, Matched, Classifier, Group, CountsOf, FindingOf, FindingsFrom, Trim, Three.Fits;
    TheTwoGroups(t);
    TheUnratedLeads(t, from, groups);
    forall noted
      ensures FindingOf(from, false, AnyVersion, groups[AnyVersion], noted).Some?
    {
      TheRatedIsReported(t, from, noted);
    }
    LastIsReported(from, VERDICTS, groups);
  }

  function Unversioned(cve: string, severity: string): Vulnerability {
    Interning.DocumentEntry(cve, "title", severity, "v", "p", "*", None, None)
  }

  const PLAIN := Cpe.Name("v", "p", "")

  lemma AStarIsItself()
    ensures Trim("*") == "*"
  {
    hide Trim;
    Untrimmed("*");
  }

  lemma UnversionedIsNamed(cve: string, severity: string)
    ensures Names(Unversioned(cve, severity), PLAIN) && !ConstrainsTheVersion(Unversioned(cve, severity))
  {
    hide Trim, Lower, Predicates.ClauseHolds, Predicates.Unlearned;
    AStarIsItself();
  }

  /** A setting for one identifier, and the clients for another. */
  function OverlayOf(a: string, c: string): Overlay {
    map[(a, "v:p") := Configuration("x"), (c, "v:p") := Client]
  }

  lemma UnversionedApplies(a: string, c: string, cve: string, severity: string)
    requires a != c
    ensures AppliesTo(OverlayOf(a, c), Unversioned(cve, severity)) ==
      if cve == a then Some(Configuration("x")) else if cve == c then Some(Client) else None
  {
    assert "v" + ":" + "p" == "v:p";
    var overlay := OverlayOf(a, c);
    assert (cve, "v:p") in overlay <==> cve == a || cve == c;
  }

  lemma Ratings()
    ensures SeverityOf("unrated").None? && SeverityOf("high").Some?
  {
  }

  /** Three such entries, under any three identifiers. */
  lemma SuchCataloguesExist(a: string, b: string, c: string)
    requires a != b && b != c && c != a
    ensures Three(Unversioned(a, "unrated"), Unversioned(b, "high"), Unversioned(c, "low"), PLAIN,
                  OverlayOf(a, c)).Fits()
  {
    hide Names, ConstrainsTheVersion, AppliesTo, Trim, OverlayOf, SeverityOf;
    UnversionedIsNamed(a, "unrated");
    UnversionedIsNamed(b, "high");
    UnversionedIsNamed(c, "low");
    UnversionedApplies(a, c, a, "unrated");
    UnversionedApplies(a, c, b, "high");
    UnversionedApplies(a, c, c, "low");
    Untrimmed("title");
    Ratings();
  }

  // ---------- a vulnerability counted twice ----------

  /** A catalogue that states one identifier twice, about another, at any version. */
  function StatedTwice(a: string, b: string): seq<Vulnerability> {
    [Unversioned(a, "low"), Unversioned(b, "high"), Unversioned(a, "critical")]
  }

  lemma {:induction false} AllThatIsNamedMatches(catalogue: seq<Vulnerability>, name: Cpe.Name)
    requires forall v <- catalogue :: Names(v, name)
    ensures Matched(catalogue, name) == catalogue
  {
    hide Names;
    if catalogue != [] {
      assert catalogue[0] in catalogue;
      AllThatIsNamedMatches(catalogue[1..], name);
    }
  }

  lemma ThreeAreNamed(a: Vulnerability, b: Vulnerability, c: Vulnerability, name: Cpe.Name)
    requires Names(a, name) && Names(b, name) && Names(c, name)
    ensures forall v <- [a, b, c] :: Names(v, name)
  {
    hide Names;
  }

  lemma BothAreMatched(a: string, b: string)
    ensures Matched(StatedTwice(a, b), PLAIN) == StatedTwice(a, b)
  {
    hide Names, Matched, Unversioned, ConstrainsTheVersion;
    var (low, high, critical) := (Unversioned(a, "low"), Unversioned(b, "high"), Unversioned(a, "critical"));
    UnversionedIsNamed(a, "low");
    UnversionedIsNamed(b, "high");
    UnversionedIsNamed(a, "critical");
    ThreeAreNamed(low, high, critical, PLAIN);
    AllThatIsNamedMatches([low, high, critical], PLAIN);
  }

  /** Whatever the distributor says of it, more is reported and withdrawn than there are vulnerabilities. */
  lemma OneIsCountedTwice(a: string, b: string, classify: Vulnerability -> Classified)
    requires a != b
    ensures var matched := Matched(StatedTwice(a, b), PLAIN);
      Reported(Kept(matched), classify) + Total(CountsOf(Kept(matched), classify)) > |Cves(matched)|
  {
    hide Kept, Cves, Reported, CountsOf, Matched, Names, Rank, SeverityOf;
    BothAreMatched(a, b);
    OneIdentifierIsCountedTwice(Unversioned(a, "low"), Unversioned(b, "high"), Unversioned(a, "critical"));
    EveryEntryIsAccountedFor(Kept(StatedTwice(a, b)), classify);
  }
}
