/**
 * One identification of a service against a catalogue: the entries naming it, worst first and
 * without repeats, each either grouped by what can be said about it or withdrawn and counted.
 */
module Judge {
  import opened Wrappers
  import opened Texts
  import opened Ranking
  import Backport
  import Cpe
  import Dpkg
  import Orders
  import Predicates

  /** Where the overlay says a vulnerability lives. */
  datatype Applies = Service | Client | Local | Configuration(requires': string)

  /** By identifier and by `vendor:product`. */
  type Overlay = map<(string, string), Applies>

  /** A build found in its distributor's data, or not. */
  datatype Placement = Placed(installed: Option<string>, statuses: map<string, seq<Backport.Status>>) | Unplaced

  /** An identifier as parsed, whether the service named its build, and where that build is placed. */
  datatype Judged = Judged(name: Cpe.Name, built: bool, placing: Placement)

  /** The kinds of claim, in the order a report lists them. */
  datatype Verdict =
    | Affected | FixAvailable | EsmOnly | NoFix | NeedsSetting
    | BuildUnchecked | PatchLevelHidden | Untriaged | AnyVersion

  datatype Why = Fixed | NotAffected | Elsewhere

  datatype Classified = Withdrawn(why: Why) | Grouped(verdict: Verdict, ruling: Option<Backport.Ruling>)

  datatype Ruled = Ruled(vulnerability: Vulnerability, ruling: Option<Backport.Ruling>)

  datatype Counts = Counts(fixed: nat, notAffected: nat, elsewhere: nat)

  // ---------- what matches ----------

  predicate Names(v: Vulnerability, name: Cpe.Name) {
    && Lower(v.vendor) == Lower(name.vendor) && Lower(v.product) == Lower(name.product)
    && Predicates.Matches(name.version, v.affected)
  }

  function Matched(catalogue: seq<Vulnerability>, name: Cpe.Name): (matched: seq<Vulnerability>)
    ensures forall v :: v in matched <==> v in catalogue && Names(v, name)
  {
    if catalogue == [] then []
    else (if Names(catalogue[0], name) then [catalogue[0]] else []) + Matched(catalogue[1..], name)
  }

  // ---------- where an entry goes ----------

  predicate ConstrainsTheVersion(v: Vulnerability) {
    Trim(v.affected) != "*"
  }

  function StatusesOf(placed: Placement, cve: string): seq<Backport.Status>
    requires placed.Placed?
  {
    if cve in placed.statuses then placed.statuses[cve] else []
  }

  function RulingOn(placed: Placement, cve: string): Backport.Ruling
    requires placed.Placed?
  {
    Backport.Rule(placed.installed, StatusesOf(placed, cve))
  }

  function VerdictOf(ruling: Backport.Ruling): Verdict
    requires !Backport.Withdraws(ruling)
  {
    match ruling
    case FixAvailable(_) => FixAvailable
    case EsmOnly(_) => EsmOnly
    case NoFix(_, _) => NoFix
    case PatchLevelHidden(_) => PatchLevelHidden
    case Untriaged => Untriaged
    case NotTracked => Untriaged
  }

  function AppliesTo(overlay: Overlay, v: Vulnerability): Option<Applies> {
    var key := (v.cve, v.vendor + ":" + v.product);
    if key in overlay then Some(overlay[key]) else None
  }

  function Classify(v: Vulnerability, built: bool, placement: Option<Placement>, overlay: Overlay): Classified {
    var applies := AppliesTo(overlay, v);
    if applies == Some(Client) || applies == Some(Local) then Withdrawn(Elsewhere)
    else
      var needsSetting := applies.Some? && applies.value.Configuration?;
      if placement.Some? && placement.value.Placed? then
        var ruling := RulingOn(placement.value, v.cve);
        if ruling.WithdrawnFixed? then Withdrawn(Fixed)
        else if ruling.WithdrawnNotAffected? then Withdrawn(NotAffected)
        else Grouped(if needsSetting then NeedsSetting else VerdictOf(ruling), Some(ruling))
      else
        var verdict :=
          if !ConstrainsTheVersion(v) then AnyVersion
          else if built then BuildUnchecked
          else Affected;
        Grouped(if needsSetting then NeedsSetting else verdict, None)
  }

  /** A build is placed once, and only where anything matched. */
  function PlacementOf(judged: Judged, kept: seq<Vulnerability>): Option<Placement> {
    if judged.built && kept != [] then Some(judged.placing) else None
  }

  // ---------- groups and counters ----------

  function CountOne(counts: Counts, why: Why): Counts {
    match why
    case Fixed => counts.(fixed := counts.fixed + 1)
    case NotAffected => counts.(notAffected := counts.notAffected + 1)
    case Elsewhere => counts.(elsewhere := counts.elsewhere + 1)
  }

  function Total(counts: Counts): nat {
    counts.fixed + counts.notAffected + counts.elsewhere
  }

  /** The entries of `kept` a verdict claims, in their order. */
  function Group(kept: seq<Vulnerability>, classify: Vulnerability -> Classified, verdict: Verdict): seq<Ruled> {
    if kept == [] then []
    else
      var n := |kept| - 1;
      var c := classify(kept[n]);
      Group(kept[..n], classify, verdict)
      + (if c.Grouped? && c.verdict == verdict then [Ruled(kept[n], c.ruling)] else [])
  }

  function CountsOf(kept: seq<Vulnerability>, classify: Vulnerability -> Classified): Counts {
    if kept == [] then Counts(0, 0, 0)
    else
      var n := |kept| - 1;
      var c := classify(kept[n]);
      var before := CountsOf(kept[..n], classify);
      if c.Withdrawn? then CountOne(before, c.why) else before
  }

  /** The map holds every non-empty group and nothing else. */
  ghost predicate AreTheGroups(groups: map<Verdict, seq<Ruled>>, kept: seq<Vulnerability>,
                               classify: Vulnerability -> Classified) {
    forall verdict ::
      && (verdict in groups <==> Group(kept, classify, verdict) != [])
      && (verdict in groups ==> groups[verdict] == Group(kept, classify, verdict))
  }

  function Pushed(groups: map<Verdict, seq<Ruled>>, verdict: Verdict, ruled: Ruled): map<Verdict, seq<Ruled>> {
    groups[verdict := (if verdict in groups then groups[verdict] else []) + [ruled]]
  }

  lemma OneMoreEntry(
      groups: map<Verdict, seq<Ruled>>, kept: seq<Vulnerability>, classify: Vulnerability -> Classified, i: nat)
    requires i < |kept| && AreTheGroups(groups, kept[..i], classify)
    ensures var c := classify(kept[i]);
      && AreTheGroups(if c.Grouped? then Pushed(groups, c.verdict, Ruled(kept[i], c.ruling)) else groups,
                      kept[..i + 1], classify)
      && CountsOf(kept[..i + 1], classify)
         == (if c.Withdrawn? then CountOne(CountsOf(kept[..i], classify), c.why) else CountsOf(kept[..i], classify))
  {
    assert kept[..i + 1][..i] == kept[..i];
  }

  function Classifier(judged: Judged, kept: seq<Vulnerability>, overlay: Overlay): Vulnerability -> Classified {
    var placement := PlacementOf(judged, kept);
    v => Classify(v, judged.built, placement, overlay)
  }

  method Judge(catalogue: seq<Vulnerability>, judged: Judged, overlay: Overlay)
    returns (groups: map<Verdict, seq<Ruled>>, withdrawn: Counts)
    ensures var kept := Kept(Matched(catalogue, judged.name)); var classify := Classifier(judged, kept, overlay);
      AreTheGroups(groups, kept, classify) && withdrawn == CountsOf(kept, classify)
  {
    var kept := Kept(Matched(catalogue, judged.name));
    var classify := Classifier(judged, kept, overlay);
    groups, withdrawn := map[], Counts(0, 0, 0);
    assert AreTheGroups(groups, kept[..0], classify) && withdrawn == CountsOf(kept[..0], classify);
    hide Classifier, Kept, Matched, AreTheGroups, CountsOf;
    for i := 0 to |kept|
      invariant AreTheGroups(groups, kept[..i], classify)
      invariant withdrawn == CountsOf(kept[..i], classify)
    {
      OneMoreEntry(groups, kept, classify, i);
      match classify(kept[i])
      case Withdrawn(why) =>
        withdrawn := CountOne(withdrawn, why);
      case Grouped(verdict, ruling) =>
        groups := Pushed(groups, verdict, Ruled(kept[i], ruling));
    }
    assert kept[..|kept|] == kept;
  }

  // ---------- nothing is lost ----------

  function Size(kept: seq<Vulnerability>, classify: Vulnerability -> Classified, verdict: Verdict): nat {
    |Group(kept, classify, verdict)|
  }

  /** How many entries the nine groups report. */
  function Reported(kept: seq<Vulnerability>, classify: Vulnerability -> Classified): nat {
    Size(kept, classify, Affected) + Size(kept, classify, FixAvailable) + Size(kept, classify, EsmOnly)
    + Size(kept, classify, NoFix) + Size(kept, classify, NeedsSetting) + Size(kept, classify, BuildUnchecked)
    + Size(kept, classify, PatchLevelHidden) + Size(kept, classify, Untriaged) + Size(kept, classify, AnyVersion)
  }

  lemma SizesOneMore(kept: seq<Vulnerability>, classify: Vulnerability -> Classified)
    requires kept != []
    ensures var n := |kept| - 1; var c := classify(kept[n]);
      forall verdict ::
        Size(kept, classify, verdict)
        == Size(kept[..n], classify, verdict) + (if c.Grouped? && c.verdict == verdict then 1 else 0)
  {
  }

  lemma ReportedOneMore(kept: seq<Vulnerability>, classify: Vulnerability -> Classified)
    requires kept != []
    ensures var n := |kept| - 1;
      Reported(kept, classify) == Reported(kept[..n], classify) + (if classify(kept[n]).Grouped? then 1 else 0)
  {
    hide Size;
    SizesOneMore(kept, classify);
    match classify(kept[|kept| - 1])
    case Withdrawn(_) =>
    case Grouped(verdict, _) =>
      match verdict
      case Affected =>
      case FixAvailable =>
      case EsmOnly =>
      case NoFix =>
      case NeedsSetting =>
      case BuildUnchecked =>
      case PatchLevelHidden =>
      case Untriaged =>
      case AnyVersion =>
  }

  /** Every entry is reported in one group or withdrawn under one counter. */
  lemma {:induction false} EveryEntryIsAccountedFor(kept: seq<Vulnerability>, classify: Vulnerability -> Classified)
    ensures Reported(kept, classify) + Total(CountsOf(kept, classify)) == |kept|
  {
    hide Reported, CountsOf;
    if kept == [] {
      NothingIsReported(classify);
    } else {
      var n := |kept| - 1;
      EveryEntryIsAccountedFor(kept[..n], classify);
      ReportedOneMore(kept, classify);
      CountsOneMore(kept, classify);
    }
  }

  lemma NothingIsReported(classify: Vulnerability -> Classified)
    ensures Reported([], classify) == 0 && Total(CountsOf([], classify)) == 0
  {
    hide Size, CountsOf;
    NoGroupIsOfNothing(classify);
    NothingIsCounted(classify);
  }

  lemma NoGroupIsOfNothing(classify: Vulnerability -> Classified)
    ensures forall verdict :: Size([], classify, verdict) == 0
  {
  }

  lemma NothingIsCounted(classify: Vulnerability -> Classified)
    ensures CountsOf([], classify) == Counts(0, 0, 0)
  {
  }

  lemma CountsOneMore(kept: seq<Vulnerability>, classify: Vulnerability -> Classified)
    requires kept != []
    ensures var n := |kept| - 1;
      Total(CountsOf(kept, classify))
      == Total(CountsOf(kept[..n], classify)) + (if classify(kept[n]).Withdrawn? then 1 else 0)
  {
    hide CountOne, Total;
    var c := classify(kept[|kept| - 1]);
    if c.Withdrawn? {
      CountingOneAddsOne(CountsOf(kept[..|kept| - 1], classify), c.why);
    }
  }

  lemma CountingOneAddsOne(counts: Counts, why: Why)
    ensures Total(CountOne(counts, why)) == Total(counts) + 1
  {
  }

  /**
   * The numbers a reader reconciles: what the groups report and what is withdrawn add up to
   * the distinct identifiers that matched, exactly where no statement of one interleaves with
   * another's.
   */
  lemma TheNumbersReconcile(catalogue: seq<Vulnerability>, name: Cpe.Name, classify: Vulnerability -> Classified)
    ensures var matched := Matched(catalogue, name); var kept := Kept(matched);
      Reported(kept, classify) + Total(CountsOf(kept, classify)) == |Cves(matched)| <==> NothingInterleaves(matched)
  {
    var matched := Matched(catalogue, name);
    EveryEntryIsAccountedFor(Kept(matched), classify);
    CountedOnceExactlyWhereNothingInterleaves(matched);
  }

  lemma {:induction false} GroupHolds(
      kept: seq<Vulnerability>, classify: Vulnerability -> Classified, verdict: Verdict, r: Ruled)
    ensures r in Group(kept, classify, verdict) <==>
      r.vulnerability in kept && classify(r.vulnerability) == Grouped(verdict, r.ruling)
  {
    if kept != [] {
      var n := |kept| - 1;
      GroupHolds(kept[..n], classify, verdict, r);
      assert kept == kept[..n] + [kept[n]];
    }
  }

  lemma {:induction false} AGroupRepeatsNothing(
      kept: seq<Vulnerability>, classify: Vulnerability -> Classified, verdict: Verdict)
    requires NoneTwice(kept)
    ensures NoneTwice(Entries(Group(kept, classify, verdict)))
  {
    hide NoneTwice;
    if kept == [] {
      AsManyAsIdentifiers([]);
      assert Cves([]) == {} && Entries([]) == [];
    } else {
      var n := |kept| - 1;
      NoneTwiceOneMore(kept[..n], kept[n]);
      assert kept[..n] + [kept[n]] == kept;
      AGroupRepeatsNothing(kept[..n], classify, verdict);
      var before := Group(kept[..n], classify, verdict);
      var c := classify(kept[n]);
      if c.Grouped? && c.verdict == verdict {
        EntriesOneMore(before, Ruled(kept[n], c.ruling));
        forall v <- Entries(before)
          ensures v.cve != kept[n].cve
        {
          var i :| 0 <= i < |before| && before[i].vulnerability == v;
          GroupHolds(kept[..n], classify, verdict, before[i]);
        }
        NoneTwiceOneMore(Entries(before), kept[n]);
      } else {
        assert Group(kept, classify, verdict) == before;
      }
    }
  }

  lemma EntriesOneMore(group: seq<Ruled>, r: Ruled)
    ensures Entries(group + [r]) == Entries(group) + [r.vulnerability]
  {
  }

  /** No identifier is reported twice, in one group or across two, nor both reported and withdrawn. */
  lemma AnIdentifierLandsOnce(
      matched: seq<Vulnerability>, classify: Vulnerability -> Classified,
      a: Ruled, inA: Verdict, b: Vulnerability)
    requires NothingInterleaves(matched)
    requires a in Group(Kept(matched), classify, inA) && b in Kept(matched) && a.vulnerability.cve == b.cve
    ensures a.vulnerability == b && classify(b) == Grouped(inA, a.ruling)
    ensures forall verdict | verdict != inA :: Ruled(b, a.ruling) !in Group(Kept(matched), classify, verdict)
    ensures NoneTwice(Entries(Group(Kept(matched), classify, inA)))
  {
    var kept := Kept(matched);
    hide Kept;
    CountedOnceExactlyWhereNothingInterleaves(matched);
    AGroupRepeatsNothing(kept, classify, inA);
    GroupHolds(kept, classify, inA, a);
    assert a.vulnerability == b;
    forall verdict | verdict != inA
      ensures Ruled(b, a.ruling) !in Group(kept, classify, verdict)
    {
      GroupHolds(kept, classify, verdict, Ruled(b, a.ruling));
    }
  }

  function Entries(group: seq<Ruled>): seq<Vulnerability> {
    seq(|group|, i requires 0 <= i < |group| => group[i].vulnerability)
  }

  /** Within a group the order is the one the matches were sorted into. */
  lemma {:induction false} AGroupIsWorstFirst(
      kept: seq<Vulnerability>, classify: Vulnerability -> Classified, verdict: Verdict)
    requires IsSorted(kept)
    ensures IsSorted(Entries(Group(kept, classify, verdict)))
    ensures forall v <- Entries(Group(kept, classify, verdict)) :: v in kept
  {
    hide Before;
    if kept != [] {
      var n := |kept| - 1;
      AGroupIsWorstFirst(kept[..n], classify, verdict);
      var group := Entries(Group(kept[..n], classify, verdict));
      var more := Entries(Group(kept, classify, verdict));
      assert more == group || more == group + [kept[n]];
      forall v <- group
        ensures Before(v, kept[n]) != Orders.Greater
      {
      }
    }
  }

  // ---------- a version nobody read ----------

  lemma KeptWereMatched(catalogue: seq<Vulnerability>, name: Cpe.Name, v: Vulnerability)
    requires v in Kept(Matched(catalogue, name))
    ensures v in catalogue && Names(v, name)
  {
    hide Names, Sorted, Dedup;
    var matched := Matched(catalogue, name);
    SortedPermutes(matched);
    DedupKeepsTheIdentifiers(Sorted(matched));
  }

  lemma AskingForNoneChecksNone(v: Vulnerability, built: bool, placement: Option<Placement>, overlay: Overlay)
    requires !ConstrainsTheVersion(v)
    ensures var c := Classify(v, built, placement, overlay);
      c.Grouped? ==> !c.verdict.Affected? && !c.verdict.BuildUnchecked?
  {
    hide ConstrainsTheVersion, AppliesTo, RulingOn;
  }

  /**
   * An identification whose version was not learned is matched by entries that ask for none, so
   * it is never claimed to be affected, nor a build of it unchecked.
   */
  lemma AnUnlearnedVersionIsNeverChecked(catalogue: seq<Vulnerability>, judged: Judged, overlay: Overlay, r: Ruled)
    requires Predicates.Unlearned(judged.name.version)
    ensures var kept := Kept(Matched(catalogue, judged.name)); var classify := Classifier(judged, kept, overlay);
      r !in Group(kept, classify, Affected) && r !in Group(kept, classify, BuildUnchecked)
  {
    hide Group, Predicates.Unlearned, Predicates.Matches, Kept, Matched, Classify, ConstrainsTheVersion;
    var kept := Kept(Matched(catalogue, judged.name));
    var classify := Classifier(judged, kept, overlay);
    GroupHolds(kept, classify, Affected, r);
    GroupHolds(kept, classify, BuildUnchecked, r);
    var v := r.vulnerability;
    if v in kept {
      KeptWereMatched(catalogue, judged.name, v);
      assert !ConstrainsTheVersion(v) by { UnlearnedMatchesTheUnconstrained(judged.name.version, v); }
      AskingForNoneChecksNone(v, judged.built, PlacementOf(judged, kept), overlay);
    }
  }

  lemma UnlearnedMatchesTheUnconstrained(version: string, v: Vulnerability)
    requires Predicates.Unlearned(version) && Predicates.Matches(version, v.affected)
    ensures !ConstrainsTheVersion(v)
  {
    Predicates.UnlearnedSatisfiesOnlyAny(version, v.affected);
    hide Predicates.Matches, Trim;
  }

  // ---------- upgrading ----------

  lemma {:induction false} WithdrawingMore(
      kept: seq<Vulnerability>, classify: Vulnerability -> Classified, classify': Vulnerability -> Classified)
    requires forall v <- kept :: classify(v).Withdrawn? ==> classify'(v).Withdrawn?
    ensures Total(CountsOf(kept, classify)) <= Total(CountsOf(kept, classify'))
  {
    if kept != [] {
      WithdrawingMore(kept[..|kept| - 1], classify, classify');
      assert kept[|kept| - 1] in kept;
    }
  }

  /** A build upgraded in the package order is reported for no more than it was, and nothing withdrawn comes back. */
  lemma UpgradingReportsNoMore(judged: Judged, kept: seq<Vulnerability>, overlay: Overlay, older: string, newer: string)
    requires judged.placing.Placed? && judged.placing.installed == Some(older)
    ensures var upgraded := judged.(placing := judged.placing.(installed := Some(newer)));
      var (before, after) := (Classifier(judged, kept, overlay), Classifier(upgraded, kept, overlay));
      Dpkg.Compare(older, newer) != Orders.Greater ==>
        && (forall v :: before(v).Withdrawn? ==> after(v).Withdrawn?)
        && Reported(kept, after) <= Reported(kept, before)
  {
    if Dpkg.Compare(older, newer) == Orders.Greater {
      return;
    }
    var upgraded := judged.(placing := judged.placing.(installed := Some(newer)));
    var before, after := Classifier(judged, kept, overlay), Classifier(upgraded, kept, overlay);
    forall v
      ensures before(v).Withdrawn? ==> after(v).Withdrawn?
    {
      hide Backport.Rule, Dpkg.Compare;
      var statuses := StatusesOf(judged.placing, v.cve);
      if Backport.Withdraws(Backport.Rule(Some(older), statuses)) {
        Backport.ANewerBuildStaysWithdrawn(older, newer, statuses);
      }
    }
    hide Classifier, Reported, CountsOf, Dpkg.Compare;
    WithdrawingMore(kept, before, after);
    EveryEntryIsAccountedFor(kept, before);
    EveryEntryIsAccountedFor(kept, after);
  }
}
