/**
 * A catalogue's judgement of a port, as the findings that are recorded for it: every platform
 * identifier of the service judged, and each finding stamped, keyed and resting on the identifier.
 */
module Drawing {
  import opened Wrappers
  import opened Ranking
  import opened Judge
  import opened Citations
  import opened Summaries
  import opened Records
  import opened Lending
  import opened Correlate
  import Replacement
  import Cpe

  /** What a correlation is run with, and what it takes from elsewhere: placing a build, and wording. */
  datatype Source = Source(
    stamp: Detection,
    entries: seq<Vulnerability>,
    exploited: Option<KnownExploited>,
    overlay: Overlay,
    place: (Services, Key, Cpe.Name) -> Placement,
    scope: (Services, Key, Cpe.Name) -> string,
    advised: (Services, Key, Cpe.Name) -> Option<Detection>,
    word: (Cpe.Name, Summary) -> (string, string, Option<string>))

  /** The name a claim's subject carries for a verdict. */
  function NameOf(verdict: Verdict): string {
    match verdict
    case Affected => "affected"
    case FixAvailable => "fix-available"
    case EsmOnly => "esm-only"
    case NoFix => "no-fix"
    case NeedsSetting => "needs-setting"
    case BuildUnchecked => "build-unchecked"
    case PatchLevelHidden => "patch-level-hidden"
    case Untriaged => "untriaged"
    case AnyVersion => "any-version"
  }

  lemma NamesDiffer(a: Verdict, b: Verdict)
    requires NameOf(a) == NameOf(b)
    ensures a == b
  {
    assert |NameOf(a)| == |NameOf(b)|;
    assert NameOf(a)[0] == NameOf(b)[0];
  }

  function SubjectOf(name: Cpe.Name, scope: string, verdict: Verdict): string {
    name.vendor + ":" + name.product + ":" + name.version + "@" + scope + "/" + NameOf(verdict)
  }

  /** The subjects as they are written, which the claims of earlier reports are matched by. */
  lemma SubjectsAsWritten(vendor: string, product: string, version: string, scope: string)
    ensures var name := Cpe.Name(vendor, product, version);
      var about := vendor + ":" + product + ":" + version + "@" + scope + "/";
      && SubjectOf(name, scope, Affected) == about + "affected"
      && SubjectOf(name, scope, FixAvailable) == about + "fix-available"
      && SubjectOf(name, scope, EsmOnly) == about + "esm-only"
      && SubjectOf(name, scope, NoFix) == about + "no-fix"
      && SubjectOf(name, scope, NeedsSetting) == about + "needs-setting"
      && SubjectOf(name, scope, BuildUnchecked) == about + "build-unchecked"
      && SubjectOf(name, scope, PatchLevelHidden) == about + "patch-level-hidden"
      && SubjectOf(name, scope, Untriaged) == about + "untriaged"
      && SubjectOf(name, scope, AnyVersion) == about + "any-version"
  {
  }

  function ReferencesOf(s: Summary): seq<Reference> {
    seq(|s.cited|, i requires 0 <= i < |s.cited| => Cve(s.cited[i])) + (if s.cwe.Some? then [Cwe(s.cwe.value)] else [])
  }

  /** What a claim is about besides the release it names: whose build, and by whose advice. */
  datatype About = About(scope: string, build: Option<string>, advised: Option<Detection>)

  /** A summary as it is recorded. */
  function Stamped(source: Source, cpe: string, name: Cpe.Name, about: About, s: Summary): Finding {
    var (title, excerpt, remediation) := source.word(name, s);
    Finding(
      source.stamp, title, RankOf(s.severity), if s.confidence.Probable? then 1 else 0, 0, excerpt,
      ReferencesOf(s), remediation, {cpe}, Some(SubjectOf(name, about.scope, s.verdict)), about.build, about.advised,
      if s.exploited == [] then None else Some(s.exploited), None)
  }

  function StampedAll(source: Source, cpe: string, name: Cpe.Name, about: About, all: seq<Summary>): seq<Finding> {
    seq(|all|, i requires 0 <= i < |all| => Stamped(source, cpe, name, about, all[i]))
  }

  function GroupsOf(kept: seq<Vulnerability>, classify: Vulnerability -> Classified): map<Verdict, seq<Ruled>> {
    map verdict: Verdict | Group(kept, classify, verdict) != [] :: Group(kept, classify, verdict)
  }

  /** What the judging method ends with is this. */
  lemma TheseAreTheGroups(
      groups: map<Verdict, seq<Ruled>>, kept: seq<Vulnerability>, classify: Vulnerability -> Classified)
    ensures AreTheGroups(groups, kept, classify) <==> groups == GroupsOf(kept, classify)
  {
    var these := GroupsOf(kept, classify);
    if AreTheGroups(groups, kept, classify) {
      assert forall verdict :: verdict in groups <==> verdict in these;
      assert groups.Keys == these.Keys;
    }
  }

  /** What one identifier of a service draws. */
  function OnIdentifier(source: Source, services: Services, key: Key, cpe: string, build: Option<string>): Judgement {
    match Cpe.Parse(cpe)
    case None => Judgement([], 0)
    case Some(name) =>
      var judged := Judged(name, build.Some?, source.place(services, key, name));
      var kept := Kept(Matched(source.entries, name));
      var classify := Classifier(judged, kept, source.overlay);
      var withdrawn := CountsOf(kept, classify);
      var all := FindingsOf(
        Dataset(source.stamp.id, source.exploited), judged.built, GroupsOf(kept, classify), withdrawn);
      var about := About(source.scope(services, key, name), build, source.advised(services, key, name));
      Judgement(StampedAll(source, cpe, name, about, all), Total(withdrawn))
  }

  function OnIdentifiers(source: Source, services: Services, key: Key, cpes: seq<string>, build: Option<string>)
    : Judgement
  {
    if cpes == [] then Judgement([], 0)
    else
      var first := OnIdentifier(source, services, key, cpes[0], build);
      var rest := OnIdentifiers(source, services, key, cpes[1..], build);
      Judgement(first.findings + rest.findings, first.withdrawn + rest.withdrawn)
  }

  /** The loop over a service's identifiers, gathering findings and adding up what was withdrawn. */
  method JudgeIdentifiers(source: Source, services: Services, key: Key, cpes: seq<string>, build: Option<string>)
    returns (judgement: Judgement)
    ensures judgement == OnIdentifiers(source, services, key, cpes, build)
  {
    hide OnIdentifier;
    ghost var whole := OnIdentifiers(source, services, key, cpes, build);
    var findings: seq<Finding>, withdrawn: nat := [], 0;
    for i := 0 to |cpes|
      invariant var rest := OnIdentifiers(source, services, key, cpes[i..], build);
        whole == Judgement(findings + rest.findings, withdrawn + rest.withdrawn)
    {
      assert cpes[i..][1..] == cpes[i + 1..];
      var judged := OnIdentifier(source, services, key, cpes[i], build);
      ghost var rest := OnIdentifiers(source, services, key, cpes[i + 1..], build);
      assert findings + (judged.findings + rest.findings) == findings + judged.findings + rest.findings;
      findings, withdrawn := findings + judged.findings, withdrawn + judged.withdrawn;
    }
    assert findings + [] == findings;
    judgement := Judgement(findings, withdrawn);
  }

  function OnPort(source: Source, services: Services, key: Key): Judgement {
    if key !in services || services[key].None? then Judgement([], 0)
    else OnIdentifiers(source, services, key, services[key].value.cpes, services[key].value.build)
  }

  /** The catalogue a host is correlated with. */
  function CatalogueOf(source: Source): Catalogue {
    Catalogue(source.stamp.id, (services: Services, key: Key) => OnPort(source, services, key))
  }

  // ---------- what it draws is its own ----------

  /** No identifier is cited twice, with a list or without one. */
  lemma {:induction false} SummariesCiteOnce(
      from: Dataset, built: bool, verdicts: seq<Verdict>, groups: map<Verdict, seq<Ruled>>, note: bool)
    ensures forall s <- FindingsFrom(from, built, verdicts, groups, note) ::
      forall i, j | 0 <= i < j < |s.cited| :: s.cited[i] != s.cited[j]
  {
    if verdicts != [] {
      SummariesCiteOnce(from, built, verdicts[1..], groups, note);
      SummariesCiteOnce(from, built, verdicts[1..], groups, false);
      if verdicts[0] in groups {
        OneCitesOnce(from, built, verdicts[0], groups[verdicts[0]], note);
      }
      hide FindingOf;
    }
  }

  lemma OneCitesOnce(from: Dataset, built: bool, verdict: Verdict, group: seq<Ruled>, note: bool)
    ensures var s := FindingOf(from, built, verdict, group, note);
      s.Some? ==> forall i, j | 0 <= i < j < |s.value.cited| :: s.value.cited[i] != s.value.cited[j]
  {
    hide Uniques, Only, Others, IsCveShaped, Marked;
    var ids := IdsOf(group);
    var marked := Marked(from.exploited, ids);
    UniquesAreDistinct(Only(ids, id => id in marked) + Others(ids, id => id in marked), IsCveShaped);
  }

  lemma ReferencesRepeatNothing(s: Summary)
    requires forall i, j | 0 <= i < j < |s.cited| :: s.cited[i] != s.cited[j]
    ensures NoRepeats(ReferencesOf(s))
  {
  }

  lemma OnIdentifierIsStamped(source: Source, services: Services, key: Key, cpe: string, build: Option<string>)
    ensures OfOneStamp(OnIdentifier(source, services, key, cpe, build).findings, source.stamp)
  {
    hide FindingsFrom, ReferencesOf, NoRepeats, GroupsOf, CountsOf, Kept, Matched, Classifier, SubjectOf;
    var name := Cpe.Parse(cpe);
    if name.Some? {
      var judged := Judged(name.value, build.Some?, source.place(services, key, name.value));
      var kept := Kept(Matched(source.entries, name.value));
      var classify := Classifier(judged, kept, source.overlay);
      var groups := GroupsOf(kept, classify);
      var from := Dataset(source.stamp.id, source.exploited);
      SummariesCiteOnce(from, judged.built, VERDICTS, groups, Total(CountsOf(kept, classify)) > 0);
      forall s <- FindingsOf(from, judged.built, groups, CountsOf(kept, classify))
        ensures NoRepeats(ReferencesOf(s))
      {
        ReferencesRepeatNothing(s);
      }
    }
  }

  lemma {:induction false} OnIdentifiersAreStamped(
      source: Source, services: Services, key: Key, cpes: seq<string>, build: Option<string>)
    ensures OfOneStamp(OnIdentifiers(source, services, key, cpes, build).findings, source.stamp)
  {
    hide OnIdentifier;
    if cpes != [] {
      OnIdentifierIsStamped(source, services, key, cpes[0], build);
      OnIdentifiersAreStamped(source, services, key, cpes[1..], build);
    }
  }

  /** Every finding drawn on a port is of the catalogue's stamp, rests on an identifier, and names its subject. */
  lemma WhatIsDrawnIsStamped(source: Source, services: Services, key: Key)
    ensures OfOneStamp(CatalogueOf(source).judge(services, key).findings, source.stamp)
  {
    hide OnIdentifiers;
    if key in services && services[key].Some? {
      OnIdentifiersAreStamped(source, services, key, services[key].value.cpes, services[key].value.build);
    }
  }

  lemma ItDrawsItsOwn(source: Source)
    ensures DrawsItsOwn(CatalogueOf(source))
  {
    var catalogue := CatalogueOf(source);
    forall services: Services, key: Key
      ensures Draws(catalogue.id, catalogue.judge(services, key).findings)
    {
      WhatIsDrawnIsStamped(source, services, key);
    }
  }

  // ---------- so correlating with it settles, commutes and keys ----------

  /** Correlating any host with a catalogue that judges as modelled is settled the second time. */
  lemma ModelledCorrelationSettles(ports: Ports, source: Source)
    requires AllKeyed(ports)
    ensures var twice := Correlated(Correlated(ports, CatalogueOf(source)), CatalogueOf(source));
      Correlated(twice, CatalogueOf(source)) == twice
  {
    hide Correlated, CatalogueOf;
    ItDrawsItsOwn(source);
    CorrelatingTwiceSettles(ports, CatalogueOf(source));
  }

  /** Below the ceiling one port is settled the first time exactly where no observation lends anything. */
  lemma APortSettlesAtOnceExactlyWhere(held: Findings, source: Source, services: Services, key: Key)
    requires Keyed(held)
    requires HasRoom(Without(held, source.stamp.id), CatalogueOf(source).judge(services, key).findings)
    ensures var (id, drawn) := (source.stamp.id, CatalogueOf(source).judge(services, key).findings);
      && (forall claim | Replacement.Collides(held, id, drawn, claim) :: Accounts(drawn, claim) != [])
      && (Replaced(Replaced(held, id, drawn), id, drawn) == Replaced(held, id, drawn) <==>
            forall claim | Replacement.Collides(held, id, drawn, claim) ::
              LendsNothing(Without(held, id)[claim], Accounts(drawn, claim), source.stamp))
  {
    hide Replaced, LendsNothing, Accounts, CatalogueOf;
    WhatIsDrawnIsStamped(source, services, key);
    var drawn := CatalogueOf(source).judge(services, key).findings;
    Replacement.OnceSettlesExactlyWhen(held, source.stamp.id, drawn, source.stamp);
  }

  /** Two findings one identifier draws never make one claim. */
  lemma OneIdentifierOneFindingAClaim(source: Source, services: Services, key: Key, cpe: string, build: Option<string>)
    ensures var drawn := OnIdentifier(source, services, key, cpe, build).findings;
      forall i, j | 0 <= i < j < |drawn| :: ClaimOf(drawn[i]) != ClaimOf(drawn[j])
  {
    hide FindingsFrom, ReferencesOf, GroupsOf, CountsOf, Kept, Matched, Classifier;
    var name := Cpe.Parse(cpe);
    if name.Some? {
      var judged := Judged(name.value, build.Some?, source.place(services, key, name.value));
      var kept := Kept(Matched(source.entries, name.value));
      var classify := Classifier(judged, kept, source.overlay);
      var from := Dataset(source.stamp.id, source.exploited);
      var all := FindingsOf(from, judged.built, GroupsOf(kept, classify), CountsOf(kept, classify));
      ClaimsDiffer(from, judged.built, VERDICTS, GroupsOf(kept, classify), Total(CountsOf(kept, classify)) > 0);
      forall i, j | 0 <= i < j < |all|
        ensures SubjectOf(name.value, source.scope(services, key, name.value), all[i].verdict)
             != SubjectOf(name.value, source.scope(services, key, name.value), all[j].verdict)
      {
        SubjectsDiffer(name.value, source.scope(services, key, name.value), all[i].verdict, all[j].verdict);
      }
      hide SubjectOf;
    }
  }

  lemma SubjectsDiffer(name: Cpe.Name, scope: string, a: Verdict, b: Verdict)
    requires a != b
    ensures SubjectOf(name, scope, a) != SubjectOf(name, scope, b)
  {
    var prefix := name.vendor + ":" + name.product + ":" + name.version + "@" + scope + "/";
    hide NameOf;
    assert SubjectOf(name, scope, a)[|prefix|..] == NameOf(a);
    assert SubjectOf(name, scope, b)[|prefix|..] == NameOf(b);
    if NameOf(a) == NameOf(b) { NamesDiffer(a, b); }
  }
}
