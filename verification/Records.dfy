/**
 * The findings a port holds, by claim: adding one, folding a second account of one, and
 * replacing what a catalogue drew.
 */
module Records {
  import opened Wrappers
  import Orders

  /** The most distinct findings one port retains. */
  const MAX_FINDINGS := 256

  /** Who asserts a finding; versions are by their place in the order of versions. */
  datatype Detection = Detection(id: string, version: nat, hash: string)

  datatype Claim = Claim(detection: string, subject: string)

  datatype Reference = Cve(id: string) | Cwe(number: nat) | Url(url: string)

  /** Severities, confidences and classes by their place in their order. */
  datatype Finding = Finding(
    detection: Detection, title: string, severity: nat, confidence: nat, kind: nat, excerpt: string,
    references: seq<Reference>, remediation: Option<string>, cpes: set<string>, subject: Option<string>,
    build: Option<string>, advisedBy: Option<Detection>, exploitation: Option<seq<string>>, group: Option<string>)

  /** A correlation rests on a platform identifier. */
  predicate IsCorrelation(f: Finding) {
    f.cpes != {}
  }

  function Or<T>(a: Option<T>, b: Option<T>): Option<T> {
    if a.Some? then a else b
  }

  /** The references of `a`, and those of `b` it lacks, as they come. */
  function Union(a: seq<Reference>, b: seq<Reference>): seq<Reference>
    decreases |b|
  {
    if b == [] then a else Union(if b[0] in a then a else a + [b[0]], b[1..])
  }

  /** What two accounts of a claim say of how sure it is and what it cites. */
  function Weighed(mine: Finding, other: Finding, newer: bool): Finding {
    if !IsCorrelation(mine) || !IsCorrelation(other) then
      mine.(
        confidence := if mine.confidence < other.confidence then other.confidence else mine.confidence,
        references := Union(mine.references, other.references),
        build := Or(mine.build, other.build),
        advisedBy := Or(mine.advisedBy, other.advisedBy),
        exploitation := Or(mine.exploitation, other.exploitation))
    else if newer then
      mine.(
        confidence := other.confidence, references := other.references, build := other.build,
        advisedBy := other.advisedBy, exploitation := other.exploitation)
    else mine
  }

  /** Another account of the same claim folded into this one. */
  function Corroborated(mine: Finding, other: Finding): (folded: Finding) {
    var newer := other.detection.version >= mine.detection.version;
    var held := Weighed(mine, other, newer).(
      subject := Or(mine.subject, other.subject),
      cpes := mine.cpes + other.cpes);
    if newer then
      held.(
        group := Or(other.group, mine.group),
        detection := if other.detection.version > mine.detection.version then other.detection else mine.detection,
        severity := other.severity, title := other.title, kind := other.kind,
        excerpt := if other.excerpt != "" then other.excerpt else mine.excerpt,
        remediation := Or(other.remediation, mine.remediation))
    else
      held.(
        excerpt := if mine.excerpt == "" then other.excerpt else mine.excerpt,
        remediation := Or(mine.remediation, other.remediation))
  }

  /** The lowest identifier cited, in the order of text. */
  function LowestCve(references: seq<Reference>): Option<string> {
    if references == [] then None
    else
      var lowest := LowestCve(references[1..]);
      if !references[0].Cve? then lowest
      else if lowest.Some? && Orders.CompareText(lowest.value, references[0].id) == Orders.Less then lowest
      else Some(references[0].id)
  }

  /** It is cited, and none cited is lower. */
  lemma {:induction false} LowestIsLowest(references: seq<Reference>)
    ensures LowestCve(references).None? <==> forall reference <- references :: !reference.Cve?
    ensures LowestCve(references).Some? ==>
      var lowest := LowestCve(references).value;
      && Cve(lowest) in references
      && forall id | Cve(id) in references :: Orders.CompareText(lowest, id) != Orders.Greater
  {
    if references != [] {
      LowestIsLowest(references[1..]);
      assert references == [references[0]] + references[1..];
      var lowest := LowestCve(references);
      if references[0].Cve? && LowestCve(references[1..]).Some? {
        var (mine, before) := (references[0].id, LowestCve(references[1..]).value);
        Orders.TextFlips(before, mine);
        Orders.TextFlips(mine, mine);
        forall id | Cve(id) in references
          ensures Orders.CompareText(lowest.value, id) != Orders.Greater
        {
          Orders.TextChains(mine, before, id);
        }
      } else if references[0].Cve? {
        Orders.TextFlips(references[0].id, references[0].id);
      }
    }
  }

  /** A claim is known by its detection and its subject, and failing that by what it cites, and its title last. */
  lemma WhatAClaimIsKnownBy(f: Finding)
    ensures ClaimOf(f).detection == f.detection.id
    ensures f.subject.Some? ==> ClaimOf(f).subject == f.subject.value
    ensures f.subject.None? && LowestCve(f.references).Some? ==> ClaimOf(f).subject == LowestCve(f.references).value
    ensures f.subject.None? && LowestCve(f.references).None? ==> ClaimOf(f).subject == f.title
  {
  }

  /** The subject a finding names, or else the lowest identifier it cites, or else its title. */
  function ClaimOf(f: Finding): Claim {
    Claim(f.detection.id, Or(Or(f.subject, LowestCve(f.references)), Some(f.title)).value)
  }

  type Findings = map<Claim, Finding>

  function Added(held: Findings, f: Finding): Findings {
    var claim := ClaimOf(f);
    if claim in held then held[claim := Corroborated(held[claim], f)]
    else if |held| >= MAX_FINDINGS then held
    else held[claim := f]
  }

  function AddedAll(held: Findings, drawn: seq<Finding>): Findings
    decreases |drawn|
  {
    if drawn == [] then held else AddedAll(Added(held, drawn[0]), drawn[1..])
  }

  predicate DrawnBy(id: string, f: Finding) {
    IsCorrelation(f) && f.detection.id == id
  }

  function Without(held: Findings, id: string): Findings {
    map claim | claim in held && !DrawnBy(id, held[claim]) :: held[claim]
  }

  /** Everything `id` drew, replaced by what it draws now. */
  function Replaced(held: Findings, id: string, drawn: seq<Finding>): Findings {
    AddedAll(Without(held, id), drawn)
  }

  // ---------- a claim at a time ----------

  /** A finding is kept under a claim of its own detection. */
  ghost predicate Keyed(held: Findings) {
    forall claim <- held :: held[claim].detection.id == claim.detection
  }

  /** What a catalogue draws are correlations of its own that name their subjects. */
  ghost predicate Draws(id: string, drawn: seq<Finding>) {
    forall f <- drawn :: DrawnBy(id, f) && f.subject.Some?
  }

  function Claims(drawn: seq<Finding>): set<Claim> {
    set f <- drawn :: ClaimOf(f)
  }

  function Lookup(held: Findings, claim: Claim): Option<Finding> {
    if claim in held then Some(held[claim]) else None
  }

  lemma LooksTheSame(a: Findings, b: Findings)
    requires forall claim :: Lookup(a, claim) == Lookup(b, claim)
    ensures a == b
  {
    forall claim
      ensures claim in a <==> claim in b
      ensures claim in a ==> a[claim] == b[claim]
    {
      assert Lookup(a, claim) == Lookup(b, claim);
    }
    assert a.Keys == b.Keys;
  }

  /** The accounts of one claim folded in turn into what is held of it. */
  function Folded(held: Option<Finding>, drawn: seq<Finding>, claim: Claim): Option<Finding>
    decreases |drawn|
  {
    if drawn == [] then held
    else if ClaimOf(drawn[0]) != claim then Folded(held, drawn[1..], claim)
    else Folded(Some(if held.Some? then Corroborated(held.value, drawn[0]) else drawn[0]), drawn[1..], claim)
  }

  /** Nothing is turned away at the ceiling. */
  ghost predicate HasRoom(held: Findings, drawn: seq<Finding>) {
    |held.Keys + Claims(drawn)| <= MAX_FINDINGS
  }

  lemma FirstAndRest(drawn: seq<Finding>)
    requires drawn != []
    ensures Claims(drawn) == {ClaimOf(drawn[0])} + Claims(drawn[1..])
  {
    hide ClaimOf;
    assert drawn == [drawn[0]] + drawn[1..];
  }

  /** A set with room for more than it holds holds fewer than there is room for. */
  lemma OneMoreFits<T>(held: set<T>, more: set<T>, x: T, room: nat)
    requires x in more && x !in held && |held + more| <= room
    ensures |held| < room
  {
    assert held + {x} <= held + more;
    SizesFollow(held + {x}, held + more);
  }

  lemma RoomForTheRest(held: Findings, drawn: seq<Finding>)
    requires drawn != [] && HasRoom(held, drawn)
    ensures ClaimOf(drawn[0]) !in held ==> |held| < MAX_FINDINGS
    ensures HasRoom(Added(held, drawn[0]), drawn[1..])
  {
    hide Corroborated, ClaimOf, Claims;
    var claim, rest := ClaimOf(drawn[0]), Claims(drawn[1..]);
    FirstAndRest(drawn);
    if claim !in held {
      OneMoreFits(held.Keys, Claims(drawn), claim, MAX_FINDINGS);
      assert |held| == |held.Keys|;
    }
    assert Added(held, drawn[0]).Keys == held.Keys + {claim};
    assert (held.Keys + {claim}) + rest == held.Keys + ({claim} + rest);
  }

  lemma SizesFollow<T>(a: set<T>, b: set<T>)
    requires a <= b
    ensures |a| <= |b|
  {
    assert b == a + (b - a);
  }

  /** With room, each claim ends up with its own accounts folded, whatever else was added. */
  lemma {:induction false} ClaimsAreIndependent(held: Findings, drawn: seq<Finding>, claim: Claim)
    requires HasRoom(held, drawn)
    ensures Lookup(AddedAll(held, drawn), claim) == Folded(Lookup(held, claim), drawn, claim)
    decreases |drawn|
  {
    hide Corroborated, ClaimOf, HasRoom;
    if drawn != [] {
      RoomForTheRest(held, drawn);
      ClaimsAreIndependent(Added(held, drawn[0]), drawn[1..], claim);
    }
  }

  lemma {:induction false} FoldedElsewhere(held: Option<Finding>, drawn: seq<Finding>, claim: Claim)
    requires claim !in Claims(drawn)
    ensures Folded(held, drawn, claim) == held
  {
    hide Corroborated, ClaimOf;
    if drawn != [] {
      assert ClaimOf(drawn[0]) in Claims(drawn);
      assert forall f <- drawn[1..] :: ClaimOf(f) in Claims(drawn);
      FoldedElsewhere(held, drawn[1..], claim);
    }
  }

  lemma FoldingKeepsTheDetection(mine: Finding, other: Finding, id: string)
    requires mine.detection.id == id == other.detection.id
    ensures Corroborated(mine, other).detection.id == id
    ensures Corroborated(mine, other).cpes == mine.cpes + other.cpes
  {
  }

  // ---------- what adding leaves alone ----------

  /** Whatever the ceiling, a claim not drawn is as it was, and one drawn is a correlation of its detection. */
  lemma {:induction false} AddingKeeps(held: Findings, id: string, drawn: seq<Finding>, claim: Claim)
    requires Keyed(held) && Draws(id, drawn)
    ensures Keyed(AddedAll(held, drawn))
    ensures claim !in Claims(drawn) ==> Lookup(AddedAll(held, drawn), claim) == Lookup(held, claim)
    ensures claim in Claims(drawn) && claim in AddedAll(held, drawn) ==> DrawnBy(id, AddedAll(held, drawn)[claim])
    decreases |drawn|
  {
    hide Corroborated;
    if drawn != [] {
      var next := Added(held, drawn[0]);
      var first := ClaimOf(drawn[0]);
      assert drawn[0] in drawn;
      FirstAndRest(drawn);
      AddedOne(held, id, drawn[0]);
      AddingKeeps(next, id, drawn[1..], claim);
      if claim == first && claim !in Claims(drawn[1..]) && claim in next {
        assert next[claim] == Lookup(next, claim).value;
      }
    }
  }

  lemma AddedOne(held: Findings, id: string, f: Finding)
    requires Keyed(held) && DrawnBy(id, f)
    ensures Keyed(Added(held, f))
    ensures ClaimOf(f) in Added(held, f) ==> DrawnBy(id, Added(held, f)[ClaimOf(f)])
    ensures forall claim | claim != ClaimOf(f) :: Lookup(Added(held, f), claim) == Lookup(held, claim)
  {
    var claim := ClaimOf(f);
    if claim in held { FoldingKeepsTheDetection(held[claim], f, id); }
    hide Corroborated;
  }

  lemma {:induction false} TheCeilingHolds(held: Findings, drawn: seq<Finding>)
    requires |held| <= MAX_FINDINGS
    ensures |AddedAll(held, drawn)| <= MAX_FINDINGS
    decreases |drawn|
  {
    hide Corroborated, ClaimOf;
    if drawn != [] {
      var next := Added(held, drawn[0]);
      assert next.Keys == held.Keys || next.Keys == held.Keys + {ClaimOf(drawn[0])};
      assert |next| == |next.Keys| && |held| == |held.Keys|;
      TheCeilingHolds(next, drawn[1..]);
    }
  }

  lemma WithoutKeeps(held: Findings, id: string)
    requires Keyed(held)
    ensures Keyed(Without(held, id)) && Without(held, id).Keys <= held.Keys
    ensures |held| <= MAX_FINDINGS ==> |Without(held, id)| <= MAX_FINDINGS
  {
    SizesFollow(Without(held, id).Keys, held.Keys);
    assert |held| == |held.Keys| && |Without(held, id)| == |Without(held, id).Keys|;
  }

  /**
   * Replacing leaves every other detection's findings alone, and its own observations too
   * unless a correlation now makes the same claim; the ceiling holds throughout.
   */
  lemma ReplacingKeeps(held: Findings, id: string, drawn: seq<Finding>, claim: Claim)
    requires Keyed(held) && Draws(id, drawn)
    ensures Keyed(Replaced(held, id, drawn))
    ensures |held| <= MAX_FINDINGS ==> |Replaced(held, id, drawn)| <= MAX_FINDINGS
    ensures claim.detection != id ==> Lookup(Replaced(held, id, drawn), claim) == Lookup(held, claim)
    ensures claim !in Claims(drawn) ==> Lookup(Replaced(held, id, drawn), claim) == Lookup(Without(held, id), claim)
  {
    WithoutKeeps(held, id);
    AddingKeeps(Without(held, id), id, drawn, claim);
    if |held| <= MAX_FINDINGS { TheCeilingHolds(Without(held, id), drawn); }
    if claim in Claims(drawn) { ClaimsAreOwn(id, drawn, claim); }
  }

  lemma ClaimsAreOwn(id: string, drawn: seq<Finding>, claim: Claim)
    requires Draws(id, drawn) && claim in Claims(drawn)
    ensures claim.detection == id
  {
  }
}
