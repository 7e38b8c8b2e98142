/** Which of two accounts of a claim is heard, and whether it matters which was held first. */
module Corroboration {
  import opened Records

  lemma {:induction false} UnionHolds(a: seq<Reference>, b: seq<Reference>, reference: Reference)
    ensures reference in Union(a, b) <==> reference in a || reference in b
    decreases |b|
  {
    if b != [] {
      UnionHolds(if b[0] in a then a else a + [b[0]], b[1..], reference);
      assert b == [b[0]] + b[1..];
    }
  }

  /** What a claim says is the newer account's, the older filling only its gaps. */
  ghost predicate Speaks(folded: Finding, newer: Finding, older: Finding) {
    && folded.detection == newer.detection
    && folded.severity == newer.severity && folded.title == newer.title && folded.kind == newer.kind
    && folded.excerpt == (if newer.excerpt != "" then newer.excerpt else older.excerpt)
    && (newer.remediation.Some? ==> folded.remediation == newer.remediation)
    && (newer.remediation.None? ==> folded.remediation == older.remediation)
    && folded.cpes == newer.cpes + older.cpes
  }

  /** A correlation's certainty and what it cites are the newer's alone; of observations, both count. */
  ghost predicate Weighs(folded: Finding, newer: Finding, older: Finding) {
    if newer.cpes != {} && older.cpes != {} then
      && folded.confidence == newer.confidence && folded.references == newer.references
      && folded.build == newer.build && folded.advisedBy == newer.advisedBy
      && folded.exploitation == newer.exploitation
    else
      && newer.confidence <= folded.confidence && older.confidence <= folded.confidence
      && (folded.confidence == newer.confidence || folded.confidence == older.confidence)
      && forall reference :: reference in folded.references <==>
           reference in newer.references || reference in older.references
  }

  /** Of accounts of two versions, the newer speaks, whichever was held and whichever folded in. */
  lemma TheNewerSpeaks(older: Finding, newer: Finding)
    requires older.detection.version < newer.detection.version
    ensures Speaks(Corroborated(older, newer), newer, older) && Weighs(Corroborated(older, newer), newer, older)
    ensures Speaks(Corroborated(newer, older), newer, older) && Weighs(Corroborated(newer, older), newer, older)
  {
    forall reference
      ensures reference in Union(older.references, newer.references)
        <==> reference in newer.references || reference in older.references
      ensures reference in Union(newer.references, older.references)
        <==> reference in newer.references || reference in older.references
    {
      UnionHolds(older.references, newer.references, reference);
      UnionHolds(newer.references, older.references, reference);
    }
    hide Union;
  }

  /**
   * The group and the subject are the exceptions. A group only the older account carries survives
   * being held and is lost being folded in; two subjects are each kept by the account held.
   */
  lemma WhatDependsOnWhichWasHeld(older: Finding, newer: Finding)
    requires older.detection.version < newer.detection.version
    ensures Corroborated(older, newer).group == Corroborated(newer, older).group <==>
      newer.group.Some? || older.group.None?
    ensures Corroborated(older, newer).subject == Corroborated(newer, older).subject <==>
      newer.subject.None? || older.subject.None? || newer.subject == older.subject
  {
    hide Union;
  }

  /** Of accounts of one version the later speaks, under the stamp that was held. */
  lemma TheLaterReadingWins(held: Finding, later: Finding)
    requires held.detection.version == later.detection.version
    ensures var folded := Corroborated(held, later);
      && Speaks(folded.(detection := later.detection), later, held) && folded.detection == held.detection
      && Weighs(folded, later, held)
      && folded.group == (if later.group.Some? then later.group else held.group)
      && folded.subject == (if held.subject.Some? then held.subject else later.subject)
  {
    forall reference
      ensures reference in Union(held.references, later.references)
        <==> reference in later.references || reference in held.references
    {
      UnionHolds(held.references, later.references, reference);
    }
    hide Union;
  }

  /** An observation's gaps are filled and nothing it had is replaced, by any other account. */
  lemma AnObservationIsFilledIn(held: Finding, other: Finding)
    requires held.cpes == {} || other.cpes == {}
    ensures var folded := Corroborated(held, other);
      && folded.build == (if held.build.Some? then held.build else other.build)
      && folded.advisedBy == (if held.advisedBy.Some? then held.advisedBy else other.advisedBy)
      && folded.exploitation == (if held.exploitation.Some? then held.exploitation else other.exploitation)
  {
    hide Union;
  }
}
