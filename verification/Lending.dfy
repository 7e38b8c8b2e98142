/**
 * What an observation lends to a correlation that takes its claim over: nothing, exactly where
 * its fields say so.
 */
module Lending {
  import opened Wrappers
  import opened Records

  /** The accounts of one claim among what is drawn. */
  function Accounts(drawn: seq<Finding>, claim: Claim): seq<Finding> {
    if drawn == [] then []
    else (if ClaimOf(drawn[0]) == claim then [drawn[0]] else []) + Accounts(drawn[1..], claim)
  }

  function FoldedAll(held: Finding, accounts: seq<Finding>): Finding
    decreases |accounts|
  {
    if accounts == [] then held else FoldedAll(Corroborated(held, accounts[0]), accounts[1..])
  }

  lemma {:induction false} FoldedFromHeld(held: Finding, drawn: seq<Finding>, claim: Claim)
    ensures Folded(Some(held), drawn, claim) == Some(FoldedAll(held, Accounts(drawn, claim)))
    decreases |drawn|
  {
    hide Corroborated, ClaimOf;
    if drawn != [] {
      var rest := Accounts(drawn[1..], claim);
      if ClaimOf(drawn[0]) == claim {
        FoldedFromHeld(Corroborated(held, drawn[0]), drawn[1..], claim);
        assert ([drawn[0]] + rest)[1..] == rest;
      } else {
        FoldedFromHeld(held, drawn[1..], claim);
        assert [] + rest == rest;
      }
    }
  }

  lemma {:induction false} FoldedFromNothing(drawn: seq<Finding>, claim: Claim)
    requires claim in Claims(drawn)
    ensures var accounts := Accounts(drawn, claim);
      accounts != [] && Folded(None, drawn, claim) == Some(FoldedAll(accounts[0], accounts[1..]))
    decreases |drawn|
  {
    hide Corroborated, ClaimOf;
    FirstAndRest(drawn);
    var rest := Accounts(drawn[1..], claim);
    if ClaimOf(drawn[0]) == claim {
      FoldedFromHeld(drawn[0], drawn[1..], claim);
      assert ([drawn[0]] + rest)[1..] == rest;
    } else {
      FoldedFromNothing(drawn[1..], claim);
      assert [] + rest == rest;
    }
  }

  lemma {:induction false} AccountsWereDrawn(drawn: seq<Finding>, claim: Claim)
    ensures forall f <- Accounts(drawn, claim) :: f in drawn && ClaimOf(f) == claim
  {
    hide ClaimOf;
    if drawn != [] { AccountsWereDrawn(drawn[1..], claim); }
  }

  // ---------- one stamp ----------

  ghost predicate NoRepeats(references: seq<Reference>) {
    forall i, j | 0 <= i < j < |references| :: references[i] != references[j]
  }

  /** One catalogue's: all of one stamp, resting on identifiers, naming their subjects, citing nothing twice. */
  ghost predicate OfOneStamp(drawn: seq<Finding>, stamp: Detection) {
    forall f <- drawn :: f.detection == stamp && IsCorrelation(f) && f.subject.Some? && NoRepeats(f.references)
  }

  lemma {:induction false} UnionExtends(a: seq<Reference>, b: seq<Reference>)
    ensures a <= Union(a, b)
    decreases |b|
  {
    if b != [] { UnionExtends(if b[0] in a then a else a + [b[0]], b[1..]); }
  }

  lemma {:induction false} UnionOfFresh(a: seq<Reference>, b: seq<Reference>)
    requires NoRepeats(b) && forall x <- b :: x !in a
    ensures Union(a, b) == a + b
    decreases |b|
  {
    if b != [] {
      assert b[0] in b;
      UnionOfFresh(a + [b[0]], b[1..]);
      assert a + [b[0]] + b[1..] == a + b;
    } else {
      assert a + b == a;
    }
  }

  lemma {:induction false} UnionOfItsOwn(a: seq<Reference>, b: seq<Reference>, c: seq<Reference>)
    requires forall x <- b :: x in a
    ensures Union(a, b + c) == Union(a, c)
    decreases |b|
  {
    if b == [] {
      assert b + c == c;
    } else {
      assert b[0] in b && (b + c)[1..] == b[1..] + c;
      UnionOfItsOwn(a, b[1..], c);
    }
  }

  /** Adding what one cites to what the other does gives the other exactly where the one's lead it. */
  lemma UnionIsTheSecond(a: seq<Reference>, b: seq<Reference>)
    requires NoRepeats(b)
    ensures Union(a, b) == b <==> a <= b
  {
    UnionExtends(a, b);
    if a <= b {
      var rest := b[|a|..];
      assert b == a + rest;
      UnionOfItsOwn(a, a, rest);
      assert NoRepeats(rest) by { assert forall i | 0 <= i < |rest| :: rest[i] == b[|a| + i]; }
      forall x <- rest
        ensures x !in a
      {
        var i :| 0 <= i < |rest| && rest[i] == x;
        assert b[|a| + i] == x;
      }
      UnionOfFresh(a, rest);
    }
  }

  // ---------- two accounts folded alike ----------

  ghost predicate NoExcerpt(accounts: seq<Finding>) {
    forall f <- accounts :: f.excerpt == ""
  }

  ghost predicate NoRemediation(accounts: seq<Finding>) {
    forall f <- accounts :: f.remediation.None?
  }

  ghost predicate NoGroup(accounts: seq<Finding>) {
    forall f <- accounts :: f.group.None?
  }

  lemma NoneOfMore(f: Finding, rest: seq<Finding>)
    ensures NoExcerpt([f] + rest) <==> f.excerpt == "" && NoExcerpt(rest)
    ensures NoRemediation([f] + rest) <==> f.remediation.None? && NoRemediation(rest)
    ensures NoGroup([f] + rest) <==> f.group.None? && NoGroup(rest)
  {
    var all := [f] + rest;
    assert all[0] == f && f in all && (forall x <- rest :: x in all) && (forall x <- all :: x == f || x in rest);
  }

  /** What later accounts leave of a first: each of these only where they do not supply it themselves. */
  ghost predicate EndAlike(g: Finding, h: Finding, rest: seq<Finding>) {
    && g.detection == h.detection && g.subject == h.subject
    && (rest == [] ==>
          && g.confidence == h.confidence && g.references == h.references && g.build == h.build
          && g.advisedBy == h.advisedBy && g.exploitation == h.exploitation)
    && (NoExcerpt(rest) ==> g.excerpt == h.excerpt)
    && (NoRemediation(rest) ==> g.remediation == h.remediation)
    && (NoGroup(rest) ==> g.group == h.group)
  }

  /** Two correlations of one version that differ in no more than what lasts. */
  ghost predicate Comparable(g: Finding, h: Finding, stamp: Detection) {
    && IsCorrelation(g) && g.cpes == h.cpes && g.subject.Some? && h.subject.Some?
    && g.detection.version == h.detection.version == stamp.version
    && g.severity == h.severity && g.title == h.title && g.kind == h.kind
  }

  lemma OneMoreAccount(g: Finding, h: Finding, f: Finding, rest: seq<Finding>, stamp: Detection)
    requires Comparable(g, h, stamp) && f.detection == stamp && IsCorrelation(f)
    ensures Comparable(Corroborated(g, f), Corroborated(h, f), stamp)
    ensures EndAlike(g, h, [f] + rest) <==> EndAlike(Corroborated(g, f), Corroborated(h, f), rest)
  {
    NoneOfMore(f, rest);
    hide NoExcerpt, NoRemediation, NoGroup, Union;
  }

  lemma {:induction false} FoldedAlikeExactlyWhen(g: Finding, h: Finding, rest: seq<Finding>, stamp: Detection)
    requires Comparable(g, h, stamp) && OfOneStamp(rest, stamp)
    ensures FoldedAll(g, rest) == FoldedAll(h, rest) <==> EndAlike(g, h, rest)
    decreases |rest|
  {
    if rest != [] {
      hide Corroborated, EndAlike, Comparable;
      assert rest[0] in rest && [rest[0]] + rest[1..] == rest;
      OneMoreAccount(g, h, rest[0], rest[1..], stamp);
      FoldedAlikeExactlyWhen(Corroborated(g, rest[0]), Corroborated(h, rest[0]), rest[1..], stamp);
    }
  }

  lemma {:induction false} TheNewerStampStays(g: Finding, rest: seq<Finding>, stamp: Detection)
    requires OfOneStamp(rest, stamp) && stamp.version <= g.detection.version
    ensures FoldedAll(g, rest).detection == g.detection
    decreases |rest|
  {
    if rest != [] {
      assert rest[0] in rest;
      TheNewerStampStays(Corroborated(g, rest[0]), rest[1..], stamp);
    }
  }

  // ---------- what an observation lends ----------

  /** What one account says already, of everything a later one would have said afresh. */
  ghost predicate SaysAsMuch(f: Finding, o: Finding) {
    && o.confidence <= f.confidence && o.references <= f.references
    && (o.build.None? || o.build == f.build) && (o.advisedBy.None? || o.advisedBy == f.advisedBy)
    && (o.exploitation.None? || o.exploitation == f.exploitation)
  }

  /**
   * An observation that leaves no mark on the accounts that take its claim over: it is older or of
   * their stamp, it names no other subject, a lone account says as much, and of what only fills a
   * gap it has none or one of them does.
   */
  ghost predicate LendsNothing(o: Finding, accounts: seq<Finding>, stamp: Detection)
    requires accounts != []
  {
    && (o.detection.version < stamp.version || o.detection == stamp)
    && (o.subject.None? || o.subject == accounts[0].subject)
    && (|accounts| == 1 ==> SaysAsMuch(accounts[0], o))
    && (NoExcerpt(accounts) ==> o.excerpt == "")
    && (NoRemediation(accounts) ==> o.remediation.None?)
    && (NoGroup(accounts) ==> o.group.None?)
  }

  lemma TakenOver(o: Finding, f: Finding, rest: seq<Finding>, stamp: Detection)
    requires !IsCorrelation(o) && OfOneStamp([f] + rest, stamp) && o.detection.version <= stamp.version
    ensures Comparable(Corroborated(o, f), f, stamp)
    ensures EndAlike(Corroborated(o, f), f, rest) <==> LendsNothing(o, [f] + rest, stamp)
  {
    assert ([f] + rest)[0] in [f] + rest;
    UnionIsTheSecond(o.references, f.references);
    NoneOfMore(f, rest);
    hide Union, NoRepeats, NoExcerpt, NoRemediation, NoGroup;
  }

  /** An observation folds away into the accounts of its claim exactly where it lends nothing. */
  lemma FoldsAwayExactlyWhere(o: Finding, accounts: seq<Finding>, stamp: Detection)
    requires accounts != [] && OfOneStamp(accounts, stamp) && !IsCorrelation(o)
    ensures FoldedAll(o, accounts) == FoldedAll(accounts[0], accounts[1..]) <==> LendsNothing(o, accounts, stamp)
  {
    var (f, rest) := (accounts[0], accounts[1..]);
    assert f in accounts && accounts == [f] + rest;
    if stamp.version < o.detection.version {
      TheNewerStampStays(o, accounts, stamp);
      TheNewerStampStays(f, rest, stamp);
    } else {
      hide Corroborated, LendsNothing, EndAlike, Comparable;
      TakenOver(o, f, rest, stamp);
      FoldedAlikeExactlyWhen(Corroborated(o, f), f, rest, stamp);
    }
  }
}
