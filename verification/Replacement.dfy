/** What replacing a catalogue's correlations does when it is done again, and beside another's. */
module Replacement {
  import opened Wrappers
  import opened Records
  import opened Lending

  // ---------- again ----------

  /** An observation of the catalogue's own detection stands where a correlation is drawn. */
  ghost predicate Collides(held: Findings, id: string, drawn: seq<Finding>, claim: Claim) {
    claim in Without(held, id) && claim in Claims(drawn)
  }

  /** What is left when a catalogue's correlations are taken out again. */
  lemma WithoutAgain(held: Findings, id: string, drawn: seq<Finding>, claim: Claim)
    requires Keyed(held) && Draws(id, drawn)
    ensures Lookup(Without(Replaced(held, id, drawn), id), claim)
      == if claim in Claims(drawn) then None else Lookup(Without(held, id), claim)
  {
    WithoutKeeps(held, id);
    AddingKeeps(Without(held, id), id, drawn, claim);
    hide AddedAll, Claims;
  }

  lemma NothingCollidesAfter(held: Findings, id: string, drawn: seq<Finding>, claim: Claim)
    requires Keyed(held) && Draws(id, drawn)
    ensures !Collides(Replaced(held, id, drawn), id, drawn, claim)
  {
    hide Replaced, Without;
    WithoutAgain(held, id, drawn, claim);
  }

  /** Where nothing collides, replacing again changes nothing, at the ceiling or below it. */
  lemma AgainChangesNothing(held: Findings, id: string, drawn: seq<Finding>)
    requires Keyed(held) && Draws(id, drawn) && forall claim :: !Collides(held, id, drawn, claim)
    ensures Replaced(Replaced(held, id, drawn), id, drawn) == Replaced(held, id, drawn)
  {
    forall claim
      ensures Lookup(Without(Replaced(held, id, drawn), id), claim) == Lookup(Without(held, id), claim)
    {
      WithoutAgain(held, id, drawn, claim);
      assert !Collides(held, id, drawn, claim);
    }
    hide Lookup;
    LooksTheSame(Without(Replaced(held, id, drawn), id), Without(held, id));
  }

  /** Whatever is held, a third time changes nothing the second did not. */
  lemma TwiceSettles(held: Findings, id: string, drawn: seq<Finding>)
    requires Keyed(held) && Draws(id, drawn)
    ensures var once := Replaced(held, id, drawn); var twice := Replaced(once, id, drawn);
      Replaced(twice, id, drawn) == twice
  {
    hide Replaced, Collides;
    var once := Replaced(held, id, drawn);
    ReplacedIsKeyed(held, id, drawn);
    forall claim
      ensures !Collides(once, id, drawn, claim)
    {
      NothingCollidesAfter(held, id, drawn, claim);
    }
    AgainChangesNothing(once, id, drawn);
  }

  lemma ReplacedIsKeyed(held: Findings, id: string, drawn: seq<Finding>)
    requires Keyed(held) && Draws(id, drawn)
    ensures Keyed(Replaced(held, id, drawn))
  {
    ReplacingKeeps(held, id, drawn, Claim("", ""));
  }

  lemma OnceSettlesWhereTheFoldsAgree(held: Findings, id: string, drawn: seq<Finding>)
    requires Keyed(held) && Draws(id, drawn) && HasRoom(Without(held, id), drawn)
    ensures Replaced(Replaced(held, id, drawn), id, drawn) == Replaced(held, id, drawn)
      <==> forall claim | Collides(held, id, drawn, claim) ::
             Folded(Lookup(Without(held, id), claim), drawn, claim) == Folded(None, drawn, claim)
  {
    var once := Replaced(held, id, drawn);
    var twice := Replaced(once, id, drawn);
    RoomAgain(held, id, drawn);
    forall claim
      ensures Lookup(once, claim) == Folded(Lookup(Without(held, id), claim), drawn, claim)
      ensures Lookup(twice, claim) ==
        if claim in Claims(drawn) then Folded(None, drawn, claim) else Lookup(once, claim)
    {
      ClaimsAreIndependent(Without(held, id), drawn, claim);
      ClaimsAreIndependent(Without(once, id), drawn, claim);
      WithoutAgain(held, id, drawn, claim);
      if claim !in Claims(drawn) {
        FoldedElsewhere(Lookup(Without(held, id), claim), drawn, claim);
      }
    }
    hide Replaced, Folded, Claims;
    if forall claim | Collides(held, id, drawn, claim) ::
        Folded(Lookup(Without(held, id), claim), drawn, claim) == Folded(None, drawn, claim) {
      forall claim
        ensures Lookup(twice, claim) == Lookup(once, claim)
      {
        assert claim in Claims(drawn) && claim !in Without(held, id) ==> Lookup(Without(held, id), claim) == None;
        assert claim in Claims(drawn) && claim in Without(held, id) ==> Collides(held, id, drawn, claim);
      }
      LooksTheSame(twice, once);
    }
  }

  /** A collision is with an observation, and folds away exactly where that lends nothing. */
  lemma ACollisionFoldsAway(held: Findings, id: string, drawn: seq<Finding>, stamp: Detection, claim: Claim)
    requires Keyed(held) && stamp.id == id && OfOneStamp(drawn, stamp) && Collides(held, id, drawn, claim)
    ensures var o := Without(held, id)[claim]; var accounts := Accounts(drawn, claim);
      && accounts != []
      && (Folded(Some(o), drawn, claim) == Folded(None, drawn, claim) <==> LendsNothing(o, accounts, stamp))
  {
    var o := Without(held, id)[claim];
    assert claim.detection == id by {
      var f :| f in drawn && ClaimOf(f) == claim;
    }
    assert !IsCorrelation(o);
    hide Folded, LendsNothing, ClaimOf;
    AccountsWereDrawn(drawn, claim);
    FoldedFromHeld(o, drawn, claim);
    FoldedFromNothing(drawn, claim);
    FoldsAwayExactlyWhere(o, Accounts(drawn, claim), stamp);
  }

  /**
   * Below the ceiling, a second time changes nothing exactly where each observation collided with
   * lends nothing: it is no newer and of no other stamp or subject, a lone account says at least
   * as much, and it fills no gap the accounts leave.
   */
  lemma OnceSettlesExactlyWhen(held: Findings, id: string, drawn: seq<Finding>, stamp: Detection)
    requires Keyed(held) && stamp.id == id && OfOneStamp(drawn, stamp) && HasRoom(Without(held, id), drawn)
    ensures forall claim | Collides(held, id, drawn, claim) :: Accounts(drawn, claim) != []
    ensures Replaced(Replaced(held, id, drawn), id, drawn) == Replaced(held, id, drawn)
      <==> forall claim | Collides(held, id, drawn, claim) ::
             LendsNothing(Without(held, id)[claim], Accounts(drawn, claim), stamp)
  {
    assert Draws(id, drawn);
    OnceSettlesWhereTheFoldsAgree(held, id, drawn);
    hide Replaced, Folded, LendsNothing, Accounts, OfOneStamp;
    forall claim | Collides(held, id, drawn, claim)
      ensures Accounts(drawn, claim) != []
      ensures Folded(Lookup(Without(held, id), claim), drawn, claim) == Folded(None, drawn, claim)
        <==> LendsNothing(Without(held, id)[claim], Accounts(drawn, claim), stamp)
    {
      ACollisionFoldsAway(held, id, drawn, stamp, claim);
    }
  }

  lemma RoomAgain(held: Findings, id: string, drawn: seq<Finding>)
    requires Keyed(held) && Draws(id, drawn) && HasRoom(Without(held, id), drawn)
    ensures HasRoom(Without(Replaced(held, id, drawn), id), drawn)
  {
    var again := Without(Replaced(held, id, drawn), id);
    forall claim <- again
      ensures claim in Without(held, id)
    {
      WithoutAgain(held, id, drawn, claim);
      assert Lookup(again, claim).Some?;
    }
    hide Without, Replaced, Claims;
    SizesFollow(again.Keys + Claims(drawn), Without(held, id).Keys + Claims(drawn));
  }

  /** A surer observation lends its confidence to the correlation once, and the next time it is gone. */
  lemma AnObservationIsSpent(id: string, observed: Finding, f: Finding)
    requires Draws(id, [f]) && !IsCorrelation(observed) && observed.detection.id == id
    requires observed.confidence > f.confidence
    ensures var claim := ClaimOf(f);
      var once := Replaced(map[claim := observed], id, [f]); var twice := Replaced(once, id, [f]);
      && Lookup(once, claim) == Some(Corroborated(observed, f))
      && Corroborated(observed, f).confidence == observed.confidence
      && Lookup(twice, claim) == Some(f) && twice != once
  {
    assert f in [f];
    var claim := ClaimOf(f);
    var held := map[claim := observed];
    assert Without(held, id) == held;
    var folded := Corroborated(observed, f);
    assert folded.confidence == observed.confidence;
    FoldingKeepsTheDetection(observed, f, id);
    hide Corroborated, ClaimOf;
    assert AddedAll(held, [f]) == map[claim := folded];
    var once := map[claim := folded];
    assert DrawnBy(id, folded);
    assert Without(once, id) == map[];
    assert AddedAll(map[], [f]) == map[claim := f];
  }

  // ---------- beside another catalogue ----------

  /** A port with everything it holds and everything two catalogues draw below the ceiling. */
  ghost predicate FitsBoth(held: Findings, a: seq<Finding>, b: seq<Finding>) {
    |held.Keys + Claims(a) + Claims(b)| <= MAX_FINDINGS
  }

  lemma {:induction false} OnlyTheseKeys(held: Findings, drawn: seq<Finding>)
    ensures AddedAll(held, drawn).Keys <= held.Keys + Claims(drawn)
    decreases |drawn|
  {
    hide Corroborated, ClaimOf;
    if drawn != [] {
      FirstAndRest(drawn);
      OnlyTheseKeys(Added(held, drawn[0]), drawn[1..]);
    }
  }

  lemma RoomBeside(held: Findings, ida: string, a: seq<Finding>, idb: string, b: seq<Finding>)
    requires FitsBoth(held, a, b)
    ensures HasRoom(Without(held, ida), a) && HasRoom(Without(Replaced(held, idb, b), ida), a)
  {
    var all := held.Keys + Claims(a) + Claims(b);
    OnlyTheseKeys(Without(held, idb), b);
    hide AddedAll, Claims;
    SizesFollow(Without(held, ida).Keys + Claims(a), all);
    SizesFollow(Without(Replaced(held, idb, b), ida).Keys + Claims(a), all);
  }

  /** What `a` draws is the same beside `b` as without it. */
  lemma DrawnBesideAnother(held: Findings, ida: string, a: seq<Finding>, idb: string, b: seq<Finding>, claim: Claim)
    requires Keyed(held) && Draws(ida, a) && Draws(idb, b) && ida != idb && FitsBoth(held, a, b)
    requires claim.detection == ida
    ensures Lookup(Replaced(Replaced(held, idb, b), ida, a), claim) == Lookup(Replaced(held, ida, a), claim)
  {
    var beside := Replaced(held, idb, b);
    RoomBeside(held, ida, a, idb, b);
    ReplacingKeeps(held, idb, b, claim);
    assert Lookup(Without(beside, ida), claim) == Lookup(Without(held, ida), claim) by {
      assert Lookup(beside, claim) == Lookup(held, claim);
    }
    ClaimsAreIndependent(Without(beside, ida), a, claim);
    ClaimsAreIndependent(Without(held, ida), a, claim);
  }

  /** Below the ceiling, the order two catalogues are joined in does not matter. */
  lemma CataloguesCommute(held: Findings, ida: string, a: seq<Finding>, idb: string, b: seq<Finding>)
    requires Keyed(held) && Draws(ida, a) && Draws(idb, b) && ida != idb && FitsBoth(held, a, b)
    ensures Replaced(Replaced(held, ida, a), idb, b) == Replaced(Replaced(held, idb, b), ida, a)
  {
    hide Replaced, Lookup;
    var (ab, ba) := (Replaced(Replaced(held, ida, a), idb, b), Replaced(Replaced(held, idb, b), ida, a));
    ReplacedIsKeyed(held, ida, a);
    ReplacedIsKeyed(held, idb, b);
    FitsEitherWay(held, a, b);
    forall claim
      ensures Lookup(ab, claim) == Lookup(ba, claim)
    {
      ReplacingKeeps(Replaced(held, ida, a), idb, b, claim);
      ReplacingKeeps(Replaced(held, idb, b), ida, a, claim);
      if claim.detection == ida {
        DrawnBesideAnother(held, ida, a, idb, b, claim);
      } else if claim.detection == idb {
        DrawnBesideAnother(held, idb, b, ida, a, claim);
      } else {
        ReplacingKeeps(held, ida, a, claim);
        ReplacingKeeps(held, idb, b, claim);
      }
    }
    LooksTheSame(ab, ba);
  }

  lemma FitsEitherWay(held: Findings, a: seq<Finding>, b: seq<Finding>)
    requires FitsBoth(held, a, b)
    ensures FitsBoth(held, b, a)
  {
    assert held.Keys + Claims(a) + Claims(b) == held.Keys + Claims(b) + Claims(a);
  }

  /** With one place left and two claims to make, the catalogue joined first has it. */
  lemma AtTheCeilingTheFirstHasIt(held: Findings, ida: string, f: Finding, idb: string, g: Finding)
    requires Draws(ida, [f]) && Draws(idb, [g]) && ida != idb
    requires |held| == 255 && ClaimOf(f) !in held && ClaimOf(g) !in held
    requires forall claim <- held :: !IsCorrelation(held[claim])
    ensures var (ab, ba) :=
        (Replaced(Replaced(held, ida, [f]), idb, [g]), Replaced(Replaced(held, idb, [g]), ida, [f]));
      ClaimOf(f) in ab && ClaimOf(g) !in ab && ClaimOf(g) in ba && ClaimOf(f) !in ba
  {
    TheFirstHasIt(held, ida, f, idb, g);
    TheFirstHasIt(held, idb, g, ida, f);
  }

  lemma TheFirstHasIt(held: Findings, ida: string, f: Finding, idb: string, g: Finding)
    requires Draws(ida, [f]) && Draws(idb, [g]) && ida != idb
    requires |held| == MAX_FINDINGS - 1 && ClaimOf(f) !in held && ClaimOf(g) !in held
    requires forall claim <- held :: !IsCorrelation(held[claim])
    ensures var ab := Replaced(Replaced(held, ida, [f]), idb, [g]); ClaimOf(f) in ab && ClaimOf(g) !in ab
  {
    assert f in [f] && g in [g];
    assert ClaimOf(f) != ClaimOf(g);
    hide ClaimOf, Corroborated;
    assert Without(held, ida) == held;
    var once := held[ClaimOf(f) := f];
    assert AddedAll(held, [f]) == once;
    assert once.Keys == held.Keys + {ClaimOf(f)};
    assert |held.Keys| == |held| && |once.Keys| == |once|;
    assert Without(once, idb) == once;
    assert AddedAll(once, [g]) == once;
  }
}
