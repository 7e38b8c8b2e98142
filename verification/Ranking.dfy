/**
 * The order matches are reported in, worst first, and what removing adjacent repeats of an
 * identifier leaves of it.
 */
module Ranking {
  import opened Wrappers
  import opened Orders
  import opened Interning

  /** An entry of a catalogue with its strings resolved. */
  type Vulnerability = DocumentEntry

  datatype Severity = Info | Low | Medium | High | Critical

  function SeverityOf(name: string): Option<Severity> {
    match name
    case "info" => Some(Info)
    case "low" => Some(Low)
    case "medium" => Some(Medium)
    case "high" => Some(High)
    case "critical" => Some(Critical)
    case _ => None
  }

  /** How bad: a severity nobody can read ranks below every one that can be. */
  function Rank(v: Vulnerability): nat {
    match SeverityOf(v.severity)
    case None => 0
    case Some(Info) => 1
    case Some(Low) => 2
    case Some(Medium) => 3
    case Some(High) => 4
    case Some(Critical) => 5
  }

  lemma RankIsTheSeverity(a: Vulnerability, b: Vulnerability)
    ensures Rank(a) == Rank(b) <==> SeverityOf(a.severity) == SeverityOf(b.severity)
    ensures Rank(a) == 0 <==> SeverityOf(a.severity).None?
  {
  }

  /** Worst first, and by identifier where two are equally bad. */
  function Before(a: Vulnerability, b: Vulnerability): Ordering {
    Then(CompareInts(Rank(b), Rank(a)), CompareText(a.cve, b.cve))
  }

  lemma BeforeFlips(a: Vulnerability, b: Vulnerability)
    ensures Before(b, a) == Flip(Before(a, b))
    ensures Before(a, b) == Equal <==> Rank(a) == Rank(b) && a.cve == b.cve
  {
    hide Rank;
    TextFlips(a.cve, b.cve);
  }

  lemma BeforeChains(a: Vulnerability, b: Vulnerability, c: Vulnerability)
    ensures Chain(Before(a, b), Before(b, c), Before(a, c))
  {
    hide Rank;
    TextChains(a.cve, b.cve, c.cve);
    ThenChains(
      CompareInts(Rank(b), Rank(a)), CompareInts(Rank(c), Rank(b)), CompareInts(Rank(c), Rank(a)),
      CompareText(a.cve, b.cve), CompareText(b.cve, c.cve), CompareText(a.cve, c.cve));
  }

  // ---------- the stable sort ----------

  function Insert(v: Vulnerability, sorted: seq<Vulnerability>): seq<Vulnerability> {
    if sorted == [] || Before(v, sorted[0]) != Greater then [v] + sorted
    else [sorted[0]] + Insert(v, sorted[1..])
  }

  function Sorted(s: seq<Vulnerability>): seq<Vulnerability> {
    if s == [] then [] else Insert(s[0], Sorted(s[1..]))
  }

  ghost predicate IsSorted(s: seq<Vulnerability>) {
    forall i, j | 0 <= i < j < |s| :: Before(s[i], s[j]) != Greater
  }

  /** The entries of `s` that compare equal to `v`, in their order. */
  function Ties(s: seq<Vulnerability>, v: Vulnerability): seq<Vulnerability> {
    if s == [] then []
    else if Before(v, s[0]) == Equal then [s[0]] + Ties(s[1..], v)
    else Ties(s[1..], v)
  }

  /** What a stable sort promises: ascending, and every class of ties as it was. */
  ghost predicate StablySorts(s: seq<Vulnerability>, t: seq<Vulnerability>) {
    IsSorted(t) && forall v :: Ties(t, v) == Ties(s, v)
  }

  lemma {:induction false} InsertIsSorted(v: Vulnerability, sorted: seq<Vulnerability>)
    requires IsSorted(sorted)
    ensures IsSorted(Insert(v, sorted))
    ensures forall w <- Insert(v, sorted) :: w == v || w in sorted
  {
    hide Before;
    if sorted != [] {
      if Before(v, sorted[0]) != Greater {
        forall w <- sorted
          ensures Before(v, w) != Greater
        {
          BeforeChains(v, sorted[0], w);
        }
      } else {
        InsertIsSorted(v, sorted[1..]);
        BeforeFlips(v, sorted[0]);
        forall w <- Insert(v, sorted[1..])
          ensures Before(sorted[0], w) != Greater
        {
        }
      }
    }
  }

  lemma {:induction false} InsertKeepsTies(v: Vulnerability, sorted: seq<Vulnerability>, w: Vulnerability)
    ensures Ties(Insert(v, sorted), w) == (if Before(w, v) == Equal then [v] else []) + Ties(sorted, w)
  {
    hide Before;
    if sorted == [] || Before(v, sorted[0]) != Greater {
      assert ([v] + sorted)[1..] == sorted;
    } else {
      var rest := Insert(v, sorted[1..]);
      assert ([sorted[0]] + rest)[1..] == rest;
      InsertKeepsTies(v, sorted[1..], w);
      BeforeChains(w, v, sorted[0]);
    }
  }

  lemma {:induction false} SortedSorts(s: seq<Vulnerability>)
    ensures StablySorts(s, Sorted(s))
  {
    hide Insert, Before;
    if s != [] {
      SortedSorts(s[1..]);
      InsertIsSorted(s[0], Sorted(s[1..]));
      forall v
        ensures Ties(Sorted(s), v) == Ties(s, v)
      {
        InsertKeepsTies(s[0], Sorted(s[1..]), v);
      }
    }
  }

  lemma TiesHold(s: seq<Vulnerability>, v: Vulnerability)
    ensures v in s ==> Ties(s, v) != []
    ensures Ties(s, v) != [] ==> Ties(s, v)[0] in s && Before(v, Ties(s, v)[0]) == Equal
    ensures v in Ties(s, v) <==> v in s
  {
    hide Before;
    BeforeFlips(v, v);
    if s != [] { TiesHold(s[1..], v); }
  }

  /** The first of a sorted sequence comes at or before all of any other with the same ties. */
  lemma HeadIsFirst(s: seq<Vulnerability>, t: seq<Vulnerability>)
    requires s != [] && IsSorted(s) && forall v :: Ties(t, v) == Ties(s, v)
    ensures t != [] && forall v <- t :: Before(s[0], v) != Greater
  {
    hide Before;
    BeforeFlips(s[0], s[0]);
    TiesHold(s, s[0]);
    TiesHold(t, s[0]);
    forall v <- t
      ensures Before(s[0], v) != Greater
    {
      TiesHold(t, v);
      TiesHold(s, v);
    }
  }

  /** One sequence answers to what a stable sort promises, so any stable sort is this one. */
  lemma {:induction false} StableSortsAgree(s: seq<Vulnerability>, t: seq<Vulnerability>)
    requires IsSorted(s) && IsSorted(t) && forall v :: Ties(t, v) == Ties(s, v)
    ensures s == t
  {
    hide Before;
    if s == [] {
      if t != [] { HeadIsFirst(t, s); }
    } else {
      HeadIsFirst(s, t);
      HeadIsFirst(t, s);
      BeforeFlips(s[0], t[0]);
      BeforeFlips(s[0], s[0]);
      assert Ties(s, s[0])[0] == s[0] && Ties(t, s[0])[0] == t[0];
      forall v
        ensures Ties(t[1..], v) == Ties(s[1..], v)
      {
        assert Ties(t, v) == Ties(s, v);
        assert Before(v, s[0]) == Equal ==> Ties(s[1..], v) == Ties(s, v)[1..] && Ties(t[1..], v) == Ties(t, v)[1..];
      }
      StableSortsAgree(s[1..], t[1..]);
    }
  }

  /** Sorting moves entries and neither adds nor loses one. */
  lemma {:induction false} SortedPermutes(s: seq<Vulnerability>)
    ensures multiset(Sorted(s)) == multiset(s)
    ensures forall v :: v in Sorted(s) <==> v in s
  {
    hide Insert;
    if s == [] {
    } else {
      SortedPermutes(s[1..]);
      InsertPermutes(s[0], Sorted(s[1..]));
      assert s == [s[0]] + s[1..];
    }
    SameMembers(Sorted(s), s);
  }

  lemma SameMembers(s: seq<Vulnerability>, t: seq<Vulnerability>)
    requires multiset(s) == multiset(t)
    ensures forall v :: v in s <==> v in t
  {
    assert forall v :: v in multiset(s) <==> v in s;
    assert forall v :: v in multiset(t) <==> v in t;
  }

  lemma {:induction false} InsertPermutes(v: Vulnerability, sorted: seq<Vulnerability>)
    ensures multiset(Insert(v, sorted)) == multiset(sorted) + multiset{v}
  {
    hide Before;
    if sorted != [] {
      InsertPermutes(v, sorted[1..]);
      assert sorted == [sorted[0]] + sorted[1..];
    }
  }

  // ---------- repeats of an identifier ----------

  /** Every entry but those right after one of the same identifier. */
  function Dedup(s: seq<Vulnerability>): seq<Vulnerability> {
    if s == [] then []
    else
      var n := |s| - 1;
      if n > 0 && s[n - 1].cve == s[n].cve then Dedup(s[..n]) else Dedup(s[..n]) + [s[n]]
  }

  function Cves(s: seq<Vulnerability>): set<string> {
    set v <- s :: v.cve
  }

  ghost predicate NoneTwice(s: seq<Vulnerability>) {
    forall i, j | 0 <= i < j < |s| :: s[i].cve != s[j].cve
  }

  /** Entries of one identifier stand together. */
  ghost predicate Together(s: seq<Vulnerability>) {
    forall i, j, k | 0 <= i < j < k < |s| && s[i].cve == s[k].cve :: s[j].cve == s[i].cve
  }

  lemma {:induction false} DedupKeepsTheIdentifiers(s: seq<Vulnerability>)
    ensures Cves(Dedup(s)) == Cves(s)
    ensures forall v <- Dedup(s) :: v in s
  {
    if s != [] {
      var n := |s| - 1;
      DedupKeepsTheIdentifiers(s[..n]);
      assert s == s[..n] + [s[n]];
      assert Cves(s) == Cves(s[..n]) + {s[n].cve};
      if n > 0 && s[n - 1].cve == s[n].cve {
        assert s[n - 1] in s[..n];
        assert s[n].cve in Cves(s[..n]);
      } else {
        assert Cves(Dedup(s[..n]) + [s[n]]) == Cves(Dedup(s[..n])) + {s[n].cve};
      }
    }
  }

  lemma TogetherOneMore(s: seq<Vulnerability>)
    requires s != []
    ensures Together(s) <==>
      Together(s[..|s| - 1])
      && (|s| > 1 && s[|s| - 2].cve != s[|s| - 1].cve ==> s[|s| - 1].cve !in Cves(s[..|s| - 1]))
  {
    var n := |s| - 1;
    var p := s[..n];
    if Together(s) && n > 0 && s[n - 1].cve != s[n].cve {
      forall v <- p
        ensures v.cve != s[n].cve
      {
        var i :| 0 <= i < n && s[i] == v;
        assert i < n - 1 ==> s[n - 1].cve == s[i].cve || s[i].cve != s[n].cve;
      }
    }
    if Together(p) && (n > 0 && s[n - 1].cve != s[n].cve ==> s[n].cve !in Cves(p)) {
      forall i, j, k | 0 <= i < j < k < |s| && s[i].cve == s[k].cve
        ensures s[j].cve == s[i].cve
      {
        if k == n {
          assert p[i] in p;
          assert j < n - 1 ==> p[i].cve == p[n - 1].cve ==> p[j].cve == p[i].cve;
        } else {
          assert p[i].cve == p[k].cve;
          assert p[j].cve == p[i].cve;
        }
      }
    }
  }

  lemma {:induction false} DedupIsDistinctWhereTogether(s: seq<Vulnerability>)
    ensures NoneTwice(Dedup(s)) <==> Together(s)
  {
    if s != [] {
      var n := |s| - 1;
      var p := s[..n];
      DedupIsDistinctWhereTogether(p);
      TogetherOneMore(s);
      hide Together;
      DedupKeepsTheIdentifiers(p);
      if !(n > 0 && s[n - 1].cve == s[n].cve) {
        NoneTwiceOneMore(Dedup(p), s[n]);
      }
    }
  }

  lemma NoneTwiceOneMore(s: seq<Vulnerability>, v: Vulnerability)
    ensures NoneTwice(s + [v]) <==> NoneTwice(s) && v.cve !in Cves(s)
  {
    var t := s + [v];
    if NoneTwice(t) {
      forall w <- s
        ensures w.cve != v.cve
      {
        var i :| 0 <= i < |s| && s[i] == w;
        assert t[i].cve != t[|s|].cve;
      }
      forall i, j | 0 <= i < j < |s|
        ensures s[i].cve != s[j].cve
      {
        assert t[i].cve != t[j].cve;
      }
    }
  }

  /** As many entries as identifiers, exactly where no identifier is there twice. */
  lemma {:induction false} AsManyAsIdentifiers(s: seq<Vulnerability>)
    ensures |Cves(s)| <= |s|
    ensures |s| == |Cves(s)| <==> NoneTwice(s)
  {
    if s == [] {
      assert Cves(s) == {};
    } else {
      var n := |s| - 1;
      AsManyAsIdentifiers(s[..n]);
      assert s == s[..n] + [s[n]];
      assert Cves(s) == Cves(s[..n]) + {s[n].cve};
      NoneTwiceOneMore(s[..n], s[n]);
    }
  }

  // ---------- a match counted once ----------

  /** Matches as they are reported. */
  function Kept(matched: seq<Vulnerability>): seq<Vulnerability> {
    Dedup(Sorted(matched))
  }

  /** One identifier stated at two severities, and another vulnerability ranked between the two. */
  ghost predicate Interleaved(matched: seq<Vulnerability>, a: Vulnerability, b: Vulnerability, c: Vulnerability) {
    && a in matched && b in matched && c in matched
    && a.cve == c.cve != b.cve
    && Before(a, b) == Less && Before(b, c) == Less
  }

  ghost predicate NothingInterleaves(matched: seq<Vulnerability>) {
    forall a, b, c :: !Interleaved(matched, a, b, c)
  }

  lemma SortedIsTogether(matched: seq<Vulnerability>)
    requires NothingInterleaves(matched)
    ensures Together(Sorted(matched))
  {
    hide Sorted, Before;
    var s := Sorted(matched);
    SortedSorts(matched);
    SortedPermutes(matched);
    forall i, j, k | 0 <= i < j < k < |s| && s[i].cve == s[k].cve
      ensures s[j].cve == s[i].cve
    {
      BeforeFlips(s[i], s[j]);
      BeforeFlips(s[j], s[k]);
      assert s[i] in matched && s[j] in matched && s[k] in matched;
      assert !Interleaved(matched, s[i], s[j], s[k]);
    }
  }

  lemma PlacesFollowTheOrder(s: seq<Vulnerability>, i: nat, j: nat)
    requires IsSorted(s) && i < |s| && j < |s| && Before(s[i], s[j]) == Less
    ensures i < j
  {
    BeforeFlips(s[i], s[j]);
    BeforeFlips(s[i], s[i]);
    hide Before;
  }

  lemma TogetherInterleavesNothing(matched: seq<Vulnerability>)
    requires Together(Sorted(matched))
    ensures NothingInterleaves(matched)
  {
    hide Sorted, Before, IsSorted;
    var s := Sorted(matched);
    SortedSorts(matched);
    SortedPermutes(matched);
    forall a, b, c
      ensures !Interleaved(matched, a, b, c)
    {
      if Interleaved(matched, a, b, c) {
        assert a in s && b in s && c in s;
        var i :| 0 <= i < |s| && s[i] == a;
        var j :| 0 <= j < |s| && s[j] == b;
        var k :| 0 <= k < |s| && s[k] == c;
        PlacesFollowTheOrder(s, i, j);
        PlacesFollowTheOrder(s, j, k);
        assert false;
      }
    }
  }

  /**
   * Each matched identifier is reported once exactly where nothing interleaves. Entries sharing
   * an identifier and a severity never interleave; ones that disagree about it may.
   */
  lemma CountedOnceExactlyWhereNothingInterleaves(matched: seq<Vulnerability>)
    ensures Cves(Kept(matched)) == Cves(matched)
    ensures NoneTwice(Kept(matched)) <==> NothingInterleaves(matched)
    ensures |Kept(matched)| == |Cves(matched)| <==> NothingInterleaves(matched)
  {
    hide Sorted, Dedup, Interleaved;
    var s := Sorted(matched);
    SortedPermutes(matched);
    assert Cves(s) == Cves(matched);
    DedupKeepsTheIdentifiers(s);
    DedupIsDistinctWhereTogether(s);
    AsManyAsIdentifiers(Dedup(s));
    if Together(s) { TogetherInterleavesNothing(matched); }
    if NothingInterleaves(matched) { SortedIsTogether(matched); }
  }

  lemma OneSeverityEach(matched: seq<Vulnerability>)
    requires forall a, b | a in matched && b in matched && a.cve == b.cve ::
      SeverityOf(a.severity) == SeverityOf(b.severity)
    ensures NothingInterleaves(matched)
  {
    hide Before;
    forall a, b, c
      ensures !Interleaved(matched, a, b, c)
    {
      RankIsTheSeverity(a, c);
      BeforeFlips(a, c);
      BeforeChains(a, b, c);
    }
  }

  /** Two statements of one identifier, critical and low, about a high one: more entries than identifiers. */
  lemma OneIdentifierIsCountedTwice(low: Vulnerability, high: Vulnerability, critical: Vulnerability)
    requires low.cve == critical.cve != high.cve
    requires low.severity == "low" && high.severity == "high" && critical.severity == "critical"
    ensures var matched := [low, high, critical]; |Kept(matched)| > |Cves(matched)|
  {
    hide Kept, Cves, NoneTwice;
    var matched := [low, high, critical];
    assert low in matched && high in matched && critical in matched by {
      assert matched[0] == low && matched[1] == high && matched[2] == critical;
    }
    assert Rank(critical) == 5 && Rank(high) == 4 && Rank(low) == 2;
    assert Interleaved(matched, critical, high, low);
    CountedOnceExactlyWhereNothingInterleaves(matched);
    AsManyAsIdentifiers(Kept(matched));
  }

  // ---------- what survives ----------

  /** Removing repeats keeps the order. */
  lemma {:induction false} DedupKeepsOrder(s: seq<Vulnerability>)
    requires IsSorted(s)
    ensures IsSorted(Dedup(s))
  {
    hide Before;
    if s != [] {
      var n := |s| - 1;
      DedupKeepsOrder(s[..n]);
      DedupKeepsTheIdentifiers(s[..n]);
      forall v <- s[..n]
        ensures Before(v, s[n]) != Greater
      {
      }
    }
  }

  lemma {:induction false} DedupKeepsTheFirst(s: seq<Vulnerability>, i: nat)
    requires IsSorted(s) && i < |s|
    ensures exists v <- Dedup(s) :: v.cve == s[i].cve && Before(v, s[i]) != Greater
  {
    hide Before;
    var n := |s| - 1;
    if i < n {
      DedupKeepsTheFirst(s[..n], i);
    } else if n > 0 && s[n - 1].cve == s[n].cve {
      DedupKeepsTheFirst(s[..n], n - 1);
      var v :| v in Dedup(s[..n]) && v.cve == s[n - 1].cve && Before(v, s[n - 1]) != Greater;
      BeforeChains(v, s[n - 1], s[n]);
      assert Before(v, s[n]) != Greater;
    } else {
      BeforeFlips(s[n], s[n]);
      assert s[n] in Dedup(s);
    }
  }

  lemma KeptIsSorted(matched: seq<Vulnerability>)
    ensures IsSorted(Kept(matched))
  {
    hide Sorted, Dedup, IsSorted;
    SortedSorts(matched);
    DedupKeepsOrder(Sorted(matched));
  }

  /** What is kept is worst first, and every match is kept at its worst statement or a worse one. */
  lemma TheWorstIsKept(matched: seq<Vulnerability>, v: Vulnerability)
    requires v in matched
    ensures IsSorted(Kept(matched))
    ensures exists w <- Kept(matched) :: w.cve == v.cve && Rank(w) >= Rank(v)
  {
    hide Sorted, Dedup, Rank;
    var s := Sorted(matched);
    SortedSorts(matched);
    SortedPermutes(matched);
    DedupKeepsOrder(s);
    assert v in s;
    var i :| 0 <= i < |s| && s[i] == v;
    DedupKeepsTheFirst(s, i);
  }
}
