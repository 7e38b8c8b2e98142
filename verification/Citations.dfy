/**
 * The identifiers a finding cites: those a list of exploited vulnerabilities names first, then
 * the rest, each in the group's order and once.
 */
module Citations {
  import opened Wrappers
  import opened Digits
  import opened Texts

  // ---------- sifting ----------

  function Only<T>(s: seq<T>, p: T -> bool): seq<T> {
    if s == [] then []
    else
      var n := |s| - 1;
      if p(s[n]) then Only(s[..n], p) + [s[n]] else Only(s[..n], p)
  }

  function Others<T>(s: seq<T>, p: T -> bool): seq<T> {
    if s == [] then []
    else
      var n := |s| - 1;
      if p(s[n]) then Others(s[..n], p) else Others(s[..n], p) + [s[n]]
  }

  /** Those that satisfy `p`, each where it first stands. */
  function Uniques<T(==)>(s: seq<T>, p: T -> bool): seq<T> {
    if s == [] then []
    else
      var n := |s| - 1;
      var before := Uniques(s[..n], p);
      if p(s[n]) && s[n] !in before then before + [s[n]] else before
  }

  lemma {:induction false} OnlyHolds<T>(s: seq<T>, p: T -> bool, x: T)
    ensures x in Only(s, p) <==> x in s && p(x)
    ensures x in Others(s, p) <==> x in s && !p(x)
  {
    if s != [] {
      OnlyHolds(s[..|s| - 1], p, x);
      assert s == s[..|s| - 1] + [s[|s| - 1]];
    }
  }

  lemma {:induction false} UniquesHold<T>(s: seq<T>, p: T -> bool, x: T)
    ensures x in Uniques(s, p) <==> x in s && p(x)
  {
    if s != [] {
      UniquesHold(s[..|s| - 1], p, x);
      assert s == s[..|s| - 1] + [s[|s| - 1]];
    }
  }

  lemma {:induction false} UniquesAreDistinct<T>(s: seq<T>, p: T -> bool)
    ensures forall i, j | 0 <= i < j < |Uniques(s, p)| :: Uniques(s, p)[i] != Uniques(s, p)[j]
  {
    if s != [] { UniquesAreDistinct(s[..|s| - 1], p); }
  }

  lemma UniquesOneMore<T>(s: seq<T>, x: T, p: T -> bool)
    ensures var before := Uniques(s, p);
      Uniques(s + [x], p) == if p(x) && x !in before then before + [x] else before
  {
    assert (s + [x])[..|s|] == s;
  }

  lemma SiftedOneMore<T>(s: seq<T>, x: T, q: T -> bool)
    ensures Only(s + [x], q) == if q(x) then Only(s, q) + [x] else Only(s, q)
    ensures Others(s + [x], q) == if q(x) then Others(s, q) else Others(s, q) + [x]
  {
    assert (s + [x])[..|s|] == s;
  }

  /** Sifting before repeats are dropped is sifting after. */
  lemma {:induction false} UniquesOfSome<T>(s: seq<T>, p: T -> bool, q: T -> bool)
    ensures Uniques(Only(s, q), p) == Only(Uniques(s, p), q)
    ensures Uniques(Others(s, q), p) == Others(Uniques(s, p), q)
  {
    if s != [] {
      var n := |s| - 1;
      var x := s[n];
      UniquesOfSome(s[..n], p, q);
      UniquesOneMore(Only(s[..n], q), x, p);
      UniquesOneMore(Others(s[..n], q), x, p);
      SiftedOneMore(Uniques(s[..n], p), x, q);
      OnlyHolds(Uniques(s[..n], p), q, x);
    }
  }

  lemma {:induction false} UniquesOfBoth<T>(s: seq<T>, t: seq<T>, p: T -> bool)
    requires forall x <- t :: x !in s
    ensures Uniques(s + t, p) == Uniques(s, p) + Uniques(t, p)
  {
    if t == [] {
      assert s + t == s;
    } else {
      var n := |t| - 1;
      UniquesOfBoth(s, t[..n], p);
      assert s + t == (s + t[..n]) + [t[n]];
      UniquesOneMore(s + t[..n], t[n], p);
      assert t[n] in t;
      UniquesHold(s, p, t[n]);
    }
  }

  lemma {:induction false} SiftedAlike<T>(s: seq<T>, p: T -> bool, q: T -> bool)
    requires forall x <- s :: p(x) == q(x)
    ensures Only(s, p) == Only(s, q) && Others(s, p) == Others(s, q)
  {
    if s != [] {
      SiftedAlike(s[..|s| - 1], p, q);
      assert s[|s| - 1] in s;
    }
  }

  lemma {:induction false} BothHalves<T>(s: seq<T>, p: T -> bool)
    ensures multiset(Only(s, p)) + multiset(Others(s, p)) == multiset(s)
  {
    if s != [] {
      BothHalves(s[..|s| - 1], p);
      assert s == s[..|s| - 1] + [s[|s| - 1]];
    }
  }

  // ---------- citing ----------

  /** `CVE-`, four digits, a dash, and digits. */
  predicate IsCveShaped(id: string) {
    && "CVE-" <= id
    && var rest := id[4..];
       Find(rest, c => c == '-') == 4 < |rest|
       && AllDigits(rest[..4]) && rest[5..] != [] && AllDigits(rest[5..])
  }

  ghost predicate IsWritten(id: string, year: string, number: string) {
    |year| == 4 && AllDigits(year) && IsRun(number) && id == "CVE-" + year + "-" + number
  }

  /** An identifier is `CVE-`, a year of four digits, a hyphen and a number, and nothing else is one. */
  lemma ShapedExactlyWhere(id: string)
    ensures IsCveShaped(id) <==> exists year, number :: IsWritten(id, year, number)
  {
    if IsCveShaped(id) {
      var rest := id[4..];
      var (year, number) := (rest[..4], rest[5..]);
      assert rest[4] == '-' && rest == year + "-" + number;
      assert id == "CVE-" + rest;
      assert IsWritten(id, year, number);
    }
    if year, number :| IsWritten(id, year, number) {
      ShapedAsWritten(year, number);
    }
  }

  lemma ShapedAsWritten(year: string, number: string)
    requires |year| == 4 && AllDigits(year) && IsRun(number)
    ensures IsCveShaped("CVE-" + year + "-" + number)
  {
    var rest := year + "-" + number;
    assert "CVE-" + year + "-" + number == "CVE-" + rest && ("CVE-" + rest)[4..] == rest;
    assert rest[4] == '-' && forall j | 0 <= j < 4 :: rest[j] == year[j] && IsDigit(year[j]);
    assert Find(rest, c => c == '-') == 4;
    assert rest[..4] == year && rest[5..] == number;
  }

  /** A list of vulnerabilities known to be exploited. */
  datatype KnownExploited = KnownExploited(id: string, cves: set<string>)

  /** Repeats and what is not shaped like an identifier are left out, as they arrive. */
  method KeepFirsts(ids: seq<string>) returns (kept: seq<string>)
    ensures kept == Uniques(ids, IsCveShaped)
  {
    hide IsCveShaped;
    kept := [];
    for i := 0 to |ids|
      invariant kept == Uniques(ids[..i], IsCveShaped)
    {
      assert ids[..i + 1][..i] == ids[..i];
      if IsCveShaped(ids[i]) && ids[i] !in kept {
        kept := kept + [ids[i]];
      }
    }
    assert ids[..|ids|] == ids;
  }

  /** Whether a list names an identifier; one with no name of its own marks nothing. */
  predicate IsListed(list: Option<KnownExploited>, id: string) {
    list.Some? && Trim(list.value.id) != "" && id in list.value.cves
  }

  /** Those a list names, and nothing where it names none. */
  function Marked(list: Option<KnownExploited>, ids: seq<string>): seq<string> {
    Uniques(Only(ids, id => IsListed(list, id)), IsCveShaped)
  }

  function Cited(ids: seq<string>, marked: seq<string>): seq<string> {
    Uniques(Only(ids, id => id in marked) + Others(ids, id => id in marked), IsCveShaped)
  }

  /** What a finding cites where no list is consulted: every well-shaped identifier, in order. */
  lemma {:induction false} UnmarkedCitesInOrder(ids: seq<string>)
    ensures Cited(ids, []) == Uniques(ids, IsCveShaped)
  {
    hide IsCveShaped;
    NoneOnly(ids, id => id in []);
    assert [] + ids == ids;
  }

  lemma {:induction false} NoneOnly<T>(s: seq<T>, p: T -> bool)
    requires forall x :: !p(x)
    ensures Only(s, p) == [] && Others(s, p) == s
  {
    if s != [] { NoneOnly(s[..|s| - 1], p); }
  }

  /**
   * With a list, a finding cites what it cites without one: the listed first, in the order they
   * had, then the others in theirs.
   */
  lemma ListedComeFirst(ids: seq<string>, list: Option<KnownExploited>)
    ensures var (without, with) := (Cited(ids, []), Cited(ids, Marked(list, ids)));
      && with == Only(without, id => IsListed(list, id)) + Others(without, id => IsListed(list, id))
      && multiset(with) == multiset(without)
  {
    hide IsCveShaped, IsListed;
    UnmarkedCitesInOrder(ids);
    var unique := Uniques(ids, IsCveShaped);
    var marked := Marked(list, ids);
    var listed, inMarked := (id: string) => IsListed(list, id), (id: string) => id in marked;
    UniquesOfSome(ids, IsCveShaped, inMarked);
    var some, rest := Only(ids, inMarked), Others(ids, inMarked);
    forall id <- rest
      ensures id !in some
    {
      OnlyHolds(ids, inMarked, id);
    }
    UniquesOfBoth(some, rest, IsCveShaped);
    forall id <- unique
      ensures id in marked <==> IsListed(list, id)
    {
      UniquesHold(ids, IsCveShaped, id);
      UniquesHold(Only(ids, listed), IsCveShaped, id);
      OnlyHolds(ids, listed, id);
    }
    SiftedAlike(unique, inMarked, listed);
    BothHalves(unique, listed);
  }
}
