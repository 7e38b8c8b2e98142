/** Which catalogue entries an identifier's URI joins, where a catalogue states names as formatted strings have them. */
module Joining {
  import opened Wrappers
  import opened Texts
  import opened Ranking
  import opened Cpe
  import opened Bindings
  import opened Judge
  import Predicates

  /** An entry stated under the name of `r`, in whatever case. */
  predicate IsStatedOf(v: Vulnerability, r: Release) {
    Lower(v.vendor) == Lower(Meant(r.vendor)) && Lower(v.product) == Lower(Meant(r.product))
  }

  /** Whether an identifier names an entry at all. */
  predicate Joins(v: Vulnerability, name: Option<Name>) {
    name.Some? && Names(v, name.value)
  }

  lemma LowerTwice(s: string)
    ensures Lower(Lower(s)) == Lower(s)
  {
  }

  /** By its formatted string a release joins the entries under its name whose versions it is within. */
  lemma TheFormattedJoins(v: Vulnerability, r: Release, texts: seq<string>, fields: seq<string>)
    requires IsStatedOf(v, r) && |texts| == 5 + |fields|
    requires forall i | 0 <= i < |texts| :: Writes(texts[i], (Fields(r) + fields)[i])
    ensures Joins(v, Parse(FORMATTED + Join(texts, ':')))
      <==> Predicates.Matches(Meant(r.version) + PatchLevel(Meant(r.update)), v.affected)
  {
    hide Lower, Join, FieldsFrom, Parse, Meant, PatchLevel, Writes, Predicates.Matches;
    FormattedIsRead(texts, Fields(r) + fields);
    LowerTwice(Meant(r.vendor));
    LowerTwice(Meant(r.product));
  }

  /** By its URI it joins them only where nothing in vendor and product is escaped or blank. */
  lemma TheUriJoinsExactlyWhere(v: Vulnerability, r: Release, apart: bool, more: seq<string>)
    requires IsStatedOf(v, r) && r.Valid() && forall component <- more :: ':' !in component
    ensures Joins(v, Parse(Uri(r, apart, more))) <==>
      && Plain(r.vendor) && Plain(r.product)
      && Predicates.Matches(UriText(r.version) + PatchLevel(UriText(r.update)), v.affected)
  {
    hide Lower, Parse, Trimmed, UriText, Meant, PatchLevel, Plain, Components, Uri, Predicates.Matches;
    TheUriReadsAs(r, apart, more);
    LowerTwice(UriText(r.vendor));
    LowerTwice(UriText(r.product));
    LowerTextsAgree(r.vendor);
    LowerTextsAgree(r.product);
    if Plain(r.product) {
      AProductIsKept(r, apart, more);
    }
  }

  /** A version that is not stated is one that was not learned, blank in the URI and an asterisk otherwise. */
  lemma AnUnstatedVersionMatchesAlike(affected: string)
    ensures Predicates.Matches("", affected) == Predicates.Matches("*", affected)
  {
  }

  /**
   * So a catalogue tells the two spellings of a release apart by no entry under its name, where
   * vendor and product are plain and version and patch level are plain too, or neither is stated.
   */
  lemma TheSpellingsJoinAlike(
      v: Vulnerability, r: Release, apart: bool, more: seq<string>, texts: seq<string>, fields: seq<string>)
    requires IsStatedOf(v, r) && r.Valid() && forall component <- more :: ':' !in component
    requires |texts| == 5 + |fields|
    requires forall i | 0 <= i < |texts| :: Writes(texts[i], (Fields(r) + fields)[i])
    requires Plain(r.vendor) && Plain(r.product)
    requires PlainlyNamed(r) || (r.version.Any? && PatchLevel(Meant(r.update)) == PatchLevel(UriText(r.update)) == "")
    ensures Joins(v, Parse(Uri(r, apart, more))) <==> Joins(v, Parse(FORMATTED + Join(texts, ':')))
  {
    hide Parse, Uri, Writes, Joins, IsStatedOf, Plain, Predicates.Matches, PatchLevel, UriText, Meant, WellFormed, Join;
    TheFormattedJoins(v, r, texts, fields);
    TheUriJoinsExactlyWhere(v, r, apart, more);
    if r.version.Any? {
      AnUnstatedVersionMatchesAlike(v.affected);
      AnyIsBlank();
      assert "" + "" == "" && "*" + "" == "*";
      AnyIsNotPlain();
    } else {
      VersionsAgree(r.version, r.update);
    }
  }

  /** An identifier the corpus emits joins nothing that is stated of the product it names, at any version. */
  lemma TcpIpJoinsNothing(v: Vulnerability, version: string)
    requires AllPass(version) && IsStatedOf(v, TcpIp(version))
    ensures TcpIp(version).Valid() && !Joins(v, Parse(Uri(TcpIp(version), true, [])))
    ensures Joins(v, Parse(Formatted(TcpIp(version), []))) <==> Predicates.Matches(version, v.affected)
  {
    hide Parse, Uri, Formatted, Predicates.Matches, Meant, Lower, AllPass;
    TcpIpIsTwoNames(version);
    TheProductEscapes();
    PassingNames();
    LowerTwice("treck");
  }
}
