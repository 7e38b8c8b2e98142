/**
 * The two spellings of a platform name: the URI binding, which percent-encodes punctuation, and
 * the formatted string, which quotes it (sections 6.1 and 6.2 of NISTIR 7695). And exactly where
 * the correlator reads the two alike.
 */
module Bindings {
  import opened Wrappers
  import opened Texts
  import opened Cpe

  // ---------- names and their values ----------

  /** What a value is made of: characters that stand for themselves, and the two wildcards. */
  datatype Unit = Literal(c: char) | AnyOne | AnyRun

  /** An attribute's value: any at all, not applicable, or stated. */
  datatype Value = Any | Na | Stated(units: seq<Unit>)

  /** A stated value holds something, and nothing but printable ASCII. */
  predicate WellFormed(v: Value) {
    v.Stated? ==>
      && v.units != []
      && forall i | 0 <= i < |v.units| :: v.units[i].Literal? ==> 0x21 <= v.units[i].c as int <= 0x7E
  }

  /** The attributes the correlator reads, and the part before them. */
  datatype Release = Release(part: Value, vendor: Value, product: Value, version: Value, update: Value) {
    predicate Valid() {
      WellFormed(part) && WellFormed(vendor) && WellFormed(product) && WellFormed(version) && WellFormed(update)
    }
  }

  /** Letters, digits and the punctuation both bindings write as it is. */
  predicate Passes(c: char) {
    'a' <= c <= 'z' || 'A' <= c <= 'Z' || '0' <= c <= '9' || c == '_' || c == '-' || c == '.'
  }

  // ---------- the URI binding ----------

  function HexDigit(n: nat): char
    requires n < 16
  {
    "0123456789abcdef"[n]
  }

  function PercentEncoded(c: char): string
    requires c as int < 256
  {
    ['%', HexDigit(c as int / 16), HexDigit(c as int % 16)]
  }

  function UriUnit(u: Unit): (text: string)
    requires u.Literal? ==> u.c as int < 256
    ensures ':' !in text && '*' !in text
    ensures |text| == if Escapes(u) then 3 else 1
  {
    match u
    case Literal(c) =>
      if Passes(c) then [c]
      else
        HexIsNoPunctuation(c as int / 16);
        HexIsNoPunctuation(c as int % 16);
        PercentEncoded(c)
    case AnyOne => "%01"
    case AnyRun => "%02"
  }

  lemma HexIsNoPunctuation(n: nat)
    requires n < 16
    ensures HexDigit(n) != ':' && HexDigit(n) != '*'
  {
    var digits := "0123456789abcdef";
    assert ':' !in digits && '*' !in digits;
    assert digits[n] in digits;
  }

  /** Whether the URI binding writes it as an escape. */
  predicate Escapes(u: Unit) {
    u.Literal? ==> !Passes(u.c)
  }

  predicate Encodable(units: seq<Unit>) {
    forall i | 0 <= i < |units| :: units[i].Literal? ==> units[i].c as int < 256
  }

  function UriUnits(units: seq<Unit>): (text: string)
    requires Encodable(units)
    ensures ':' !in text && '*' !in text && |units| <= |text|
  {
    if units == [] then [] else UriUnit(units[0]) + UriUnits(units[1..])
  }

  /** Any at all is left blank. */
  function UriText(v: Value): (text: string)
    requires WellFormed(v)
    ensures ':' !in text && '*' !in text
  {
    match v
    case Any => ""
    case Na => "-"
    case Stated(units) => UriUnits(units)
  }

  /** Blank components at the end are not written. */
  function Trimmed(components: seq<string>): (kept: seq<string>)
    ensures kept <= components
    ensures forall i | |kept| <= i < |components| :: components[i] == ""
  {
    if components != [] && components[|components| - 1] == "" then Trimmed(components[..|components| - 1])
    else components
  }

  /** A patch level in a component of its own, or run onto the version as banners have it. */
  function Components(r: Release, apart: bool): (components: seq<string>)
    requires r.Valid()
    ensures |components| == 5 && forall component <- components :: ':' !in component
  {
    var (version, update) := (UriText(r.version), UriText(r.update));
    [UriText(r.part), UriText(r.vendor), UriText(r.product)]
    + if apart then [version, update] else [version + PatchLevel(update), ""]
  }

  /** The name as a URI, with what further components it has. */
  function Uri(r: Release, apart: bool, more: seq<string>): string
    requires r.Valid()
  {
    var kept := Trimmed(Components(r, apart) + more);
    URI + if kept == [] then "" else Join(kept, ':')
  }

  // ---------- the formatted string ----------

  /** The characters a value stands for, and an asterisk for any. */
  function Characters(units: seq<Unit>): (text: string)
    ensures |text| == |units|
  {
    if units == [] then []
    else [match units[0] case Literal(c) => c case AnyOne => '?' case AnyRun => '*'] + Characters(units[1..])
  }

  function Meant(v: Value): string {
    match v
    case Any => "*"
    case Na => "-"
    case Stated(units) => Characters(units)
  }

  function QuotedUnit(u: Unit): string {
    match u
    case Literal(c) => if Passes(c) then [c] else ['\\', c]
    case AnyOne => "?"
    case AnyRun => "*"
  }

  function QuotedUnits(units: seq<Unit>): string {
    if units == [] then [] else QuotedUnit(units[0]) + QuotedUnits(units[1..])
  }

  function FormattedText(v: Value): string {
    match v
    case Any => "*"
    case Na => "-"
    case Stated(units) => QuotedUnits(units)
  }

  /** What the fields of the formatted string read as. */
  function Fields(r: Release): seq<string> {
    [Meant(r.part), Meant(r.vendor), Meant(r.product), Meant(r.version), Meant(r.update)]
  }

  /** The name as a formatted string, with what further fields it has. */
  function Formatted(r: Release, more: seq<string>): string {
    FORMATTED + Join([FormattedText(r.part), FormattedText(r.vendor), FormattedText(r.product),
                      FormattedText(r.version), FormattedText(r.update)] + more, ':')
  }

  /** The binding quotes as it may. */
  lemma {:induction false} QuotedWrites(units: seq<Unit>)
    ensures Writes(QuotedUnits(units), Characters(units))
  {
    if units != [] {
      QuotedWrites(units[1..]);
      var (first, rest) := (QuotedUnit(units[0]), QuotedUnits(units[1..]));
      assert QuotedUnits(units) == first + rest;
      assert (first + rest)[|first|..] == rest;
      assert Characters(units)[1..] == Characters(units[1..]);
    }
  }

  lemma FormattedWrites(v: Value)
    ensures Writes(FormattedText(v), Meant(v))
  {
    if v.Stated? {
      QuotedWrites(v.units);
    } else {
      assert Writes("", "");
    }
  }

  // ---------- what is read of the two ----------

  /** Written in the URI as it stands: not left blank, and nothing in it escaped. */
  predicate Plain(v: Value) {
    v.Na? || (v.Stated? && NothingEscapes(v.units))
  }

  predicate NothingEscapes(units: seq<Unit>) {
    forall i | 0 <= i < |units| :: !Escapes(units[i])
  }

  lemma NothingEscapesUnrolls(units: seq<Unit>)
    requires units != []
    ensures NothingEscapes(units) <==> !Escapes(units[0]) && NothingEscapes(units[1..])
  {
    if !Escapes(units[0]) && NothingEscapes(units[1..]) {
      assert forall i | 1 <= i < |units| :: units[i] == units[1..][i - 1];
    }
  }

  /** Escaping lengthens, and nothing else changes. */
  lemma {:induction false} EscapingLengthens(units: seq<Unit>)
    requires Encodable(units)
    ensures if NothingEscapes(units) then UriUnits(units) == Characters(units)
            else |UriUnits(units)| > |Characters(units)|
  {
    if units != [] {
      EscapingLengthens(units[1..]);
      NothingEscapesUnrolls(units);
    }
  }

  /** A value's two texts are one exactly where it is plain; otherwise blank against an asterisk, or longer. */
  lemma TheTextsOf(v: Value)
    requires WellFormed(v)
    ensures if v.Any? then UriText(v) == "" && Meant(v) == "*"
            else if Plain(v) then UriText(v) == Meant(v)
            else |UriText(v)| > |Meant(v)|
  {
    if v.Stated? {
      EscapingLengthens(v.units);
    }
  }

  lemma LowerKeepsLength(s: string)
    ensures |Lower(s)| == |s|
  {
  }

  /** So are vendors and products, which are read in lower case. */
  lemma LowerTextsAgree(v: Value)
    requires WellFormed(v)
    ensures Lower(UriText(v)) == Lower(Meant(v)) <==> Plain(v)
  {
    hide Lower, UriText, Meant;
    TheTextsOf(v);
    LowerKeepsLength(UriText(v));
    LowerKeepsLength(Meant(v));
  }

  /** What a patch level adds, in each. A lone hyphen or asterisk adds nothing as text, and an escape always does. */
  lemma ThePatchesOf(v: Value)
    requires WellFormed(v)
    ensures var (uri, meant) := (PatchLevel(UriText(v)), PatchLevel(Meant(v)));
      if v.Any? || Plain(v) then uri == meant else |uri| > |meant|
  {
    TheTextsOf(v);
    if v.Stated? && !Plain(v) {
      assert |UriText(v)| > 1;
    }
  }

  /** And versions, patch level and all. */
  lemma VersionsAgree(version: Value, update: Value)
    requires WellFormed(version) && WellFormed(update)
    ensures UriText(version) + PatchLevel(UriText(update)) == Meant(version) + PatchLevel(Meant(update))
      <==> Plain(version) && (update.Any? || Plain(update))
  {
    hide Plain, PatchLevel;
    TheTextsOf(version);
    ThePatchesOf(update);
    var (uri, meant) := (UriText(version) + PatchLevel(UriText(update)), Meant(version) + PatchLevel(Meant(update)));
    if version.Any? {
      NoAsterisk(update);
      assert meant[0] == '*' && meant[0] in meant;
      assert '*' !in uri;
      AnyIsNotPlain();
    }
  }

  lemma NoAsterisk(update: Value)
    requires WellFormed(update)
    ensures '*' !in PatchLevel(UriText(update))
  {
  }

  lemma AnyIsNotPlain()
    ensures !Plain(Any)
  {
  }

  /** Components that were left out read as blank ones. */
  lemma BlanksReadAsNothing(all: seq<string>)
    requires |all| >= 5 && |Trimmed(all)| >= 3
    ensures Named(Trimmed(all)) == Named(all)
  {
    hide Lower;
  }

  lemma NothingIsNoName()
    ensures Parse(URI + "") == None
  {
    assert URI + "" == URI && URI[|URI|..] == "";
    assert URI[4] == '/' && FORMATTED[4] == '2';
  }

  /** What the correlator reads of the URI; nothing at all where even the product is left out. */
  lemma TheUriReadsAs(r: Release, apart: bool, more: seq<string>)
    requires r.Valid() && forall component <- more :: ':' !in component
    ensures Parse(Uri(r, apart, more)) ==
      if |Trimmed(Components(r, apart) + more)| < 3 then None
      else Some(Name(Lower(UriText(r.vendor)), Lower(UriText(r.product)),
                     UriText(r.version) + PatchLevel(UriText(r.update))))
  {
    var all := Components(r, apart) + more;
    var kept := Trimmed(all);
    hide Lower, Join, Split, FieldsFrom, Parse, Trimmed, UriText, PatchLevel;
    if kept == [] {
      NothingIsNoName();
    } else {
      forall component <- kept
        ensures ':' !in component
      {
        var i :| 0 <= i < |kept| && kept[i] == component;
        assert all[i] == component && component in all;
      }
      UriIsRead(kept);
      if |kept| >= 3 {
        BlanksReadAsNothing(all);
        NothingIsNoPatchLevel();
        var version := UriText(r.version) + PatchLevel(UriText(r.update));
        assert version + "" == version;
      }
    }
  }

  lemma NothingIsNoPatchLevel()
    ensures PatchLevel("") == ""
  {
  }

  /** A product written is one that is left in. */
  lemma AProductIsKept(r: Release, apart: bool, more: seq<string>)
    requires r.Valid() && Plain(r.product)
    ensures |Trimmed(Components(r, apart) + more)| >= 3
  {
    var all := Components(r, apart) + more;
    assert all[2] == UriText(r.product) != "";
  }

  /** Plain vendor, product, version and patch level, or no patch level at all. */
  predicate PlainlyNamed(r: Release) {
    Plain(r.vendor) && Plain(r.product) && Plain(r.version) && (r.update.Any? || Plain(r.update))
  }

  /**
   * The two spellings of a release read alike exactly where the URI leaves none of vendor, product
   * and version blank and escapes nothing in them or in the patch level: the correlator undoes the
   * quoting of the one and not the escapes of the other. However the formatted string is quoted,
   * wherever the URI has the patch level, and whatever follows in either.
   */
  lemma ReadAlikeExactlyWhere(r: Release, apart: bool, more: seq<string>, texts: seq<string>, fields: seq<string>)
    requires r.Valid() && forall component <- more :: ':' !in component
    requires |texts| == 5 + |fields|
    requires forall i | 0 <= i < |texts| :: Writes(texts[i], (Fields(r) + fields)[i])
    ensures Parse(Uri(r, apart, more)) == Parse(FORMATTED + Join(texts, ':')) <==> PlainlyNamed(r)
  {
    var all := Fields(r) + fields;
    hide Lower, Join, FieldsFrom, Parse, Trimmed, UriText, Meant, PatchLevel, Plain, Writes, Components, Uri;
    FormattedIsRead(texts, all);
    TheUriReadsAs(r, apart, more);
    LowerTextsAgree(r.vendor);
    LowerTextsAgree(r.product);
    VersionsAgree(r.version, r.update);
    if Plain(r.product) {
      AProductIsKept(r, apart, more);
    }
  }

  // ---------- an identifier the corpus holds ----------

  function Spell(text: string): seq<Unit> {
    seq(|text|, i requires 0 <= i < |text| => Literal(text[i]))
  }

  function Say(text: string): Value {
    Stated(Spell(text))
  }

  lemma {:induction false} SpelledOut(text: string)
    ensures Characters(Spell(text)) == text
  {
    if text != [] {
      SpelledOut(text[1..]);
      assert Spell(text)[1..] == Spell(text[1..]);
    }
  }

  predicate AllPass(text: string) {
    text != [] && forall i | 0 <= i < |text| :: Passes(text[i])
  }

  /** Text that passes is written as it is by both bindings. */
  lemma WhatPassesIsPlain(text: string)
    requires AllPass(text)
    ensures WellFormed(Say(text)) && Plain(Say(text)) && UriText(Say(text)) == text && Meant(Say(text)) == text
  {
    SpelledOut(text);
    TheTextsOf(Say(text));
  }

  /** A TCP/IP stack of some version. */
  /** Letters, digits, underscores, hyphens and periods are written in a URI as they are, and nothing else is. */
  lemma AWordIsItsOwnSpelling(text: string)
    requires text != [] && forall i | 0 <= i < |text| :: 0x21 <= text[i] as int <= 0x7E
    ensures UriText(Say(text)) == text <==> forall c <- text ::
      'a' <= c <= 'z' || 'A' <= c <= 'Z' || '0' <= c <= '9' || c == '_' || c == '-' || c == '.'
  {
    WordByWord(text);
  }

  lemma {:induction false} WordByWord(text: string)
    requires forall i | 0 <= i < |text| :: 0x21 <= text[i] as int <= 0x7E
    ensures Encodable(Spell(text)) && |UriUnits(Spell(text))| >= |text|
    ensures UriUnits(Spell(text)) == text <==> forall c <- text :: Passes(c)
    ensures UriUnits(Spell(text)) != text ==> |UriUnits(Spell(text))| > |text|
  {
    if text != [] {
      assert text == [text[0]] + text[1..];
      WordByWord(text[1..]);
      assert Spell(text)[1..] == Spell(text[1..]) && Spell(text)[0] == Literal(text[0]);
      OneLetterMore(text[0], UriUnits(Spell(text[1..])), text[1..]);
    }
  }

  lemma OneLetterMore(c: char, spelled: string, rest: string)
    requires 0x21 <= c as int <= 0x7E && |spelled| >= |rest|
    requires spelled != rest ==> |spelled| > |rest|
    ensures UriUnit(Literal(c)) + spelled == [c] + rest <==> Passes(c) && spelled == rest
    ensures UriUnit(Literal(c)) + spelled != [c] + rest ==> |UriUnit(Literal(c)) + spelled| > |[c] + rest|
  {
    hide Passes, PercentEncoded;
    assert Passes(c) ==> UriUnit(Literal(c)) == [c];
    var whole := [c] + spelled;
    assert whole[1..] == spelled && ([c] + rest)[1..] == rest;
  }

  function TcpIp(version: string): Release {
    Release(Say("a"), Say("treck"), Say("tcp/ip"), Say(version), Any)
  }

  lemma TheProductEscapes()
    ensures WellFormed(Say("tcp/ip")) && UriText(Say("tcp/ip")) == "tcp%2fip" && Meant(Say("tcp/ip")) == "tcp/ip"
  {
    SpelledOut("tcp/ip");
    hide UriUnits, Characters;
    assert Spell("tcp/ip") == Spell("tcp") + ([Literal('/')] + Spell("ip"));
    TheSlashEscapes();
    UriUnitsJoin(Spell("tcp"), [Literal('/')] + Spell("ip"));
    UriUnitsJoin([Literal('/')], Spell("ip"));
    WordsPass();
    WhatPassesIsPlain("tcp");
    WhatPassesIsPlain("ip");
  }

  lemma TheSlashEscapes()
    ensures UriUnits([Literal('/')]) == "%2f"
  {
    assert PercentEncoded('/') == "%2f";
    assert [Literal('/')][1..] == [];
  }

  lemma {:induction false} UriUnitsJoin(a: seq<Unit>, b: seq<Unit>)
    requires Encodable(a) && Encodable(b)
    ensures Encodable(a + b) && UriUnits(a + b) == UriUnits(a) + UriUnits(b)
  {
    hide UriUnit;
    if a == [] {
      assert a + b == b;
    } else {
      UriUnitsJoin(a[1..], b);
      assert (a + b)[1..] == a[1..] + b;
    }
  }

  lemma WordsPass()
    ensures AllPass("a") && AllPass("tcp") && AllPass("ip") && AllPass("treck")
  {
  }

  /** What its URI spells, and what the two spellings of it read as, at every version that needs no escape. */
  lemma TcpIpIsTwoNames(version: string)
    requires AllPass(version)
    ensures TcpIp(version).Valid()
    ensures Uri(TcpIp(version), true, []) == URI + Join(["a", "treck", "tcp%2fip", version], ':')
    ensures Parse(Uri(TcpIp(version), true, [])) == Some(Name("treck", "tcp%2fip", version))
    ensures Parse(Formatted(TcpIp(version), [])) == Some(Name("treck", "tcp/ip", version))
  {
    hide Uri, Formatted, Parse, Join, Release.Valid, AllPass;
    TheUriOfTcpIp(version);
    TheFormattedTcpIp(version);
  }

  /** Its texts in either binding. */
  lemma TheTextsOfTcpIp(version: string)
    requires AllPass(version)
    ensures var r := TcpIp(version);
      && r.Valid() && UriText(r.part) == "a" && UriText(r.vendor) == "treck" && UriText(r.product) == "tcp%2fip"
      && UriText(r.version) == version && UriText(r.update) == ""
      && Meant(r.vendor) == "treck" && Meant(r.product) == "tcp/ip" && Meant(r.version) == version
      && Meant(r.update) == "*"
    ensures Lower("treck") == "treck" && Lower("tcp/ip") == "tcp/ip" && Lower("tcp%2fip") == "tcp%2fip"
  {
    hide UriText, Meant, WellFormed, Lower, AllPass, Say;
    PassingNames();
    WhatPassesIsPlain(version);
    TheProductEscapes();
    AnyIsBlank();
  }

  lemma OneBlankIsTrimmed(kept: seq<string>)
    requires kept != [] && kept[|kept| - 1] != ""
    ensures Trimmed(kept + [""]) == kept
  {
    assert (kept + [""])[..|kept|] == kept;
  }

  lemma TheUriOfTcpIp(version: string)
    requires AllPass(version)
    ensures var r := TcpIp(version);
      && r.Valid() && Uri(r, true, []) == URI + Join(["a", "treck", "tcp%2fip", version], ':')
      && Parse(Uri(r, true, [])) == Some(Name("treck", "tcp%2fip", version))
  {
    hide Join, Parse, UriText, Meant, WellFormed, Lower, Trimmed, PatchLevel, TcpIp;
    TheTextsOfTcpIp(version);
    var r := TcpIp(version);
    var kept := ["a", "treck", "tcp%2fip", version];
    OneBlankIsTrimmed(kept);
    assert Components(r, true) + [] == kept + [""];
    TheUriReadsAs(r, true, []);
    NothingIsNoPatchLevel();
    assert version + "" == version;
  }

  lemma TheFormattedTcpIp(version: string)
    requires AllPass(version)
    ensures Parse(Formatted(TcpIp(version), [])) == Some(Name("treck", "tcp/ip", version))
  {
    hide Join, Parse, UriText, Meant, WellFormed, Lower, FormattedText, Writes, TcpIp, AllPass;
    TheTextsOfTcpIp(version);
    var r := TcpIp(version);
    var texts := [FormattedText(r.part), FormattedText(r.vendor), FormattedText(r.product), FormattedText(r.version),
                  FormattedText(r.update)];
    assert texts + [] == texts;
    AllAreWritten(r);
    FormattedIsRead(texts, Fields(r));
    assert version + "" == version;
  }

  lemma AllAreWritten(r: Release)
    ensures Writes(FormattedText(r.part), Meant(r.part)) && Writes(FormattedText(r.vendor), Meant(r.vendor))
    ensures Writes(FormattedText(r.product), Meant(r.product)) && Writes(FormattedText(r.version), Meant(r.version))
    ensures Writes(FormattedText(r.update), Meant(r.update))
  {
    hide FormattedText, Meant, Writes;
    FormattedWrites(r.part);
    FormattedWrites(r.vendor);
    FormattedWrites(r.product);
    FormattedWrites(r.version);
    FormattedWrites(r.update);
  }

  lemma AnyIsBlank()
    ensures UriText(Any) == "" && Meant(Any) == "*" && WellFormed(Any)
  {
  }

  lemma PassingNames()
    ensures WellFormed(Say("a")) && UriText(Say("a")) == "a"
    ensures WellFormed(Say("treck")) && UriText(Say("treck")) == "treck" && Meant(Say("treck")) == "treck"
    ensures Lower("treck") == "treck" && Lower("tcp/ip") == "tcp/ip" && Lower("tcp%2fip") == "tcp%2fip"
  {
    hide AllPass, Lower, WellFormed, UriText, Meant;
    WordsPass();
    WhatPassesIsPlain("a");
    WhatPassesIsPlain("treck");
    LowerAlready("treck");
    LowerAlready("tcp/ip");
    LowerAlready("tcp%2fip");
  }

  lemma LowerAlready(s: string)
    requires forall i | 0 <= i < |s| :: !('A' <= s[i] <= 'Z')
    ensures Lower(s) == s
  {
  }
}
