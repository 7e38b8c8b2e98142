/**
 * Platform identifiers, in the URI form and the 2.3 formatted form (NISTIR 7695, sections 6.1
 * and 6.2), as far as the correlator reads them.
 */
module Cpe {
  import opened Wrappers
  import opened Texts

  // ---------- the fields of a formatted string ----------

  /** The fields of `body`, `field` being what the first of them has so far. */
  function FieldsFrom(field: string, body: string): (fields: seq<string>)
    ensures fields != []
    decreases |body|
  {
    if body == [] then [field]
    else if body[0] == '\\' then
      if |body| == 1 then [field] else FieldsFrom(field + [body[1]], body[2..])
    else if body[0] == ':' then [field] + FieldsFrom([], body[1..])
    else FieldsFrom(field + [body[0]], body[1..])
  }

  method FormattedFields(body: string) returns (fields: seq<string>)
    ensures fields == FieldsFrom([], body)
  {
    fields := [];
    var field: string := [];
    var i := 0;
    assert body[0..] == body;
    while i < |body|
      invariant 0 <= i <= |body|
      invariant fields + FieldsFrom(field, body[i..]) == FieldsFrom([], body)
    {
      var character := body[i];
      assert body[i..][1..] == body[i + 1..];
      i := i + 1;
      if character == '\\' {
        if i < |body| {
          assert body[i - 1..][2..] == body[i + 1..];
          field := field + [body[i]];
          i := i + 1;
        }
      } else if character == ':' {
        assert fields + ([field] + FieldsFrom([], body[i..])) == (fields + [field]) + FieldsFrom([], body[i..]);
        fields, field := fields + [field], [];
      } else {
        field := field + [character];
      }
    }
    fields := fields + [field];
  }

  predicate MustBeQuoted(c: char) {
    c == '\\' || c == ':'
  }

  /** `text` writes `field`, quoting what it must and anything else it likes. */
  predicate Writes(text: string, field: string)
    decreases |field|
  {
    if field == [] then text == []
    else
      || (|text| >= 2 && text[0] == '\\' && text[1] == field[0] && Writes(text[2..], field[1..]))
      || (text != [] && !MustBeQuoted(field[0]) && text[0] == field[0] && Writes(text[1..], field[1..]))
  }

  /** A written field is read back whole, up to a colon or the end. */
  lemma {:induction false} ReadsAField(had: string, text: string, field: string, rest: string)
    requires Writes(text, field) && (rest != [] ==> rest[0] == ':')
    ensures FieldsFrom(had, text + rest) ==
      [had + field] + (if rest == [] then [] else FieldsFrom([], rest[1..]))
    decreases |field|
  {
    if field == [] {
      assert text + rest == rest && had + field == had;
    } else if |text| >= 2 && text[0] == '\\' && text[1] == field[0] && Writes(text[2..], field[1..]) {
      assert (text + rest)[2..] == text[2..] + rest;
      ReadsAField(had + [field[0]], text[2..], field[1..], rest);
      assert had + [field[0]] + field[1..] == had + field;
    } else {
      assert (text + rest)[1..] == text[1..] + rest;
      ReadsAField(had + [field[0]], text[1..], field[1..], rest);
      assert had + [field[0]] + field[1..] == had + field;
    }
  }

  /** Reading undoes writing and joining, however each field is quoted. */
  lemma {:induction false} FieldsUndoJoin(texts: seq<string>, fields: seq<string>)
    requires texts != [] && |texts| == |fields| && forall i | 0 <= i < |texts| :: Writes(texts[i], fields[i])
    ensures FieldsFrom([], Join(texts, ':')) == fields
    decreases |texts|
  {
    if |texts| == 1 {
      ReadsAField([], texts[0], fields[0], []);
      assert texts[0] + [] == texts[0] && [] + fields[0] == fields[0];
    } else {
      var rest := [':'] + Join(texts[1..], ':');
      assert Join(texts, ':') == texts[0] + rest && rest[1..] == Join(texts[1..], ':');
      ReadsAField([], texts[0], fields[0], rest);
      FieldsUndoJoin(texts[1..], fields[1..]);
      assert [] + fields[0] == fields[0] && fields == [fields[0]] + fields[1..];
    }
  }

  // ---------- the identifier ----------

  datatype Name = Name(vendor: string, product: string, version: string)

  /** `*` is any and `-` is not applicable: neither is a patch level. */
  predicate IsPatchLevel(update: string) {
    update != "" && update != "*" && update != "-"
  }

  /** What a patch level adds to a version. */
  function PatchLevel(update: string): string {
    if IsPatchLevel(update) then update else ""
  }

  /** The fields after the part: vendor, product, version and update. */
  function Named(fields: seq<string>): Option<Name> {
    if |fields| < 3 then None
    else
      var version := if |fields| > 3 then fields[3] else "";
      var update := if |fields| > 4 then fields[4] else "";
      Some(Name(Lower(fields[1]), Lower(fields[2]), version + PatchLevel(update)))
  }

  const FORMATTED: string := "cpe:2.3:"
  const URI: string := "cpe:/"

  function Parse(cpe: string): Option<Name> {
    if FORMATTED <= cpe then Named(FieldsFrom([], cpe[|FORMATTED|..]))
    else if URI <= cpe then Named(Split(cpe[|URI|..], ':'))
    else None
  }

  lemma FormattedIsRead(texts: seq<string>, fields: seq<string>)
    requires texts != [] && |texts| == |fields| && forall i | 0 <= i < |texts| :: Writes(texts[i], fields[i])
    ensures Parse(FORMATTED + Join(texts, ':')) == Named(fields)
  {
    FieldsUndoJoin(texts, fields);
    hide Named, FieldsFrom, Writes;
    assert (FORMATTED + Join(texts, ':'))[|FORMATTED|..] == Join(texts, ':');
  }

  lemma UriIsRead(fields: seq<string>)
    requires fields != [] && forall field <- fields :: ':' !in field
    ensures Parse(URI + Join(fields, ':')) == Named(fields)
  {
    SplitUndoesJoin(fields, ':');
    hide Named, FieldsFrom, Split;
    var spelled := URI + Join(fields, ':');
    assert spelled[|URI|..] == Join(fields, ':');
    assert spelled[4] == '/' && FORMATTED[4] == '2';
  }

  /**
   * The two spellings of one release read alike, where the URI writes its fields as they are. The
   * formatted one keeps a patch level in a field of its own, and quotes as it likes; the URI runs
   * it onto the version.
   */
  lemma OneReleaseTwoSpellings(part: string, vendor: string, product: string, version: string, update: string,
                               more: seq<string>, texts: seq<string>)
    requires ':' !in part && ':' !in vendor && ':' !in product && ':' !in version && ':' !in update
    requires |texts| == 5 + |more|
    requires forall i | 0 <= i < |texts| :: Writes(texts[i], ([part, vendor, product, version, update] + more)[i])
    ensures Parse(FORMATTED + Join(texts, ':'))
      == Parse(URI + Join([part, vendor, product, version + PatchLevel(update)], ':'))
  {
    hide Parse, Writes, Join;
    var patch := PatchLevel(update);
    var fields := [part, vendor, product, version, update] + more;
    FormattedIsRead(texts, fields);
    var uri := [part, vendor, product, version + patch];
    assert ':' !in version + patch;
    UriIsRead(uri);
    assert version + patch + "" == version + patch;
  }

  /** A patch level runs on from the version in either spelling, and neither blank, any nor none is one. */
  lemma APatchLevelRunsOn(part: string, vendor: string, product: string, version: string, update: string,
                          more: seq<string>, texts: seq<string>)
    requires |texts| == 5 + |more|
    requires forall i | 0 <= i < |texts| :: Writes(texts[i], ([part, vendor, product, version, update] + more)[i])
    ensures update == "" || update == "*" || update == "-" ==>
      Parse("cpe:2.3:" + Join(texts, ':')) == Some(Name(Lower(vendor), Lower(product), version))
    ensures update != "" && update != "*" && update != "-" ==>
      Parse("cpe:2.3:" + Join(texts, ':')) == Some(Name(Lower(vendor), Lower(product), version + update))
  {
    hide Parse, Writes, Join, Lower;
    FormattedIsRead(texts, [part, vendor, product, version, update] + more);
    assert version + "" == version;
  }
}
