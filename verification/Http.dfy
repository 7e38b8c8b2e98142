/**
 * What the collection reads out of an HTTP reply: whether it refuses the request, and where
 * it redirects to.
 */
module Http {
  import opened Wrappers
  import opened Digits
  import opened Texts

  predicate IsControl(c: char) {
    c as int < 0x20 || 0x7F <= c as int <= 0x9F
  }

  /** No character of `s` is a control character, so no line of a request ends inside it. */
  predicate Clean(s: string) {
    forall i | 0 <= i < |s| :: !IsControl(s[i])
  }

  /** Where `needle` first starts in `s` at or after `from`, or [None]. */
  function FindFrom(s: string, needle: string, from: nat): (i: Option<nat>)
    requires from <= |s|
    ensures i.Some? ==> from <= i.value <= |s| && needle <= s[i.value..]
    ensures forall j | from <= j < (if i.Some? then i.value else |s|) :: !(needle <= s[j..])
    decreases |s| - from
  {
    if needle <= s[from..] then Some(from)
    else if from == |s| then None
    else FindFrom(s, needle, from + 1)
  }

  function FindText(s: string, needle: string): Option<nat> {
    FindFrom(s, needle, 0)
  }

  /** The first word of `s`, a run outside `space`, and what follows it. */
  function NextWord(s: string, space: char -> bool): Option<(string, string)> {
    var t := TrimStart(s, space);
    if t == [] then None
    else
      var end := Find(t, space);
      Some((t[..end], t[end..]))
  }

  /** The second whitespace-separated word: on a status line, the code. */
  function SecondWord(s: string): Option<string> {
    match NextWord(s, IsWhitespace)
    case None => None
    case Some((_, rest)) =>
      match NextWord(rest, IsWhitespace)
      case None => None
      case Some((word, _)) => Some(word)
  }

  /** A 16-bit number written in decimal, with an optional plus sign. */
  function ParseU16(s: string): Option<nat> {
    var digits := if s != [] && s[0] == '+' then s[1..] else s;
    if digits != [] && AllDigits(digits) && Value(digits) < 0x1_0000
    then Some(Value(digits)) else None
  }

  /** The status line and what follows it. */
  function SplitStatus(response: string): (r: Option<(string, string)>)
    ensures r.Some? ==>
      && |r.value.0| < |response| && r.value.0 <= response
      && IsWhitespace(response[|r.value.0|])
  {
    match FindText(response, "\r\n")
    case Some(i) =>
      assert response[i..][0] == response[i];
      Some((response[..i], response[i + 2..]))
    case None =>
      var i := Find(response, c => c == '\n');
      if i < |response| then Some((response[..i], response[i + 1..])) else None
  }

  /** The lines of `s`, without their terminators. */
  function Lines(s: string): seq<string>
    decreases |s|
  {
    var i := Find(s, c => c == '\n');
    if i == |s| then (if s == [] then [] else [s])
    else [if 0 < i && s[i - 1] == '\r' then s[..i - 1] else s[..i]] + Lines(s[i + 1..])
  }

  predicate Blank(line: string) {
    forall i | 0 <= i < |line| :: line[i] == '\r'
  }

  /** The first `Location` among the header lines, up to the blank one. */
  function Location(lines: seq<string>): Option<string> {
    if lines == [] || Blank(lines[0]) then None
    else
      var colon := Find(lines[0], c => c == ':');
      if colon < |lines[0]| && Lower(Trim(lines[0][..colon])) == "location"
      then Some(Trim(lines[0][colon + 1..]))
      else Location(lines[1..])
  }

  /** The path of an absolute URL: its own where it starts with a slash, rooted otherwise. */
  function PathOf(url: string): (path: string)
    ensures Clean(url) ==> Clean(path)
    ensures path != [] && path[0] == '/'
  {
    var rest := match FindText(url, "://")
      case Some(i) => url[i + 3..]
      case None => if "//" <= url then url[2..] else url;
    var path := rest[Find(rest, c => c in {'/', '?', '#'})..];
    if path == [] then "/" else if path[0] == '/' then path else "/" + path
  }

  /** The path a location names, where it is on the port being identified. */
  function Target(location: string, leadsBack: string -> bool): (path: Option<string>)
    ensures path.Some? ==> path.value != [] && path.value[0] == '/' && Clean(path.value)
  {
    if location == [] || !Clean(location) then None
    else if FindText(location, "://").Some? || "//" <= location then
      if leadsBack(location) then Some(PathOf(location)) else None
    else if location[0] == '/' then Some(location)
    else Some("/" + location)
  }

  /** A control character, of either set, leads nowhere. */
  lemma AControlLeadsNowhere(location: string, i: nat, leadsBack: string -> bool)
    requires i < |location| && (location[i] as int < 0x20 || 0x7F <= location[i] as int < 0xA0)
    ensures Target(location, leadsBack).None?
  {
    assert IsControl(location[i]);
  }

  /** The code on a status line, its second word. */
  function StatusCode(status: string): Option<nat> {
    match SecondWord(status)
    case None => None
    case Some(word) => ParseU16(word)
  }

  /**
   * Where a response says to look instead, when that is on the port being identified.
   * `leadsBack` decides which absolute URLs name it.
   */
  function RedirectPath(response: string, leadsBack: string -> bool): (path: Option<string>)
    ensures path.Some? ==> path.value != [] && path.value[0] == '/' && Clean(path.value)
    ensures path.Some? ==>
      && SplitStatus(response).Some?
      && var code := StatusCode(SplitStatus(response).value.0);
      && code.Some? && 300 <= code.value < 400
  {
    match SplitStatus(response)
    case None => None
    case Some((status, headers)) =>
      match StatusCode(status)
      case None => None
      case Some(code) =>
        if !(300 <= code < 400) then None
        else match Location(Lines(headers))
          case None => None
          case Some(location) => Target(location, leadsBack)
  }

  predicate SpeaksHttp(reply: string) {
    "HTTP/" <= reply
  }

  /** Whether a reply is an HTTP server refusing the request as a bad one. */
  predicate Refuses(reply: string) {
    SpeaksHttp(reply) && SecondWord(reply) == Some("400")
  }

  /** Whether what a port answered in the clear opens with such a refusal. */
  predicate RefusedInTheClear(banners: seq<string>) {
    banners != [] && Refuses(banners[0])
  }

  /** Where the first HTTP reply among `banners` redirects to. */
  function FirstRedirect(banners: seq<string>, leadsBack: string -> bool): Option<string> {
    if banners == [] then None
    else if SpeaksHttp(banners[0]) then RedirectPath(banners[0], leadsBack)
    else FirstRedirect(banners[1..], leadsBack)
  }

  /** A search that succeeds within a prefix finds the same place in the whole. */
  lemma FindInAPrefix(p: string, s: string, wanted: char -> bool)
    requires p <= s
    ensures Find(p, wanted) < |p| ==> Find(s, wanted) == Find(p, wanted)
    ensures Find(p, wanted) == |p| < |s| && wanted(s[|p|]) ==> Find(s, wanted) == |p|
  {
    var i, j := Find(p, wanted), Find(s, wanted);
    assert i <= j by {
      forall k | 0 <= k < i
        ensures !wanted(s[k])
      {
        assert s[k] == p[k];
      }
    }
    if i < |p| {
      assert wanted(s[i]);
    }
  }

  lemma NextWordOfAPrefix(p: string, s: string, space: char -> bool)
    requires p <= s && |p| < |s| && space(s[|p|])
    ensures NextWord(p, space).Some? ==>
      && NextWord(s, space).Some? && NextWord(s, space).value.0 == NextWord(p, space).value.0
      && var q, t := NextWord(p, space).value.1, NextWord(s, space).value.1;
      && q <= t && |q| < |t| && space(t[|q|])
  {
    hide Find;
    TrimmedPrefix(p, s, space);
    var p', s' := TrimStart(p, space), TrimStart(s, space);
    if p' != [] {
      FindInAPrefix(p', s', space);
    }
  }

  lemma TrimmedPrefix(p: string, s: string, space: char -> bool)
    requires p <= s && |p| < |s| && space(s[|p|])
    ensures var (p', s') := (TrimStart(p, space), TrimStart(s, space));
      p' != [] ==> p' <= s' && |p'| < |s'| && space(s'[|p'|])
  {
    hide Find;
    FindInAPrefix(p, s, c => !space(c));
    var (p', s') := (TrimStart(p, space), TrimStart(s, space));
    if p' != [] {
      assert s'[|p'|] == s[|p|];
    }
  }

  /** The second word of a text that ends before a space is the second of the whole. */
  lemma SecondWordOfAPrefix(p: string, s: string)
    requires p <= s && |p| < |s| && IsWhitespace(s[|p|])
    ensures SecondWord(p).Some? ==> SecondWord(s) == SecondWord(p)
  {
    NextWordOfAPrefix(p, s, IsWhitespace);
    var first, whole := NextWord(p, IsWhitespace), NextWord(s, IsWhitespace);
    if first.Some? {
      NextWordOfAPrefix(first.value.1, whole.value.1, IsWhitespace);
    }
  }

  /**
   * A reply that refuses the request redirects nowhere: the second word of the whole reply
   * is the status code of its first line, wherever that line ends.
   */
  lemma ARefusalRedirectsNowhere(reply: string, leadsBack: string -> bool)
    requires Refuses(reply)
    ensures RedirectPath(reply, leadsBack).None?
  {
    var split := SplitStatus(reply);
    if split.Some? {
      SecondWordOfAPrefix(split.value.0, reply);
      FourHundred();
    }
  }

  lemma FourHundred()
    ensures ParseU16("400") == Some(400)
  {
    assert "400"[..2] == "40" && "40"[..1] == "4" && "4"[..0] == "";
    assert Value("40") == 40;
  }
}
