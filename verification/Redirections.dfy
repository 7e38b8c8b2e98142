/**
 * Where a reply as a server writes it leads: a status line, header lines, and a `Location` among
 * them.
 */
module Redirections {
  import opened Wrappers
  import opened Digits
  import opened Texts
  import opened Http
  import opened Replies

  // ---------- a location ----------

  /** No scheme is written anywhere in `location`. */
  ghost predicate Schemeless(location: string) {
    forall i | 0 <= i <= |location| :: !("://" <= location[i..])
  }

  /** Neither a control character nor a URL: the location as written, rooted where it was not. */
  lemma ALocalPath(location: string, leadsBack: string -> bool)
    ensures location == [] || !Clean(location) ==> Target(location, leadsBack).None?
    ensures Clean(location) && Schemeless(location) && location != [] ==>
      && (location[0] != '/' ==> Target(location, leadsBack) == Some("/" + location))
      && (location[0] == '/' && (|location| == 1 || location[1] != '/') ==>
            Target(location, leadsBack) == Some(location))
  {
  }

  /** The path of a URL, rooted: its own, the root for none, and rooted before a query or a fragment. */
  ghost predicate IsRootOf(root: string, path: string) {
    && (path == [] ==> root == "/")
    && (path != [] && path[0] == '/' ==> root == path)
    && (path != [] && path[0] != '/' ==> root == "/" + path)
  }

  /** Up to the first slash, query or fragment, what follows the scheme is a host. */
  predicate SplitsAt(host: string, path: string) {
    && '/' !in host && '?' !in host && '#' !in host
    && (path == [] || path[0] == '/' || path[0] == '?' || path[0] == '#')
  }

  lemma PathAfterTheHost(host: string, path: string)
    requires SplitsAt(host, path)
    ensures var rest := host + path; rest[Find(rest, c => c in {'/', '?', '#'})..] == path
  {
    var rest := host + path;
    assert forall j | 0 <= j < |host| :: rest[j] == host[j] && host[j] in host;
    assert path != [] ==> rest[|host|] == path[0];
    FoundAt(rest, c => c in {'/', '?', '#'}, |host|);
    assert rest[|host|..] == path;
  }

  lemma TheSchemeEnds(scheme: string, rest: string)
    requires ':' !in scheme
    ensures FindText(scheme + "://" + rest, "://") == Some(|scheme|)
    ensures (scheme + "://" + rest)[|scheme| + 3..] == rest
  {
    var url := scheme + "://" + rest;
    var n := |scheme|;
    assert url[n..] == "://" + rest;
    assert "://" <= url[n..];
    forall j | 0 <= j < n
      ensures !("://" <= url[j..])
    {
      assert url[j..][0] == scheme[j] && scheme[j] in scheme;
    }
  }

  /** A URL leads to its path where it is on the port, and nowhere otherwise. */
  lemma AUrl(scheme: string, host: string, path: string, leadsBack: string -> bool)
    requires ':' !in scheme && SplitsAt(host, path)
    ensures var url := scheme + "://" + host + path; var target := Target(url, leadsBack);
      && (target.Some? <==> Clean(url) && leadsBack(url))
      && (target.Some? ==> IsRootOf(target.value, path))
  {
    var url := scheme + "://" + (host + path);
    assert url == scheme + "://" + host + path;
    TheSchemeEnds(scheme, host + path);
    PathAfterTheHost(host, path);
    hide FindFrom, Find, Clean;
  }

  /** And so does one written without a scheme. */
  lemma AUrlWithoutAScheme(host: string, path: string, leadsBack: string -> bool)
    requires SplitsAt(host, path) && Schemeless("//" + host + path)
    ensures var url := "//" + host + path; var target := Target(url, leadsBack);
      && (target.Some? <==> Clean(url) && leadsBack(url))
      && (target.Some? ==> IsRootOf(target.value, path))
  {
    var url := "//" + (host + path);
    assert url == "//" + host + path && url[2..] == host + path;
    assert FindText(url, "://").None?;
    PathAfterTheHost(host, path);
    hide FindFrom, Find, Clean;
  }

  /**
   * A path of the port is fetched as it was written exactly where it quotes no URL and opens no host:
   * with a scheme anywhere in it, in a query for one, it is judged as that URL.
   */
  lemma APathIsFetchedAsWrittenExactlyWhere(location: string, leadsBack: string -> bool)
    requires location != [] && location[0] == '/' && Clean(location)
    ensures Target(location, leadsBack) == Some(location) <==> Schemeless(location) && !("//" <= location)
  {
    if Schemeless(location) && !("//" <= location) {
      ALocalPath(location, leadsBack);
    } else {
      if !Schemeless(location) {
        assert FindText(location, "://").Some?;
      }
      AUrlIsLonger(location);
      hide PathOf, Clean;
    }
  }

  /** The path of a URL is shorter than it. */
  lemma AUrlIsLonger(url: string)
    requires FindText(url, "://").Some? || "//" <= url
    ensures |PathOf(url)| < |url|
  {
    var scheme := FindText(url, "://");
    if scheme.Some? {
      assert "://" <= url[scheme.value..];
      assert scheme.value + 3 <= |url|;
    }
    hide FindFrom, Find;
  }

  // ---------- a reply ----------

  /** A header line that names no location and ends no headers. */
  predicate Passed(line: string) {
    var colon := Find(line, c => c == ':');
    && '\n' !in line && !Blank(line)
    && (colon < |line| ==> Lower(Trim(line[..colon])) != "location")
  }

  function Headed(lines: seq<string>, rest: string): string {
    if lines == [] then rest else lines[0] + "\r\n" + Headed(lines[1..], rest)
  }

  lemma ALine(line: string, rest: string)
    requires '\n' !in line
    ensures Lines(line + "\r\n" + rest) == [line] + Lines(rest)
  {
    var (s, n) := (line + "\r\n" + rest, |line|);
    assert forall j | 0 <= j < n :: s[j] == line[j] && line[j] in line;
    assert s[n] == '\r' && s[n + 1] == '\n';
    FoundAt(s, c => c == '\n', n + 1);
    hide Find;
    assert s[..n] == line && s[n + 2..] == rest;
  }

  lemma {:induction false} PassedOver(lines: seq<string>, rest: string)
    requires forall line <- lines :: Passed(line)
    ensures Location(Lines(Headed(lines, rest))) == Location(Lines(rest))
  {
    hide Lines, Find, Blank, Trim, Lower;
    if lines != [] {
      assert lines[0] in lines;
      ALine(lines[0], Headed(lines[1..], rest));
      PassedOver(lines[1..], rest);
    }
  }

  /** A line that names the location, whatever its case and spacing. */
  predicate IsLocationName(name: string) {
    ':' !in name && '\n' !in name && Lower(Trim(name)) == "location"
  }

  lemma TheLocationLine(name: string, value: string, lines: seq<string>)
    requires IsLocationName(name)
    ensures Location([name + ":" + value] + lines) == Some(Trim(value))
  {
    var (line, n) := (name + ":" + value, |name|);
    assert forall j | 0 <= j < n :: line[j] == name[j] && name[j] in name;
    assert line[n] == ':';
    FoundAt(line, c => c == ':', n);
    hide Find, Trim, Lower;
    assert line[..n] == name && line[n + 1..] == value;
  }

  lemma TheBlankLine(blank: string, rest: string)
    requires forall i | 0 <= i < |blank| :: blank[i] == '\r'
    ensures Location(Lines(blank + "\r\n" + rest)).None?
  {
    ALine(blank, rest);
    hide Lines;
  }

  /** The status line: the protocol, a code perhaps signed, and what the server says of it. */
  function StatusLine(version: string, sign: string, code: string, reason: string): string {
    "HTTP/" + version + " " + (sign + code) + reason
  }

  predicate WellWritten(version: string, sign: string, code: string, reason: string) {
    && (forall c <- version :: !IsWhitespace(c)) && (sign == "" || sign == "+") && IsRun(code)
    && (reason == [] || IsWhitespace(reason[0])) && '\r' !in reason
  }

  lemma SecondOfTwo(word: string, number: string, more: string)
    requires word != [] && (forall c <- word :: !IsWhitespace(c))
    requires number != [] && (forall c <- number :: !IsWhitespace(c))
    requires more == [] || IsWhitespace(more[0])
    ensures SecondWord(word + " " + number + more) == Some(number)
  {
    SpaceIsWhite();
    hide NextWord, IsWhitespace;
    var rest := " " + number + more;
    assert rest[0] == ' ';
    TheWord("", word, rest);
    TheWord(" ", number, more);
    assert word + " " + number + more == "" + word + rest;
  }

  lemma SpaceIsWhite()
    ensures AllWhite("") && AllWhite(" ") && IsWhitespace(' ') && IsWhitespace('\r')
  {
  }

  lemma TheStatusWord(version: string, sign: string, code: string, reason: string)
    requires WellWritten(version, sign, code, reason)
    ensures SecondWord(StatusLine(version, sign, code, reason)) == Some(sign + code)
  {
    SolidStatus(version, sign, code);
    ReasonStarts(version, sign, code, reason);
    hide SecondWord, IsWhitespace, WellWritten, AllDigits;
    SecondOfTwo("HTTP/" + version, sign + code, reason);
  }

  lemma ReasonStarts(version: string, sign: string, code: string, reason: string)
    requires WellWritten(version, sign, code, reason)
    ensures reason != [] ==> IsWhitespace(reason[0])
    ensures sign + code != []
  {
  }

  lemma SolidStatus(version: string, sign: string, code: string)
    requires (forall c <- version :: !IsWhitespace(c)) && (sign == "" || sign == "+") && IsRun(code)
    ensures forall c <- "HTTP/" + version :: !IsWhitespace(c)
    ensures forall c <- sign + code :: !IsWhitespace(c)
  {
    SolidWords(code);
    assert !IsWhitespace('+');
    hide IsWhitespace;
    var (word, number) := ("HTTP/" + version, sign + code);
    assert forall c <- word :: c in "HTTP/" || c in version;
    assert forall c <- number :: c in sign || c in code;
  }

  lemma TheCode(sign: string, code: string)
    requires (sign == "" || sign == "+") && IsRun(code)
    ensures ParseU16(sign + code) == if Value(code) < 0x1_0000 then Some(Value(code)) else None
  {
    hide Value;
    assert IsDigit(code[0]) && code[0] != '+';
    if sign == "+" {
      assert (sign + code)[1..] == code;
    } else {
      assert sign + code == code;
    }
  }

  lemma TheLineHasNoBreak(version: string, sign: string, code: string, reason: string)
    requires WellWritten(version, sign, code, reason)
    ensures '\r' !in StatusLine(version, sign, code, reason)
  {
    assert IsWhitespace('\r');
    assert '\r' !in version && '\r' !in "HTTP/" && '\r' !in " " && '\r' !in sign;
    assert '\r' !in code by { assert !IsDigit('\r'); }
    hide IsWhitespace, AllDigits;
  }

  /**
   * Where a reply leads is its first `Location`, whatever headers come before it, if its code is in
   * the three hundreds; and nowhere otherwise.
   */
  lemma AReplyLeadsToItsLocation(
      version: string, sign: string, code: string, reason: string,
      before: seq<string>, name: string, value: string, rest: string, leadsBack: string -> bool)
    requires WellWritten(version, sign, code, reason)
    requires (forall line <- before :: Passed(line)) && IsLocationName(name) && '\n' !in value
    ensures var reply := StatusLine(version, sign, code, reason) + "\r\n"
        + Headed(before, name + ":" + value + "\r\n" + rest);
      RedirectPath(reply, leadsBack) == if 300 <= Value(code) < 400 then Target(Trim(value), leadsBack) else None
  {
    hide SplitStatus, Lines, Location, SecondWord, ParseU16, Target, Value, Trim, WellWritten, Passed, StatusLine,
         Headed;
    var status := StatusLine(version, sign, code, reason);
    var headers := Headed(before, name + ":" + value + "\r\n" + rest);
    ReadsItsCode(version, sign, code, reason);
    TheLineHasNoBreak(version, sign, code, reason);
    StatusEndsAt(status, headers);
    PassedOver(before, name + ":" + value + "\r\n" + rest);
    NoBreakIn(name, value);
    ALine(name + ":" + value, rest);
    TheLocationLine(name, value, Lines(rest));
  }

  lemma NoBreakIn(name: string, value: string)
    requires IsLocationName(name) && '\n' !in value
    ensures '\n' !in name + ":" + value
  {
    hide Trim, Lower;
  }

  lemma ReadsItsCode(version: string, sign: string, code: string, reason: string)
    requires WellWritten(version, sign, code, reason)
    ensures StatusCode(StatusLine(version, sign, code, reason))
      == if Value(code) < 0x1_0000 then Some(Value(code)) else None
  {
    hide SecondWord, ParseU16, Value, StatusLine, IsWhitespace;
    TheStatusWord(version, sign, code, reason);
    TheCode(sign, code);
  }

  /** What follows the blank line is no header, whatever it says. */
  lemma ABodyLeadsNowhere(
      version: string, sign: string, code: string, reason: string,
      before: seq<string>, blank: string, body: string, leadsBack: string -> bool)
    requires WellWritten(version, sign, code, reason) && forall line <- before :: Passed(line)
    requires forall i | 0 <= i < |blank| :: blank[i] == '\r'
    ensures var reply := StatusLine(version, sign, code, reason) + "\r\n" + Headed(before, blank + "\r\n" + body);
      RedirectPath(reply, leadsBack).None?
  {
    hide SplitStatus, Lines, Location, SecondWord, ParseU16, Target, Value, WellWritten, Passed, StatusLine, Headed;
    var status := StatusLine(version, sign, code, reason);
    ReadsItsCode(version, sign, code, reason);
    TheLineHasNoBreak(version, sign, code, reason);
    StatusEndsAt(status, Headed(before, blank + "\r\n" + body));
    PassedOver(before, blank + "\r\n" + body);
    TheBlankLine(blank, body);
  }

  // ---------- a reply whose lines end in a bare line feed ----------

  lemma StatusEndsAtALineFeed(status: string, rest: string)
    requires '\n' !in status && '\r' !in status + "\n" + rest
    ensures SplitStatus(status + "\n" + rest) == Some((status, rest))
  {
    var (s, n) := (status + "\n" + rest, |status|);
    forall j | 0 <= j <= |s|
      ensures !("\r\n" <= s[j..])
    {
      assert j < |s| ==> s[j..][0] == s[j] && s[j] in s;
    }
    assert FindText(s, "\r\n").None?;
    assert s[n] == '\n' && forall j | 0 <= j < n :: s[j] == status[j] && status[j] in status;
    FoundAt(s, c => c == '\n', n);
    hide Find, FindFrom;
    assert s[..n] == status && s[n + 1..] == rest;
  }

  lemma ABareLine(line: string, rest: string)
    requires '\n' !in line && '\r' !in line
    ensures Lines(line + "\n" + rest) == [line] + Lines(rest)
  {
    var (s, n) := (line + "\n" + rest, |line|);
    assert forall j | 0 <= j < n :: s[j] == line[j] && line[j] in line;
    assert s[n] == '\n';
    FoundAt(s, c => c == '\n', n);
    hide Find;
    assert n > 0 ==> s[n - 1] != '\r';
    assert s[..n] == line && s[n + 1..] == rest;
  }

  /** It leads where one that ends them in both would. */
  lemma ABareReplyLeadsToItsLocation(
      version: string, sign: string, code: string, reason: string,
      name: string, value: string, rest: string, leadsBack: string -> bool)
    requires WellWritten(version, sign, code, reason) && '\n' !in reason
    requires IsLocationName(name) && '\n' !in value && '\r' !in name + ":" + value && '\r' !in rest
    ensures var reply := StatusLine(version, sign, code, reason) + "\n" + (name + ":" + value + "\n" + rest);
      RedirectPath(reply, leadsBack) == if 300 <= Value(code) < 400 then Target(Trim(value), leadsBack) else None
  {
    hide SplitStatus, Lines, Location, SecondWord, ParseU16, Target, Value, Trim, WellWritten, StatusLine;
    var status := StatusLine(version, sign, code, reason);
    var headers := name + ":" + value + "\n" + rest;
    ReadsItsCode(version, sign, code, reason);
    TheLineHasNoBreak(version, sign, code, reason);
    TheLineHasNoFeed(version, sign, code, reason);
    NoReturnIn(status, name + ":" + value, rest);
    StatusEndsAtALineFeed(status, headers);
    NoBreakIn(name, value);
    ABareLine(name + ":" + value, rest);
    TheLocationLine(name, value, Lines(rest));
  }

  lemma NoReturnIn(status: string, line: string, rest: string)
    requires '\r' !in status && '\r' !in line && '\r' !in rest
    ensures '\r' !in status + "\n" + (line + "\n" + rest)
  {
  }

  lemma TheLineHasNoFeed(version: string, sign: string, code: string, reason: string)
    requires WellWritten(version, sign, code, reason) && '\n' !in reason
    ensures '\n' !in StatusLine(version, sign, code, reason)
  {
    assert IsWhitespace('\n');
    assert '\n' !in version && '\n' !in "HTTP/" && '\n' !in " " && '\n' !in sign;
    assert '\n' !in code by { assert !IsDigit('\n'); }
    hide IsWhitespace, AllDigits;
  }

  /** A reply refuses exactly where its code is written `400`. */
  lemma ARefusalIsFourHundred(version: string, sign: string, code: string, reason: string, rest: string)
    requires WellWritten(version, sign, code, reason)
    ensures Refuses(StatusLine(version, sign, code, reason) + "\r\n" + rest) <==> sign + code == "400"
  {
    hide SecondWord, WellWritten;
    var reply := StatusLine(version, sign, code, reason) + "\r\n" + rest;
    assert SpeaksHttp(reply) by { assert reply[..5] == "HTTP/"; }
    BreakGoesOn(version, sign, code, reason, rest);
  }

  lemma BreakGoesOn(version: string, sign: string, code: string, reason: string, rest: string)
    requires WellWritten(version, sign, code, reason)
    ensures SecondWord(StatusLine(version, sign, code, reason) + "\r\n" + rest) == Some(sign + code)
  {
    SolidStatus(version, sign, code);
    ReasonStarts(version, sign, code, reason);
    SpaceIsWhite();
    hide SecondWord, IsWhitespace, WellWritten, AllDigits;
    var more := reason + "\r\n" + rest;
    assert more[0] == if reason == [] then '\r' else reason[0];
    SecondOfTwo("HTTP/" + version, sign + code, more);
    Regrouped("HTTP/" + version + " " + (sign + code), reason, "\r\n", rest);
  }

  lemma Regrouped(a: string, b: string, c: string, d: string)
    ensures a + (b + c + d) == a + b + c + d
  {
  }

  /** Of several replies, the first in HTTP is the one that leads anywhere. */
  lemma {:induction false} TheFirstInHttpLeads(
      before: seq<string>, reply: string, after: seq<string>, leadsBack: string -> bool)
    requires forall other <- before :: !("HTTP/" <= other)
    ensures "HTTP/" <= reply ==> FirstRedirect(before + [reply] + after, leadsBack) == RedirectPath(reply, leadsBack)
    ensures FirstRedirect(before, leadsBack).None?
  {
    hide RedirectPath;
    if before == [] {
      assert before + [reply] + after == [reply] + after;
    } else {
      assert before[0] in before && forall other <- before[1..] :: other in before;
      assert (before + [reply] + after)[1..] == before[1..] + [reply] + after;
      TheFirstInHttpLeads(before[1..], reply, after, leadsBack);
    }
  }
}
