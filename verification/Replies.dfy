/** How two replies of an HTTP server open, and what the engine reads in them whatever follows. */
module Replies {
  import opened Wrappers
  import opened Digits
  import opened Texts
  import opened Http

  lemma FoundAt(s: string, wanted: char -> bool, i: nat)
    requires i <= |s|
    requires forall j | 0 <= j < i :: !wanted(s[j])
    requires i < |s| ==> wanted(s[i])
    ensures Find(s, wanted) == i
  {
  }

  /** A text that opens `HTTP/ ddd` and a line break. */
  lemma TheCodeOf(s: string, code: string, rest: string)
    requires s == "HTTP/ " + code + rest && code != [] && AllDigits(code)
    requires rest != [] ==> IsWhitespace(rest[0])
    ensures SecondWord(s) == Some(code)
  {
    hide NextWord, IsWhitespace;
    SolidWords(code);
    TheWord("", "HTTP/", " " + code + rest);
    TheWord(" ", code, rest);
    assert s == "" + "HTTP/" + (" " + code + rest);
  }

  lemma SolidWords(code: string)
    requires AllDigits(code)
    ensures (forall c <- "HTTP/" :: !IsWhitespace(c)) && (forall c <- code :: !IsWhitespace(c))
    ensures AllWhite(" ") && IsWhitespace(' ')
  {
  }

  /** A solid word with white space before it and after it, or nothing. */
  lemma TheWord(before: string, word: string, after: string)
    requires AllWhite(before) && word != [] && forall c <- word :: !IsWhitespace(c)
    requires after != [] ==> IsWhitespace(after[0])
    ensures NextWord(before + word + after, IsWhitespace) == Some((word, after))
  {
    hide IsWhitespace, Find;
    var s := before + word + after;
    TheWordStarts(before, word, after);
    assert s[|before|..] == word + after;
    TheWordAhead(word, after);
  }

  lemma TheWordStarts(before: string, word: string, after: string)
    requires AllWhite(before) && word != [] && forall c <- word :: !IsWhitespace(c)
    ensures Find(before + word + after, c => !IsWhitespace(c)) == |before|
  {
    hide IsWhitespace, Find;
    var s := before + word + after;
    assert s[|before|] == word[0] && word[0] in word;
    assert forall j | 0 <= j < |before| :: s[j] == before[j];
    FoundAt(s, c => !IsWhitespace(c), |before|);
  }

  lemma TheWordAhead(word: string, after: string)
    requires forall c <- word :: !IsWhitespace(c)
    requires after != [] ==> IsWhitespace(after[0])
    ensures var t := word + after; var end := Find(t, IsWhitespace); t[..end] == word && t[end..] == after
  {
    hide IsWhitespace;
    var t := word + after;
    assert forall j | 0 <= j < |word| :: t[j] == word[j] && word[j] in word;
    assert after != [] ==> t[|word|] == after[0];
    FoundAt(t, IsWhitespace, |word|);
    assert t[..|word|] == word && t[|word|..] == after;
  }

  /** How a server that refuses a request as a bad one may open. */
  const REFUSAL := "HTTP/ 400\r\n"

  /** How one that redirects to its root may. */
  const REDIRECTION := "HTTP/ 302\r\nLocation:/\r\n\r\n"

  lemma TheStatus(rest: string)
    ensures SplitStatus(REDIRECTION + rest) == Some(("HTTP/ 302", "Location:/\r\n\r\n" + rest))
  {
    assert REDIRECTION + rest == "HTTP/ 302" + "\r\n" + ("Location:/\r\n\r\n" + rest);
    StatusEndsAt("HTTP/ 302", "Location:/\r\n\r\n" + rest);
  }

  /** A status line ends at its first line break. */
  lemma StatusEndsAt(status: string, rest: string)
    requires '\r' !in status
    ensures SplitStatus(status + "\r\n" + rest) == Some((status, rest))
  {
    var s := status + "\r\n" + rest;
    var n := |status|;
    assert s[n..] == "\r\n" + rest;
    assert "\r\n" <= s[n..];
    forall j | 0 <= j < n
      ensures !("\r\n" <= s[j..])
    {
      assert s[j..][0] == status[j] && status[j] in status;
    }
    assert FindText(s, "\r\n") == Some(n);
    assert s[..n] == status && s[n + 2..] == rest;
  }

  lemma TheHeader(lines: seq<string>)
    requires lines != [] && lines[0] == "Location:/"
    ensures Location(lines) == Some("/")
  {
    hide IsWhitespace, Trim, Lower, Find;
    var line := "Location:/";
    assert Find(line, c => c == ':') == 8 by {
      assert line[8] == ':';
    }
    assert line[..8] == "Location" && line[9..] == "/";
    TheWords();
    TheName();
    assert line[0] != '\r';
  }

  lemma TheWords()
    ensures Trim("Location") == "Location" && Trim("/") == "/"
  {
    hide Trim;
    var word := "Location";
    assert word[0] == 'L' && word[7] == 'n' && |word| == 8;
    Untrimmed(word);
    Untrimmed("/");
  }

  lemma TheName()
    ensures Lower("Location") == "location"
  {
  }

  lemma TheLines(rest: string)
    ensures var lines := Lines("Location:/\r\n\r\n" + rest); lines != [] && lines[0] == "Location:/"
  {
    var s := "Location:/\r\n\r\n" + rest;
    assert s[11] == '\n' && s[10] == '\r' && forall j | 0 <= j < 11 :: s[j] == "Location:/\r"[j];
    FoundAt(s, c => c == '\n', 11);
    assert s[..10] == "Location:/";
  }

  /** Whatever follows, the one opens a refusal, */
  lemma ThatRefuses(reply: string)
    requires REFUSAL <= reply
    ensures Refuses(reply)
  {
    hide SecondWord;
    var rest := reply[9..];
    assert reply == "HTTP/ " + "400" + rest && rest[0] == '\r';
    TheCodeOf(reply, "400", rest);
  }

  /** and the other a redirect to the root, which is on the port whoever judges URLs. */
  lemma ThatRedirects(reply: string, leadsBack: string -> bool)
    requires REDIRECTION <= reply
    ensures SpeaksHttp(reply) && !Refuses(reply) && RedirectPath(reply, leadsBack) == Some("/")
  {
    hide SplitStatus, Lines, Location, SecondWord, Refuses;
    var rest := reply[|REDIRECTION|..];
    assert reply == REDIRECTION + rest;
    TheCodeOf("HTTP/ 302", "302", "");
    assert "HTTP/ 302" == "HTTP/ " + "302" + "";
    TheStatus(rest);
    TheLines(rest);
    TheHeader(Lines("Location:/\r\n\r\n" + rest));
    assert ParseU16("302") == Some(302) by {
      assert "302"[..2] == "30" && "30"[..1] == "3" && "3"[..0] == "";
      assert Value("30") == 30;
    }
    assert Target("/", leadsBack) == Some("/") by {
      assert !("://" <= "/"[0..]) && !("://" <= "/"[1..]);
    }
    if Refuses(reply) { ARefusalRedirectsNowhere(reply, leadsBack); }
  }
}
