/** What the library does to text: searching, trimming, splitting and joining. */
module Texts {

  /** The characters Unicode calls white space. */
  predicate IsWhitespace(c: char) {
    var n := c as int;
    || 9 <= n <= 13 || n == 0x20 || n == 0x85 || n == 0xA0 || n == 0x1680
    || 0x2000 <= n <= 0x200A || n == 0x2028 || n == 0x2029 || n == 0x202F || n == 0x205F
    || n == 0x3000
  }

  /** Where the first character satisfying `p` is, or the length of `s`. */
  function Find(s: string, p: char -> bool): (i: nat)
    ensures i <= |s|
    ensures forall j | 0 <= j < i :: !p(s[j])
    ensures i < |s| ==> p(s[i])
  {
    if s == [] || p(s[0]) then 0 else 1 + Find(s[1..], p)
  }

  /** `s` from its first character outside `space`. */
  function TrimStart(s: string, space: char -> bool): string {
    s[Find(s, c => !space(c))..]
  }

  function TrimEnd(s: string): (r: string)
    ensures r <= s
  {
    if s != [] && IsWhitespace(s[|s| - 1]) then TrimEnd(s[..|s| - 1]) else s
  }

  function Trim(s: string): string {
    TrimEnd(TrimStart(s, IsWhitespace))
  }

  function Lower(s: string): string {
    seq(|s|, i requires 0 <= i < |s| =>
      if 'A' <= s[i] <= 'Z' then (s[i] as int + 32) as char else s[i])
  }

  /** One character is another, but for the case of a letter. */
  predicate SameLetter(c: char, d: char) {
    || c == d
    || ('A' <= c <= 'Z' && d as int == c as int + 32)
    || ('A' <= d <= 'Z' && c as int == d as int + 32)
  }

  /** Two texts are one in lower case exactly where they differ in nothing but the case of letters. */
  lemma AlikeButForCase(s: string, t: string)
    ensures Lower(s) == Lower(t) <==> |s| == |t| && forall i | 0 <= i < |s| :: SameLetter(s[i], t[i])
  {
    if Lower(s) == Lower(t) {
      assert |Lower(s)| == |s| && |Lower(t)| == |t|;
      forall i | 0 <= i < |s|
        ensures SameLetter(s[i], t[i])
      {
        assert Lower(s)[i] == Lower(t)[i];
      }
    }
    if |s| == |t| && forall i | 0 <= i < |s| :: SameLetter(s[i], t[i]) {
      forall i | 0 <= i < |s|
        ensures Lower(s)[i] == Lower(t)[i]
      {
        assert SameLetter(s[i], t[i]);
      }
    }
  }

  // ---------- splitting and joining ----------

  function Split(s: string, separator: char): (parts: seq<string>)
    ensures parts != []
    decreases |s|
  {
    var i := Find(s, c => c == separator);
    if i == |s| then [s] else [s[..i]] + Split(s[i + 1..], separator)
  }

  function Join(parts: seq<string>, separator: char): string
    requires parts != []
  {
    if |parts| == 1 then parts[0] else parts[0] + [separator] + Join(parts[1..], separator)
  }

  /** Splitting undoes joining, where no part holds the separator. */
  lemma {:induction false} SplitUndoesJoin(parts: seq<string>, separator: char)
    requires parts != [] && forall part <- parts :: separator !in part
    ensures Split(Join(parts, separator), separator) == parts
    decreases |parts|
  {
    hide Split;
    assert separator !in parts[0];
    if |parts| == 1 {
      SplitNowhere(parts[0], separator);
    } else {
      SplitUndoesJoin(parts[1..], separator);
      SplitAtTheFirst(parts[0], Join(parts[1..], separator), separator);
    }
  }

  lemma SplitNowhere(s: string, separator: char)
    requires separator !in s
    ensures Split(s, separator) == [s]
  {
    assert forall j | 0 <= j < |s| :: s[j] in s;
  }

  lemma SplitAtTheFirst(first: string, rest: string, separator: char)
    requires separator !in first
    ensures Split(first + [separator] + rest, separator) == [first] + Split(rest, separator)
  {
    var s := first + [separator] + rest;
    assert Find(s, c => c == separator) == |first| by {
      assert s[|first|] == separator && forall j | 0 <= j < |first| :: s[j] == first[j] && first[j] in first;
    }
    assert s[..|first|] == first && s[|first| + 1..] == rest;
  }

  // ---------- trimming ----------

  predicate AllWhite(s: string) {
    forall i | 0 <= i < |s| :: IsWhitespace(s[i])
  }

  lemma TrimStartOf(pad: string, t: string)
    requires AllWhite(pad) && (t != [] ==> !IsWhitespace(t[0]))
    ensures TrimStart(pad + t, IsWhitespace) == t
  {
    hide IsWhitespace;
    var s := pad + t;
    assert forall j | 0 <= j < |pad| :: s[j] == pad[j];
    assert t != [] ==> s[|pad|] == t[0];
    assert Find(s, c => !IsWhitespace(c)) == |pad|;
    assert s[|pad|..] == t;
  }

  lemma {:induction false} TrimEndOf(s: string, t: string)
    requires s != [] && !IsWhitespace(s[|s| - 1])
    ensures TrimEnd(s + t) == s + TrimEnd(t)
    decreases |t|
  {
    hide IsWhitespace;
    if t == [] {
      assert s + t == s;
    } else {
      assert (s + t)[..|s + t| - 1] == s + t[..|t| - 1];
      assert (s + t)[|s + t| - 1] == t[|t| - 1];
      if IsWhitespace(t[|t| - 1]) {
        TrimEndOf(s, t[..|t| - 1]);
      }
    }
  }

  lemma {:induction false} WhiteTrimsAway(s: string)
    requires AllWhite(s)
    ensures TrimEnd(s) == []
  {
    if s != [] {
      assert IsWhitespace(s[|s| - 1]);
      WhiteTrimsAway(s[..|s| - 1]);
    }
  }

  lemma {:induction false} TrimEndTwice(s: string)
    ensures TrimEnd(TrimEnd(s)) == TrimEnd(s)
    ensures s != [] && !IsWhitespace(s[0]) ==> TrimEnd(s) != []
  {
    if s != [] && IsWhitespace(s[|s| - 1]) {
      TrimEndTwice(s[..|s| - 1]);
    }
  }

  /** Trimming the end first changes nothing. */
  lemma TrimAfterTrimEnd(z: string)
    ensures Trim(TrimEnd(z)) == Trim(z)
  {
    var i := Find(z, c => !IsWhitespace(c));
    var (pad, t) := (z[..i], z[i..]);
    assert z == pad + t && AllWhite(pad);
    TrimStartOf(pad, t);
    TrimEndTwice(t);
    if t == [] {
      assert pad + t == pad;
      WhiteTrimsAway(pad);
    } else {
      var t' := TrimEnd(t);
      EndOfTheRest(pad, t);
      TrimStartOf(pad, t');
    }
  }

  lemma EndOfTheRest(pad: string, t: string)
    requires t != [] && !IsWhitespace(t[0])
    ensures TrimEnd(pad + t) == pad + TrimEnd(t)
  {
    var (head, tail) := (pad + [t[0]], t[1..]);
    assert pad + t == head + tail && t == [t[0]] + tail;
    TrimEndOf(head, tail);
    TrimEndOf([t[0]], tail);
    assert head + TrimEnd(tail) == pad + ([t[0]] + TrimEnd(tail));
  }

  lemma Untrimmed(s: string)
    requires s != [] && !IsWhitespace(s[0]) && !IsWhitespace(s[|s| - 1])
    ensures Trim(s) == s
  {
    assert TrimStart(s, IsWhitespace) == s[0..] == s;
  }
}
