/**
 * How the bytes of a reply become text: UTF-8 wherever they are UTF-8, and every other byte as
 * the code point of its own value. And how text is read back to bytes.
 */
module Decoding {
  import opened Wrappers
  import opened Octets
  import opened Collect

  predicate IsContinuation(b: Byte) {
    0x80 <= b < 0xC0
  }

  /** The six bits a continuation byte carries. */
  function Bits(b: Byte): nat
    requires IsContinuation(b)
  {
    b as int - 0x80
  }

  predicate IsScalar(n: int) {
    0 <= n < 0xD800 || 0xE000 <= n < 0x11_0000
  }

  /** One character, and how many bytes spell it. */
  datatype Spelt = Spelt(c: char, length: nat)

  /** The well-formed UTF-8 sequence `bytes` start with, where they start with one. */
  function Sequence(bytes: seq<Byte>): (r: Option<Spelt>)
    requires bytes != []
    ensures r.Some? ==> 1 <= r.value.length <= |bytes|
  {
    var lead := bytes[0];
    if lead < 0x80 then Some(Spelt(lead as char, 1))
    else if 0xC0 <= lead < 0xE0 && |bytes| >= 2 && IsContinuation(bytes[1]) then
      var n := (lead as int - 0xC0) * 64 + Bits(bytes[1]);
      if 0x80 <= n then Some(Spelt(n as char, 2)) else None
    else if 0xE0 <= lead < 0xF0 && |bytes| >= 3 && IsContinuation(bytes[1]) && IsContinuation(bytes[2]) then
      var n := (lead as int - 0xE0) * 4096 + Bits(bytes[1]) * 64 + Bits(bytes[2]);
      if 0x800 <= n && IsScalar(n) then Some(Spelt(n as char, 3)) else None
    else if && 0xF0 <= lead && |bytes| >= 4
            && IsContinuation(bytes[1]) && IsContinuation(bytes[2]) && IsContinuation(bytes[3]) then
      var n := (lead as int - 0xF0) * 0x4_0000 + Bits(bytes[1]) * 4096 + Bits(bytes[2]) * 64 + Bits(bytes[3]);
      if 0x1_0000 <= n && IsScalar(n) then Some(Spelt(n as char, 4)) else None
    else None
  }

  /**
   * The first character of `bytes`: a sequence where there is one, and else the first byte itself.
   * The rest of an ill-formed sequence is continuation bytes, which start none, so a run of such
   * bytes reads as itself one byte at a time.
   */
  function First(bytes: seq<Byte>): (r: Spelt)
    requires bytes != []
    ensures 1 <= r.length <= |bytes|
  {
    match Sequence(bytes)
    case Some(spelt) => spelt
    case None => Spelt(bytes[0] as char, 1)
  }

  function ReplyText(bytes: seq<Byte>): string {
    if bytes == [] then []
    else [First(bytes).c] + ReplyText(bytes[First(bytes).length..])
  }

  /** The loop, over what is left to read. */
  method ReadText(bytes: seq<Byte>) returns (text: string)
    ensures text == ReplyText(bytes)
  {
    hide First, ReplyText;
    text := [];
    var at := 0;
    while at < |bytes|
      invariant 0 <= at <= |bytes|
      invariant ReplyText(bytes) == text + ReplyText(bytes[at..])
    {
      var next := First(bytes[at..]);
      OneCharacterMore(bytes, at, text);
      text, at := text + [next.c], at + next.length;
    }
    assert bytes[at..] == [] && ReplyText([]) == [] by { NothingReadsAsNothing(); }
  }

  lemma OneCharacterMore(bytes: seq<Byte>, at: nat, text: string)
    requires at < |bytes|
    ensures var next := First(bytes[at..]);
      text + ReplyText(bytes[at..]) == text + [next.c] + ReplyText(bytes[at + next.length..])
  {
    hide First;
    var next := First(bytes[at..]);
    assert bytes[at..][next.length..] == bytes[at + next.length..];
    assert ReplyText(bytes[at..]) == [next.c] + ReplyText(bytes[at + next.length..]);
  }

  lemma NothingReadsAsNothing()
    ensures ReplyText([]) == []
  {
  }

  // ---------- what is kept in place ----------

  predicate IsAscii(b: Byte) {
    b < 0x80
  }

  /** ASCII bytes as their characters. */
  function AsText(bytes: seq<Byte>): string {
    seq(|bytes|, i requires 0 <= i < |bytes| => bytes[i] as char)
  }

  /** ASCII text as its bytes. */
  function AsBytes(text: string): (bytes: seq<Byte>)
    requires forall i | 0 <= i < |text| :: text[i] as int < 0x80
    ensures |bytes| == |text| && (forall b <- bytes :: IsAscii(b)) && AsText(bytes) == text
  {
    seq(|text|, i requires 0 <= i < |text| => text[i] as int)
  }

  /** A decoder under which ASCII reads as itself. */
  ghost predicate ReadsAscii(text: seq<Byte> -> string) {
    forall bytes: seq<Byte> :: (forall b <- bytes :: IsAscii(b)) ==> text(bytes) == AsText(bytes)
  }

  predicate AsciiBytes(bytes: seq<Byte>, k: nat) {
    k <= |bytes| && forall i | 0 <= i < k :: IsAscii(bytes[i])
  }

  predicate AsciiChars(text: string, k: nat) {
    k <= |text| && forall i | 0 <= i < k :: text[i] as int < 0x80
  }

  lemma AsciiUnrolls(bytes: seq<Byte>, text: string, k: nat)
    requires k > 0
    ensures AsciiBytes(bytes, k) <==> bytes != [] && IsAscii(bytes[0]) && AsciiBytes(bytes[1..], k - 1)
    ensures AsciiChars(text, k) <==> text != [] && text[0] as int < 0x80 && AsciiChars(text[1..], k - 1)
  {
    if bytes != [] && AsciiBytes(bytes[1..], k - 1) {
      assert forall i | 1 <= i < k :: bytes[i] == bytes[1..][i - 1];
    }
    if text != [] && AsciiChars(text[1..], k - 1) {
      assert forall i | 1 <= i < k :: text[i] == text[1..][i - 1];
    }
  }

  /** The first `k` bytes are ASCII exactly where the first `k` characters are, and are those characters then. */
  lemma {:induction false} AFrontIsKept(bytes: seq<Byte>, k: nat)
    ensures AsciiBytes(bytes, k) <==> AsciiChars(ReplyText(bytes), k)
    ensures AsciiBytes(bytes, k) ==> forall i | 0 <= i < k :: ReplyText(bytes)[i] as int == bytes[i]
    decreases k
  {
    hide First, ReplyText, AsciiBytes, AsciiChars;
    var text := ReplyText(bytes);
    if k == 0 {
      NoFront(bytes, text);
    } else {
      AsciiUnrolls(bytes, text, k);
      FirstIsAscii(bytes);
      if bytes != [] && IsAscii(bytes[0]) {
        AFrontIsKept(bytes[1..], k - 1);
        if AsciiBytes(bytes, k) {
          AsciiIsThatLong(bytes, text, k);
          OnePlaceOn(bytes, text, k);
        }
      }
    }
  }

  lemma AsciiIsThatLong(bytes: seq<Byte>, text: string, k: nat)
    ensures AsciiBytes(bytes, k) ==> k <= |bytes|
    ensures AsciiChars(text, k) ==> k <= |text|
  {
  }

  lemma NoFront(bytes: seq<Byte>, text: string)
    ensures AsciiBytes(bytes, 0) && AsciiChars(text, 0)
  {
  }

  /** The first character is ASCII exactly where the first byte is, and is it then. */
  lemma FirstIsAscii(bytes: seq<Byte>)
    ensures var text := ReplyText(bytes);
      && (text == [] <==> bytes == [])
      && (bytes != [] && IsAscii(bytes[0]) ==> text[0] as int == bytes[0] && text[1..] == ReplyText(bytes[1..]))
      && (bytes != [] && !IsAscii(bytes[0]) ==> text[0] as int >= 0x80)
  {
    if bytes != [] && IsAscii(bytes[0]) {
      assert First(bytes) == Spelt(bytes[0] as char, 1);
    }
  }

  lemma OnePlaceOn(bytes: seq<Byte>, text: string, k: nat)
    requires 0 < k <= |bytes| && k <= |text| && text[0] as int == bytes[0]
    requires forall i | 0 <= i < k - 1 :: text[1..][i] as int == bytes[1..][i]
    ensures forall i | 0 <= i < k :: text[i] as int == bytes[i]
  {
    forall i | 1 <= i < k
      ensures text[i] as int == bytes[i]
    {
      assert text[i] == text[1..][i - 1] && bytes[i] == bytes[1..][i - 1];
    }
  }

  /** So ASCII reads as itself, */
  lemma ReplyTextReadsAscii()
    ensures ReadsAscii(ReplyText)
  {
    forall bytes: seq<Byte> | forall b <- bytes :: IsAscii(b)
      ensures ReplyText(bytes) == AsText(bytes)
    {
      AFrontIsKept(bytes, |bytes|);
      AtMostAsLong(bytes);
    }
  }

  /** and a reply opens a TLS record exactly where its text does, whatever follows the record's head. */
  lemma TlsShowsInTheText(bytes: seq<Byte>)
    ensures TextLooksLikeTls(ReplyText(bytes)) <==> LooksLikeTls(bytes)
  {
    hide ReplyText;
    AFrontIsKept(bytes, 3);
    var text := ReplyText(bytes);
    assert LooksLikeTls(bytes) ==> AsciiBytes(bytes, 3);
    assert TextLooksLikeTls(text) ==> AsciiChars(text, 3);
  }

  lemma {:induction false} AtMostAsLong(bytes: seq<Byte>)
    ensures |ReplyText(bytes)| <= |bytes|
    decreases |bytes|
  {
    hide First;
    if bytes != [] {
      AtMostAsLong(bytes[First(bytes).length..]);
    }
  }

  // ---------- read back to bytes ----------

  /** A character in UTF-8. */
  function Utf8(c: char): (bytes: seq<Byte>)
    ensures 1 <= |bytes| <= 4
  {
    var n := c as int;
    if n < 0x80 then [n]
    else if n < 0x800 then [0xC0 + n / 64, 0x80 + n % 64]
    else if n < 0x1_0000 then [0xE0 + n / 4096, 0x80 + n / 64 % 64, 0x80 + n % 64]
    else [0xF0 + n / 0x4_0000, 0x80 + n / 4096 % 64, 0x80 + n / 64 % 64, 0x80 + n % 64]
  }

  /** A character back as a byte where one holds it, and in UTF-8 otherwise. */
  function BackOf(c: char): seq<Byte> {
    if c as int < 256 then [c as int] else Utf8(c)
  }

  function ReplyBytes(text: string): seq<Byte> {
    if text == [] then [] else BackOf(text[0]) + ReplyBytes(text[1..])
  }

  method ReadBack(text: string) returns (bytes: seq<Byte>)
    ensures bytes == ReplyBytes(text)
  {
    hide BackOf;
    bytes := [];
    for i := 0 to |text|
      invariant bytes + ReplyBytes(text[i..]) == ReplyBytes(text)
    {
      assert text[i..][0] == text[i] && text[i..][1..] == text[i + 1..];
      assert bytes + (BackOf(text[i]) + ReplyBytes(text[i + 1..]))
        == bytes + BackOf(text[i]) + ReplyBytes(text[i + 1..]);
      bytes := bytes + BackOf(text[i]);
    }
    assert text[|text|..] == [] && bytes + [] == bytes;
  }

  /** A Latin-1 letter spelled in UTF-8 at `i`: a lead of 0xC2 or 0xC3 and a continuation. */
  predicate LetterAt(bytes: seq<Byte>, i: nat) {
    i + 1 < |bytes| && (bytes[i] == 0xC2 || bytes[i] == 0xC3) && IsContinuation(bytes[i + 1])
  }

  /** No such letter anywhere. */
  ghost predicate NoLetter(bytes: seq<Byte>) {
    forall i: nat :: !LetterAt(bytes, i)
  }

  lemma Sixes(a: nat, b: nat, c: nat, d: nat)
    requires b < 64 && c < 64 && d < 64
    ensures var n := a * 64 + b; n / 64 == a && n % 64 == b
    ensures var n := a * 4096 + b * 64 + c; n / 4096 == a && n / 64 % 64 == b && n % 64 == c
    ensures var n := a * 0x4_0000 + b * 4096 + c * 64 + d;
      n / 0x4_0000 == a && n / 4096 % 64 == b && n / 64 % 64 == c && n % 64 == d
  {
    assert (a * 4096 + b * 64 + c) / 64 == a * 64 + b;
    assert (a * 0x4_0000 + b * 4096 + c * 64 + d) / 64 == a * 4096 + b * 64 + c;
    assert (a * 0x4_0000 + b * 4096 + c * 64 + d) / 4096 == a * 64 + b;
  }

  /** A sequence is the UTF-8 of what it spells. */
  lemma SpeltIsUtf8(bytes: seq<Byte>)
    requires bytes != [] && Sequence(bytes).Some?
    ensures var s := Sequence(bytes).value; Utf8(s.c) == bytes[..s.length]
  {
    var length := Sequence(bytes).value.length;
    if length == 2 {
      TwoAreUtf8(bytes);
    } else if length == 3 {
      ThreeAreUtf8(bytes);
    } else if length == 4 {
      FourAreUtf8(bytes);
    }
  }

  lemma TwoAreUtf8(bytes: seq<Byte>)
    requires bytes != [] && Sequence(bytes).Some? && Sequence(bytes).value.length == 2
    ensures Utf8(Sequence(bytes).value.c) == bytes[..2]
  {
    Sixes(bytes[0] as int - 0xC0, Bits(bytes[1]), 0, 0);
  }

  lemma ThreeAreUtf8(bytes: seq<Byte>)
    requires bytes != [] && Sequence(bytes).Some? && Sequence(bytes).value.length == 3
    ensures Utf8(Sequence(bytes).value.c) == bytes[..3]
  {
    Sixes(bytes[0] as int - 0xE0, Bits(bytes[1]), Bits(bytes[2]), 0);
  }

  lemma FourAreUtf8(bytes: seq<Byte>)
    requires bytes != [] && Sequence(bytes).Some? && Sequence(bytes).value.length == 4
    ensures Utf8(Sequence(bytes).value.c) == bytes[..4]
  {
    Sixes(bytes[0] as int - 0xF0, Bits(bytes[1]), Bits(bytes[2]), Bits(bytes[3]));
  }

  /** What a first character takes: itself back, exactly where it is no letter spelled in two bytes. */
  lemma FirstComesBack(bytes: seq<Byte>)
    requires bytes != []
    ensures var first := First(bytes);
      && (BackOf(first.c) == bytes[..first.length] <==> !LetterAt(bytes, 0))
      && |BackOf(first.c)| <= first.length
      && (LetterAt(bytes, 0) ==> |BackOf(first.c)| < first.length)
      && forall i | 1 <= i < first.length :: !LetterAt(bytes, i)
  {
    if Sequence(bytes).Some? {
      SpeltIsUtf8(bytes);
    }
  }

  lemma {:induction false} NeverLonger(bytes: seq<Byte>)
    ensures |ReplyBytes(ReplyText(bytes))| <= |bytes|
    decreases |bytes|
  {
    hide First, BackOf;
    if bytes != [] {
      FirstComesBack(bytes);
      NeverLonger(bytes[First(bytes).length..]);
      var text := ReplyText(bytes);
      assert text[1..] == ReplyText(bytes[First(bytes).length..]);
    }
  }

  /** Every byte comes back exactly where no Latin-1 letter is spelled in UTF-8 anywhere. */
  lemma {:induction false} EveryByteComesBackExactlyWhere(bytes: seq<Byte>)
    ensures ReplyBytes(ReplyText(bytes)) == bytes <==> NoLetter(bytes)
    decreases |bytes|
  {
    hide First, BackOf, LetterAt, NoLetter;
    if bytes == [] {
      NoLetterInNothing();
    } else {
      var first := First(bytes);
      var rest := bytes[first.length..];
      EveryByteComesBackExactlyWhere(rest);
      NeverLonger(rest);
      assert ReplyText(bytes)[1..] == ReplyText(rest);
      FirstComesBack(bytes);
      NoLetterUnrolls(bytes, first.length);
      JoinsExactly(BackOf(first.c), ReplyBytes(ReplyText(rest)), bytes, first.length);
    }
  }

  lemma NoLetterInNothing()
    ensures NoLetter([])
  {
  }

  lemma NoLetterUnrolls(bytes: seq<Byte>, n: nat)
    requires 1 <= n <= |bytes| && forall i | 1 <= i < n :: !LetterAt(bytes, i)
    ensures NoLetter(bytes) <==> !LetterAt(bytes, 0) && NoLetter(bytes[n..])
  {
    assert forall i: nat :: LetterAt(bytes[n..], i) <==> LetterAt(bytes, n + i);
    if !LetterAt(bytes, 0) && NoLetter(bytes[n..]) {
      forall i: nat
        ensures !LetterAt(bytes, i)
      {
        if n <= i { assert !LetterAt(bytes[n..], i - n); }
      }
    }
  }

  /** Two parts no longer than the front and the rest of `whole` make it up exactly where each is its own. */
  lemma JoinsExactly(front: seq<Byte>, rest: seq<Byte>, whole: seq<Byte>, n: nat)
    requires n <= |whole| && |front| <= n && |rest| <= |whole| - n
    ensures front + rest == whole <==> front == whole[..n] && rest == whole[n..]
  {
    if front + rest == whole {
      assert |front| == n;
      assert (front + rest)[..n] == front && (front + rest)[n..] == rest;
    }
    assert whole == whole[..n] + whole[n..];
  }
}
