/**
 * What a port said over a whole run, in the order it said it, and how much of that a
 * collection returns.
 */
module Transcripts {
  import opened Wrappers
  import opened Reading
  import opened Network
  import opened Http
  import opened Collect

  /** What one wait told: words as they are, an answer as its fields and then its text. */
  function Told(env: Env, wait: Wait): seq<string> {
    if wait.heard == [] then []
    else if wait.what.Words? then [env.text(wait.heard)]
    else if wait.what.Answers? then env.fields(wait.heard) + [env.text(wait.heard)]
    else []
  }

  /** Everything the port said, in order. */
  function Said(env: Env, trace: seq<Wait>): seq<string> {
    if trace == [] then [] else Said(env, trace[..|trace| - 1]) + Told(env, trace[|trace| - 1])
  }

  /** Nothing the port said reads as TLS. */
  ghost predicate Plainly(env: Env, trace: seq<Wait>) {
    forall wait <- trace :: !LooksLikeTls(wait.heard) && forall line <- Told(env, wait) :: !TextLooksLikeTls(line)
  }

  /** What the peer left unanswered of a wait: all it was given, where nothing arrived or settled in it. */
  function LeftUnanswered(peer: Peer, wait: Wait): nat {
    var answer := peer(wait.step);
    match wait.what
    case Words => if NothingBy(answer.wire(0), wait.given) then wait.given else 0
    case Answers => if NothingBy(answer.wire(0), wait.given) then wait.given else 0
    case Tunnel => if wait.given < answer.settles then wait.given else 0
    case _ => 0
  }

  function AllUnanswered(peer: Peer, trace: seq<Wait>): nat {
    if trace == [] then 0
    else AllUnanswered(peer, trace[..|trace| - 1]) + LeftUnanswered(peer, trace[|trace| - 1])
  }

  /** What is told of as waited in vain is what was left unanswered, each operation counted once. */
  ghost predicate Tallied(env: Env, s: Session) {
    && s.inVain == AllUnanswered(env.peer, s.trace)
    && (forall wait <- s.trace :: wait.step < s.step)
    && (forall i, j | 0 <= i < j < |s.trace| :: s.trace[i].step < s.trace[j].step)
  }

  /** From `s` to `t` the port said `lines`, and neither what it said before nor TLS heard is forgotten. */
  ghost predicate Adds(env: Env, s: Session, t: Session, lines: seq<string>) {
    && s.trace <= t.trace && (s.tlsHeard ==> t.tlsHeard) && (Tallied(env, s) ==> Tallied(env, t))
    && Said(env, t.trace) == Said(env, s.trace) + lines
  }

  /** A run on which TLS was never spoken. */
  ghost predicate InPlain(env: Env, t: Session) {
    !t.tlsHeard && Plainly(env, t.trace)
  }

  lemma AddsTwice(env: Env, s: Session, t: Session, u: Session, a: seq<string>, b: seq<string>)
    requires Adds(env, s, t, a) && Adds(env, t, u, b)
    ensures Adds(env, s, u, a + b)
  {
    hide Said, Tallied;
    assert Said(env, s.trace) + a + b == Said(env, s.trace) + (a + b);
  }

  lemma AddsAfterNothing(env: Env, s: Session, t: Session, u: Session, lines: seq<string>)
    requires Adds(env, s, t, []) && Adds(env, t, u, lines)
    ensures Adds(env, s, u, lines)
  {
    AddsTwice(env, s, t, u, [], lines);
    assert [] + lines == lines;
  }

  lemma AddsNothing(env: Env, s: Session, t: Session)
    requires s.trace == t.trace && (s.tlsHeard ==> t.tlsHeard) && s.inVain == t.inVain && s.step <= t.step
    ensures Adds(env, s, t, [])
  {
    hide Said, AllUnanswered;
    assert Said(env, s.trace) + [] == Said(env, s.trace);
  }

  /** Two moments of a run between which nothing was waited for. */
  ghost predicate AtOnce(s: Session, t: Session) {
    s.trace == t.trace && s.tlsHeard == t.tlsHeard && s.inVain == t.inVain && s.step <= t.step
  }

  lemma AddsAround(env: Env, s: Session, s': Session, t: Session, t': Session, lines: seq<string>)
    requires AtOnce(s, s') && Adds(env, s', t, lines) && AtOnce(t, t')
    ensures Adds(env, s, t', lines)
  {
    AddsNothing(env, s, s');
    AddsNothing(env, t, t');
    hide Adds;
    AddsAfterNothing(env, s, s', t, lines);
    AddsTwice(env, s, t, t', lines, []);
    assert lines + [] == lines;
  }

  lemma StillPlain(env: Env, s: Session, t: Session, lines: seq<string>)
    requires Adds(env, s, t, lines) && InPlain(env, t)
    ensures InPlain(env, s)
  {
    hide Said, Tallied, Told, LooksLikeTls, TextLooksLikeTls;
    forall wait <- s.trace
      ensures wait in t.trace
    {
    }
  }

  // ---------- the operations ----------

  /** One wait more, and what was left unanswered of it. */
  lemma WaitSays(env: Env, s: Session, t: Session, wait: Wait)
    requires t.trace == s.trace + [wait] && wait.step == s.step && t.step == s.step + 1
    requires t.inVain == s.inVain + LeftUnanswered(env.peer, wait) && (s.tlsHeard ==> t.tlsHeard)
    ensures Adds(env, s, t, Told(env, wait))
  {
    hide LeftUnanswered, Told;
    assert t.trace[..|t.trace| - 1] == s.trace;
  }

  lemma DialSays(env: Env, s: Session)
    ensures Adds(env, s, Dial(env.peer, env.path, s).session, [])
  {
    hide Adds;
    WaitSays(env, s, Dial(env.peer, env.path, s).session,
             Wait(Connection, s.step, CONNECT_RETRY_TIMEOUT + env.path.allowance, []));
  }

  lemma ReadSays(env: Env, s: Session, what: For, wait: nat, grace: nat)
    requires what.Words? || what.Answers?
    ensures var r := ReadPort(env.peer, env.path, s, what, wait, grace);
      && Adds(env, s, r.session, Told(env, Wait(what, 0, 0, r.what)))
      && (Plainly(env, r.session.trace) ==> !LooksLikeTls(r.what))
  {
    hide Adds, Read, Told, LooksLikeTls, TextLooksLikeTls;
    ReadIsBounded(env.peer(s.step).wire, wait, grace, env.path);
    var r := ReadPort(env.peer, env.path, s, what, wait, grace);
    var w := Wait(what, s.step, wait + env.path.allowance, r.what);
    WaitSays(env, s, r.session, w);
    ToldByWhatWasHeard(env, w);
    assert r.session.trace[|s.trace|] == w;
  }

  lemma ToldByWhatWasHeard(env: Env, wait: Wait)
    ensures Told(env, wait) == Told(env, Wait(wait.what, 0, 0, wait.heard))
  {
  }

  lemma HandshakeSays(env: Env, s: Session, budget: nat)
    ensures Adds(env, s, Handshake(env.peer, env.path, s, budget).session, [])
  {
    hide Adds;
    WaitSays(env, s, Handshake(env.peer, env.path, s, budget).session,
             Wait(Tunnel, s.step, budget + env.path.allowance, []));
  }

  lemma LegacySays(env: Env, s: Session)
    ensures Adds(env, s, Legacy(env.peer, env.path, s).session, [])
  {
    hide Adds;
    WaitSays(env, s, Legacy(env.peer, env.path, s).session,
             Wait(OldTunnel, s.step, LEGACY_PROBE_TIMEOUT + env.path.allowance, []));
  }

  lemma {:induction false} PlainlySaid(env: Env, trace: seq<Wait>)
    requires Plainly(env, trace)
    ensures forall line <- Said(env, trace) :: !TextLooksLikeTls(line)
  {
    hide Told, LooksLikeTls, TextLooksLikeTls;
    if trace != [] {
      var n := |trace| - 1;
      PlainlySaid(env, trace[..n]);
      assert trace[n] in trace;
    }
  }

  // ---------- one connection ----------

  lemma AskedOnceSays(env: Env, s: Session)
    ensures var r := AskedOnce(env, s); Adds(env, s, r.session, if r.what.None? then [] else r.what.value)
  {
    hide Adds, ReadPort;
    var wrote := Write(env.peer, s);
    var r := AskedOnce(env, s);
    if wrote.what {
      ReadSays(env, wrote.session, Answers, PROBE_READ_TIMEOUT, CONTINUATION_GRACE);
      AddsAround(env, s, wrote.session, r.session, r.session, r.what.value);
    } else {
      AddsNothing(env, s, wrote.session);
    }
  }

  lemma {:induction false} AskedInTurnSays(env: Env, s: Session, n: nat)
    ensures var r := AskedInTurn(env, s, n); Adds(env, s, r.session, r.what)
    decreases n
  {
    hide Adds, AskedOnce;
    if n == 0 {
      AddsNothing(env, s, s);
    } else {
      var once := AskedOnce(env, s);
      AskedOnceSays(env, s);
      if once.what.Some? {
        var rest := AskedInTurn(env, once.session, n - 1);
        AskedInTurnSays(env, once.session, n - 1);
        AddsTwice(env, s, once.session, rest.session, once.what.value, rest.what);
      }
    }
  }

  lemma CollectedSays(env: Env, s: Session, n: nat, listen: bool)
    ensures var r := Collected(env, s, n, listen); Adds(env, s, r.session, r.what)
  {
    hide Adds, AskedInTurn, ReadPort;
    if !listen {
      AskedInTurnSays(env, s, n);
    } else {
      var greeting := ReadPort(env.peer, env.path, s, Words, BANNER_READ_TIMEOUT, 0);
      ReadSays(env, s, Words, BANNER_READ_TIMEOUT, 0);
      var rest := AskedInTurn(env, greeting.session, n);
      AskedInTurnSays(env, greeting.session, n);
      var greeted := if greeting.what == [] then [] else [env.text(greeting.what)];
      AddsTwice(env, s, greeting.session, rest.session, greeted, rest.what);
    }
  }

  // ---------- redirects ----------

  lemma PageOverSays(env: Env, s: Session)
    ensures var r := PageOver(env, s); Adds(env, s, r.session, Items(r.what))
  {
    hide Adds, ReadPort;
    var wrote := Write(env.peer, s);
    if wrote.what {
      var r := PageOver(env, s);
      var read := ReadPort(env.peer, env.path, wrote.session, Words, PROBE_READ_TIMEOUT, CONTINUATION_GRACE);
      ReadSays(env, wrote.session, Words, PROBE_READ_TIMEOUT, CONTINUATION_GRACE);
      AddsAround(env, s, wrote.session, read.session, r.session, Items(r.what));
    } else {
      AddsNothing(env, s, Close(wrote.session));
    }
  }

  lemma FetchedSays(env: Env, s: Session, target: string, tls: bool)
    ensures var r := Fetched(env, s, target, tls); Adds(env, s, r.session, Items(r.what))
  {
    hide Adds, Dial, Handshake, PageOver;
    var following := s.(followed := s.followed + [target]);
    AddsNothing(env, s, following);
    var dialled := Dial(env.peer, env.path, following);
    DialSays(env, following);
    AddsAfterNothing(env, s, following, dialled.session, []);
    var r := Fetched(env, s, target, tls);
    if dialled.what {
      if !tls {
        PageOverSays(env, dialled.session);
        AddsAfterNothing(env, s, dialled.session, r.session, Items(r.what));
      } else {
        var shaken := Handshake(env.peer, env.path, dialled.session, TLS_HANDSHAKE_TIMEOUT);
        HandshakeSays(env, dialled.session, TLS_HANDSHAKE_TIMEOUT);
        AddsAfterNothing(env, s, dialled.session, shaken.session, []);
        if shaken.what.Some? {
          PageOverSays(env, shaken.session);
          AddsAfterNothing(env, s, shaken.session, r.session, Items(r.what));
        }
      }
    }
  }

  /** A redirect adds its page after what led to it. */
  lemma WithRedirectSays(
      env: Env, s: Session, banners: seq<string>, addressed: bool, tls: bool)
    returns (page: seq<string>)
    ensures var r := WithRedirect(env, s, banners, addressed, tls);
      r.what == banners + page && Adds(env, s, r.session, page)
  {
    hide Adds, Fetched, Redirect;
    var target := Redirect(env, banners, tls);
    if !addressed || target.None? {
      AddsNothing(env, s, s);
      page := [];
    } else {
      FetchedSays(env, s, target.value, tls);
      page := Items(Fetched(env, s, target.value, tls).what);
    }
  }

  // ---------- in the clear ----------

  lemma {:induction false} WritingTakesSteps(env: Env, s: Session, n: nat)
    ensures Written(env, s, n).step >= s.step
    decreases n
  {
    if n > 0 && Write(env.peer, s).what {
      WritingTakesSteps(env, Write(env.peer, s).session, n - 1);
    }
  }

  lemma GenericReads(env: Env, s: Session)
    ensures var read := GenericRead(env, s);
      && Adds(env, s, Close(read.session), if read.what == [] then [] else [env.text(read.what)])
      && (Plainly(env, read.session.trace) ==> !LooksLikeTls(read.what))
  {
    hide Adds, ReadPort, LooksLikeTls, Plainly;
    var written := Written(env, s, env.generic);
    WritingTakesSteps(env, s, env.generic);
    var read := ReadPort(env.peer, env.path, written, Words, PROBE_READ_TIMEOUT, CONTINUATION_GRACE);
    ReadSays(env, written, Words, PROBE_READ_TIMEOUT, CONTINUATION_GRACE);
    var lines := if read.what == [] then [] else [env.text(read.what)];
    AddsAround(env, s, written, read.session, Close(read.session), lines);
  }

  lemma GenericSpeaks(env: Env, s: Session, addressed: bool)
    requires AskedGenerically(env, s, addressed).what.Spoke?
    ensures var r := AskedGenerically(env, s, addressed); Adds(env, s, r.session, r.what.banners)
  {
    hide Adds, ReadPort, Fetched, LooksLikeTls, Leads, Plainly;
    GenericReads(env, s);
    var read := GenericRead(env, s);
    var closed := Close(read.session);
    var first := env.text(read.what);
    var target := Leads(env, first);
    if addressed && target.Some? {
      FetchedSays(env, closed, target.value, false);
      var page := Fetched(env, closed, target.value, false);
      AddsTwice(env, s, closed, page.session, [first], Items(page.what));
      assert [first] + Items(page.what) == if page.what.None? then [first] else [first, page.what.value];
    }
  }

  /** The generic question returns all its reply, unless that is TLS. */
  lemma GenericSays(env: Env, s: Session, addressed: bool) returns (lost: seq<string>)
    ensures var r := AskedGenerically(env, s, addressed);
      && Adds(env, s, r.session, if r.what.Spoke? then r.what.banners else lost)
      && (r.what.Silent? ==> lost == [])
      && (r.what.AnsweredTls? ==> !Plainly(env, r.session.trace))
  {
    var r := AskedGenerically(env, s, addressed);
    lost := [];
    if r.what.Spoke? {
      hide AskedGenerically;
      GenericSpeaks(env, s, addressed);
    } else {
      hide Adds, ReadPort, Fetched, LooksLikeTls, Leads, Plainly;
      GenericReads(env, s);
      var read := GenericRead(env, s);
      lost := if read.what == [] then [] else [env.text(read.what)];
    }
  }

  lemma ReconnectedSays(env: Env, s: Session, held: bool, addressed: bool)
    ensures Adds(env, s, Reconnected(env, s, held, addressed).session, [])
  {
    hide Adds, Dial;
    if addressed {
      var from := if held then Close(s) else s;
      var dialled := Dial(env.peer, env.path, from).session;
      DialSays(env, from);
      AddsAround(env, s, from, dialled, dialled, []);
    } else {
      AddsNothing(env, s, s);
    }
  }

  lemma {:induction false} OthersAskedSays(env: Env, s: Session, services: seq<nat>, held: bool, addressed: bool)
    ensures var r := OthersAsked(env, s, services, held, addressed); Adds(env, s, r.session, r.what)
    decreases |services|
  {
    hide Adds, Reconnected, AskedInTurn;
    if services == [] {
      AddsNothing(env, s, Dropped(s, held));
    } else {
      var connected := Reconnected(env, s, held, addressed);
      ReconnectedSays(env, s, held, addressed);
      if connected.what {
        var asked := AskedInTurn(env, connected.session, services[0]);
        AskedInTurnSays(env, connected.session, services[0]);
        AddsAfterNothing(env, s, connected.session, asked.session, asked.what);
        var rest := OthersAsked(env, asked.session, services[1..], true, addressed);
        OthersAskedSays(env, asked.session, services[1..], true, addressed);
        AddsTwice(env, s, asked.session, rest.session, asked.what, rest.what);
      }
    }
  }

  lemma OpenedWithSays(env: Env, s: Session, addressed: bool) returns (lost: seq<string>)
    ensures var r := OpenedWith(env, s, addressed);
      && Adds(env, s, r.session, if r.what.Opening? then r.what.banners else lost)
      && (r.what.SpokeTls? ==> !Plainly(env, r.session.trace))
  {
    hide Collected, AskedGenerically, TextLooksLikeTls, LooksLikeTls, Said, Plainly;
    if env.named && env.conversations != [] {
      var own := Collected(env, s, env.conversations[0], !env.askedFirst);
      CollectedSays(env, s, env.conversations[0], !env.askedFirst);
      lost := if own.what != [] && TextLooksLikeTls(own.what[0]) then own.what else [];
      if own.what != [] && Plainly(env, own.session.trace) {
        PlainlySaid(env, own.session.trace);
        assert own.what[0] in Said(env, own.session.trace);
      }
    } else {
      lost := GenericSays(env, s, addressed);
    }
  }

  /** Everything said in the clear is returned, unless it opened as TLS and nothing is. */
  lemma InTheClearSays(env: Env, s: Session, addressed: bool) returns (lost: seq<string>)
    ensures var r := InTheClear(env, s, addressed);
      && Adds(env, s, r.session, lost + r.what)
      && (lost == [] || r.what == [])
      && (Plainly(env, r.session.trace) ==> lost == [])
  {
    hide Adds, OpenedWith, OthersAsked, WithRedirect, Plainly;
    var opening := OpenedWith(env, s, addressed);
    lost := OpenedWithSays(env, s, addressed);
    assert lost + [] == lost;
    if opening.what.Opening? {
      lost := [];
      var own := opening.what.banners;
      var theirs := OthersAsked(env, opening.session, opening.what.rest, opening.what.held, addressed);
      OthersAskedSays(env, opening.session, opening.what.rest, opening.what.held, addressed);
      AddsTwice(env, s, opening.session, theirs.session, own, theirs.what);
      var banners := if env.named then own + theirs.what else theirs.what;
      var page := WithRedirectSays(env, theirs.session, banners, addressed, false);
      var r := WithRedirect(env, theirs.session, banners, addressed, false);
      AddsTwice(env, s, theirs.session, r.session, own + theirs.what, page);
      assert own + (theirs.what + page) == own + theirs.what + page;
      assert lost + InTheClear(env, s, addressed).what == own + theirs.what + page;
    }
  }

  // ---------- through TLS, and at last ----------

  lemma RetunneledSays(env: Env, s: Session)
    ensures Adds(env, s, Retunneled(env, s).session, [])
  {
    hide Adds, Dial, Handshake;
    var dialled := Dial(env.peer, env.path, s);
    DialSays(env, s);
    if dialled.what {
      HandshakeSays(env, dialled.session, TLS_HANDSHAKE_TIMEOUT);
      AddsAfterNothing(env, s, dialled.session, Retunneled(env, s).session, []);
    }
  }

  lemma {:induction false} OthersTunneledSays(env: Env, s: Session, services: seq<nat>)
    ensures var r := OthersTunneled(env, s, services); Adds(env, s, r.session, r.what)
    decreases |services|
  {
    hide Adds, Retunneled, AskedInTurn;
    AddsNothing(env, s, Close(s));
    if services != [] {
      var tunnel := Retunneled(env, Close(s));
      RetunneledSays(env, Close(s));
      AddsAfterNothing(env, s, Close(s), tunnel.session, []);
      if tunnel.what {
        var asked := AskedInTurn(env, tunnel.session, services[0]);
        AskedInTurnSays(env, tunnel.session, services[0]);
        AddsAfterNothing(env, s, tunnel.session, asked.session, asked.what);
        var rest := OthersTunneled(env, asked.session, services[1..]);
        OthersTunneledSays(env, asked.session, services[1..]);
        AddsTwice(env, s, asked.session, rest.session, asked.what, rest.what);
      }
    }
  }

  lemma OwnTunneledSays(env: Env, s: Session)
    ensures var r := OwnTunneled(env, s); Adds(env, s, r.session, r.what)
  {
    hide Adds, Collected;
    if env.conversations == [] {
      CollectedSays(env, s, env.generic, false);
    } else {
      CollectedSays(env, s, env.conversations[0], !env.askedFirst);
    }
  }

  /** Everything said through a tunnel is returned. */
  lemma ThroughTunnelSays(env: Env, s: Session, handshake: Option<TlsInfo>)
    ensures var r := ThroughTunnel(env, s, handshake); Adds(env, s, r.session, r.what.banners)
  {
    hide Adds, OwnTunneled, OthersTunneled, WithRedirect;
    if handshake.None? {
      AddsNothing(env, s, s);
    } else {
      var own := OwnTunneled(env, s);
      OwnTunneledSays(env, s);
      var theirs := OthersTunneled(env, own.session, OtherServices(env));
      OthersTunneledSays(env, own.session, OtherServices(env));
      AddsTwice(env, s, own.session, theirs.session, own.what, theirs.what);
      var page := WithRedirectSays(env, theirs.session, own.what + theirs.what, true, true);
      AddsTwice(env, s, theirs.session, ThroughTunnel(env, s, handshake).session, own.what + theirs.what, page);
    }
  }

  lemma ShakenSays(env: Env, s: Session, budget: nat)
    ensures var r := Shaken(env, s, budget);
      && Adds(env, s, r.session, r.what.responses.banners)
      && (!r.what.responses.IsEmpty() ==> r.session.tlsHeard)
  {
    hide Said, Tallied, Handshake, OwnTunneled, OthersTunneled, WithRedirect;
    var shaken := Handshake(env.peer, env.path, s, budget);
    HandshakeSays(env, s, budget);
    var through := ThroughTunnel(env, shaken.session, shaken.what);
    ThroughTunnelSays(env, shaken.session, shaken.what);
    AddsAfterNothing(env, s, shaken.session, through.session, through.what.banners);
  }

  lemma GuessedSays(env: Env, s: Session)
    ensures var r := Guessed(env, s); Adds(env, s, r.session, r.what)
  {
    hide Adds, ReadPort;
    var wrote := Write(env.peer, s);
    if wrote.what {
      var r := Guessed(env, s);
      var read := ReadPort(env.peer, env.path, wrote.session, Words, PROBE_READ_TIMEOUT, CONTINUATION_GRACE);
      ReadSays(env, wrote.session, Words, PROBE_READ_TIMEOUT, CONTINUATION_GRACE);
      AddsAround(env, s, wrote.session, read.session, r.session, r.what);
    } else {
      AddsNothing(env, s, Close(wrote.session));
    }
  }

  lemma {:induction false} GuessesSay(env: Env, s: Session, n: nat, inHand: bool)
    ensures var r := GuessesAsked(env, s, n, inHand); Adds(env, s, r.session, r.what)
    decreases n
  {
    hide Adds, Dial, Guessed;
    AddsNothing(env, s, Dropped(s, inHand));
    if n > 0 {
      var connected := if inHand then Drew(true, s) else Dial(env.peer, env.path, s);
      AddsNothing(env, s, s);
      DialSays(env, s);
      if connected.what {
        var guess := Guessed(env, connected.session);
        GuessedSays(env, connected.session);
        AddsAfterNothing(env, s, connected.session, guess.session, guess.what);
        var rest := GuessesAsked(env, guess.session, n - 1, false);
        GuessesSay(env, guess.session, n - 1, false);
        AddsTwice(env, s, guess.session, rest.session, guess.what, rest.what);
      }
    }
  }

  // ---------- the ladder ----------

  /** What a stage returned of what was said during it: the last of it, and all of it in plain. */
  ghost predicate Returns(env: Env, s: Session, t: Session, lost: seq<string>, lines: seq<string>) {
    Adds(env, s, t, lost + lines) && (InPlain(env, t) ==> lost == [])
  }

  lemma AskedSays(env: Env, s: Session, rung: Rung) returns (lost: seq<string>)
    ensures var r := Asked(env, s, rung);
      && Returns(env, s, r.session, lost, r.what.responses.banners)
      && (r.what.responses.tls.Some? ==> r.session.tlsHeard)
  {
    hide Adds, Shaken, Legacy, InTheClear, GuessesAsked, Plainly;
    var t := s.(rungs := s.rungs + 1);
    lost := [];
    match rung {
      case TlsRung => ShakenSays(env, t, TLS_HANDSHAKE_TIMEOUT);
      case SpeculativeTls => ShakenSays(env, t, SPECULATIVE_TLS_TIMEOUT);
      case LegacyTls => LegacySays(env, t);
      case PlaintextRung => lost := InTheClearSays(env, t, true);
      case LastResortRung => GuessesSay(env, t, Guesses(env), true);
    }
    var r := Asked(env, s, rung);
    var banners := r.what.responses.banners;
    assert lost == [] ==> lost + banners == banners;
    AddsAround(env, s, t, r.session, r.session, lost + banners);
  }

  /** A port asked through TLS gives what it said there, or what it had said in the clear and nothing since. */
  lemma AskedThroughTlsSays(env: Env, s: Session, clear: ResponseSet)
    ensures var r := AskedThroughTls(env, s, clear);
      || (r.what.responses.banners == clear.banners && Adds(env, s, r.session, []))
      || (r.session.tlsHeard && Adds(env, s, r.session, r.what.responses.banners))
  {
    hide Adds, Dial, Shaken, Legacy;
    var first := Dial(env.peer, env.path, s);
    DialSays(env, s);
    if first.what {
      var through := Shaken(env, first.session, SPECULATIVE_TLS_TIMEOUT);
      ShakenSays(env, first.session, SPECULATIVE_TLS_TIMEOUT);
      AddsAfterNothing(env, s, first.session, through.session, through.what.responses.banners);
      if through.what.responses.IsEmpty() {
        var second := Dial(env.peer, env.path, through.session);
        DialSays(env, through.session);
        AddsAfterNothing(env, s, through.session, second.session, []);
        if second.what {
          LegacySays(env, second.session);
          AddsAfterNothing(env, s, second.session, Legacy(env.peer, env.path, second.session).session, []);
        }
      }
    }
  }

  /** A refusal held has nothing to say, and was heard in TLS. */
  ghost predicate HeldInTls(t: Session, refused: Option<ResponseSet>) {
    refused.Some? ==> refused.value.banners == [] && t.tlsHeard
  }

  lemma SettledSays(env: Env, s: Session, rung: Rung, refused: Option<ResponseSet>) returns (lost: seq<string>)
    requires HeldInTls(s, refused)
    ensures match Settled(env, rung, refused, Asked(env, s, rung))
      case Stop(outcome) => Returns(env, s, outcome.session, lost, outcome.what.responses.banners)
      case Climb(t, held) => Returns(env, s, t, lost, []) && HeldInTls(t, held)
  {
    var asked := Asked(env, s, rung);
    var dropped := AskedSays(env, s, rung);
    var banners := asked.what.responses.banners;
    hide Asked, AskedThroughTls, RefusedInTheClear, Said, Plainly;
    assert banners == [] ==> dropped + banners == dropped == dropped + [];
    assert (dropped + banners) + [] == dropped + banners;
    lost := dropped;
    match Settled(env, rung, refused, asked) {
      case Stop(outcome) =>
        if refused.Some? {
          lost := if outcome.what.responses.banners == [] then dropped + banners else dropped;
        } else if rung.PlaintextRung? && !env.tlsPort && RefusedInTheClear(banners) {
          AskedThroughTlsSays(env, asked.session, asked.what.responses);
          lost := ThroughTlsInstead(env, s, asked, dropped);
        }
      case Climb(_, _) =>
    }
  }

  lemma ThroughTlsInstead(env: Env, s: Session, asked: Drew<Outcome>, dropped: seq<string>) returns (lost: seq<string>)
    requires Returns(env, s, asked.session, dropped, asked.what.responses.banners)
    ensures var r := AskedThroughTls(env, asked.session, asked.what.responses);
      Returns(env, s, r.session, lost, r.what.responses.banners)
  {
    hide Adds, AskedThroughTls, Plainly;
    var banners := asked.what.responses.banners;
    var r := AskedThroughTls(env, asked.session, asked.what.responses);
    AskedThroughTlsSays(env, asked.session, asked.what.responses);
    if r.what.responses.banners == banners && Adds(env, asked.session, r.session, []) {
      AddsTwice(env, s, asked.session, r.session, dropped + banners, []);
      assert (dropped + banners) + [] == dropped + banners;
      lost := dropped;
      if InPlain(env, r.session) { StillPlain(env, asked.session, r.session, []); }
    } else {
      AddsTwice(env, s, asked.session, r.session, dropped + banners, r.what.responses.banners);
      lost := dropped + banners;
    }
  }

  lemma {:induction false} WalkedSays(
      env: Env, s: Session, rungs: seq<Rung>, inHand: bool, refused: Option<ResponseSet>)
    returns (lost: seq<string>)
    requires HeldInTls(s, refused)
    ensures var r := Walked(env, s, rungs, inHand, refused);
      Returns(env, s, r.session, lost, r.what.responses.banners)
    decreases |rungs|
  {
    hide Said, Tallied, Dial, Asked, Settled, Plainly;
    lost := [];
    AddsNothing(env, s, Dropped(s, inHand));
    if rungs != [] {
      var connected := if inHand then Drew(true, s) else Dial(env.peer, env.path, s);
      AddsNothing(env, s, s);
      DialSays(env, s);
      if connected.what {
        lost := SettledSays(env, connected.session, rungs[0], refused);
        match Settled(env, rungs[0], refused, Asked(env, connected.session, rungs[0])) {
          case Stop(outcome) =>
            AddsAfterNothing(env, s, connected.session, outcome.session, lost + outcome.what.responses.banners);
          case Climb(t, held) =>
            var more := WalkedSays(env, t, rungs[1..], false, held);
            lost := ClimbedOn(env, s, connected.session, t, lost, Walked(env, t, rungs[1..], false, held), more);
        }
      } else {
        AddsAround(env, s, s, connected.session, connected.session.(stranded := true), []);
      }
    }
  }

  lemma ClimbedOn(
      env: Env, s: Session, c: Session, t: Session, before: seq<string>, r: Drew<Outcome>, more: seq<string>)
    returns (lost: seq<string>)
    requires Adds(env, s, c, []) && Returns(env, c, t, before, [])
    requires Returns(env, t, r.session, more, r.what.responses.banners)
    ensures Returns(env, s, r.session, lost, r.what.responses.banners)
  {
    hide Adds, Plainly;
    var banners := r.what.responses.banners;
    assert before + [] == before;
    AddsAfterNothing(env, s, c, t, before);
    AddsTwice(env, s, t, r.session, before, more + banners);
    assert before + (more + banners) == (before + more) + banners;
    lost := before + more;
    if InPlain(env, r.session) { StillPlain(env, t, r.session, more + banners); }
  }

  /**
   * Contents. On every run what is returned is the last of what the port said, in the order it
   * was said: nothing is invented, repeated, reordered, or dropped from inside. And where TLS was
   * never spoken it is all the port said.
   */
  lemma WhatIsReturnedWasSaidLast(env: Env) returns (before: seq<string>)
    ensures var r := Gathered(env, OPENED);
      && Said(env, r.session.trace) == before + r.what.responses.banners
      && (!r.session.tlsHeard && Plainly(env, r.session.trace) ==> before == [])
  {
    hide Gathered, Said, Tallied, Plainly;
    before := GatheredSays(env);
  }

  lemma GatheredReturns(env: Env) returns (before: seq<string>)
    ensures var r := Gathered(env, OPENED); Returns(env, OPENED, r.session, before, r.what.responses.banners)
  {
    hide InTheClear, Walked, ReadPort, Adds, Plainly;
    before := [];
    if env.level.Off? {
      AddsNothing(env, OPENED, Close(OPENED));
      assert before + [] == [];
    } else if env.level.Banner? {
      var read := ReadPort(env.peer, env.path, OPENED, Words, BANNER_READ_TIMEOUT, 0);
      ReadSays(env, OPENED, Words, BANNER_READ_TIMEOUT, 0);
      var banners := Gathered(env, OPENED).what.responses.banners;
      AddsAround(env, OPENED, OPENED, read.session, Close(read.session), banners);
      assert [] + banners == banners;
    } else if !env.addressKnown {
      before := InTheClearSays(env, OPENED, false);
    } else {
      before := WalkedSays(env, OPENED, Ladder(env), true, None);
    }
  }

  lemma GatheredSays(env: Env) returns (before: seq<string>)
    ensures var r := Gathered(env, OPENED);
      && Said(env, r.session.trace) == before + r.what.responses.banners
      && (InPlain(env, r.session) ==> before == [])
      && Tallied(env, r.session)
  {
    assert Said(env, OPENED.trace) == [] && Tallied(env, OPENED);
    hide Gathered, Said, Tallied, InPlain;
    before := GatheredReturns(env);
    var banners := Gathered(env, OPENED).what.responses.banners;
    assert [] + (before + banners) == before + banners;
  }

  /**
   * The tally. On every run the time told of as waited in vain is the sum, over the reads and
   * handshakes made, of what each was given, where the peer let all of it pass with nothing
   * arriving or settling. Connections and the legacy probe add nothing, and no operation counts twice.
   */
  lemma TheTallyIsWhatWasLeftUnanswered(env: Env)
    ensures var after := Gathered(env, OPENED).session;
      && after.inVain == AllUnanswered(env.peer, after.trace)
      && (forall i, j | 0 <= i < j < |after.trace| :: after.trace[i].step < after.trace[j].step)
  {
    hide Gathered;
    var before := GatheredSays(env);
  }
}
