/**
 * The closed forms are exact: on every port of a corpus that gives each conversation a probe,
 * behind every path, some peer takes all of the time and some peer all of the waits.
 */
module Attained {
  import opened Wrappers
  import opened Reading
  import opened Network
  import opened Http
  import opened Decoding
  import opened Collect
  import opened Bounds
  import opened Runs
  import opened Clocks
  import opened Walks
  import opened Slowest
  import opened SlowStages

  // ---------- one rung ----------

  /** The connection a rung is asked on. */
  function Connected(env: Env, s: Session, inHand: bool): Session {
    if inHand then s else Dial(env.peer, env.path, s).session
  }

  function Connecting(inHand: bool): Cost {
    if inHand then NO_COST else DIALLED
  }

  lemma SlowConnected(p: Script, s: Session, inHand: bool)
    ensures On(p.d(), s, Connected(p.Facing(), s, inHand), Connecting(inHand))
    ensures inHand || Dial(p.Facing().peer, p.Facing().path, s).what
  {
    hide Dial, On;
    OnAtOnce(p.d(), s, s);
    SlowDial(p, s);
  }

  /** A rung that settles the climb, and one that is climbed past, with nothing held. */
  lemma ARungSettles(p: Script, s: Session, rungs: seq<Rung>, inHand: bool)
    requires rungs != []
    ensures var env := p.Facing(); var c := Connected(env, s, inHand);
      match Settled(env, rungs[0], None, Asked(env, c, rungs[0]))
      case Stop(outcome) => Walked(env, s, rungs, inHand, None) == outcome
      case Climb(t, held) => Walked(env, s, rungs, inHand, None) == Walked(env, t, rungs[1..], false, held)
  {
    hide Dial, Asked, Settled;
    SlowConnected(p, s, inHand);
  }

  /** A rung that falls through leads on from `t`. */
  ghost predicate Falls(p: Script, s: Session, rungs: seq<Rung>, inHand: bool, t: Session, cost: Cost)
    requires rungs != []
  {
    && Walked(p.Facing(), s, rungs, inHand, None) == Walked(p.Facing(), t, rungs[1..], false, None)
    && On(p.d(), s, t, cost) && t.step == s.step + cost.steps
  }

  /** A TLS rung whose handshake does not complete. */
  lemma AHandshakeFalls(p: Script, s: Session, rungs: seq<Rung>, inHand: bool) returns (t: Session)
    requires rungs != [] && (rungs[0].TlsRung? || rungs[0].SpeculativeTls?)
    requires Legible(p.port) && Probed(p.port) && !p.completes && p.shake == 0
    ensures var budget := if rungs[0].TlsRung? then TLS_HANDSHAKE_TIMEOUT else SPECULATIVE_TLS_TIMEOUT;
      Falls(p, s, rungs, inHand, t, Connecting(inHand).Then(Cost(1, budget, 1)))
  {
    hide Shaken, On, Dial, Walked, Script.Facing, Legible;
    ARungSettles(p, s, rungs, inHand);
    SlowConnected(p, s, inHand);
    var c := Connected(p.Facing(), s, inHand);
    StepsOn(p.d(), s, c, Connecting(inHand));
    var budget := if rungs[0].TlsRung? then TLS_HANDSHAKE_TIMEOUT else SPECULATIVE_TLS_TIMEOUT;
    var asked := c.(rungs := c.rungs + 1);
    SlowShaken(p, asked, budget);
    t := Shaken(p.Facing(), asked, budget).session;
    OnAgain(p.d(), c, asked, t, Cost(1, budget, 1));
    OnTwice(p.d(), s, c, t, Connecting(inHand), Cost(1, budget, 1));
    StepsOn(p.d(), c, t, Cost(1, budget, 1));
  }

  lemma OnAgain(d: nat, s: Session, s': Session, t: Session, cost: Cost)
    requires s'.step == s.step && s'.clock == s.clock && s'.waits == s.waits
    ensures On(d, s', t, cost) <==> On(d, s, t, cost)
  {
  }

  /** The legacy rung, where it hears nothing. */
  lemma TheLegacyFalls(p: Script, s: Session, rungs: seq<Rung>) returns (t: Session)
    requires rungs != [] && rungs[0].LegacyTls? && p.shake == 0
    ensures Falls(p, s, rungs, false, t, DIALLED.Then(Cost(1, LEGACY_PROBE_TIMEOUT, 1)))
  {
    hide Legacy, On, Dial, Walked, Script.Facing;
    ARungSettles(p, s, rungs, false);
    SlowConnected(p, s, false);
    var c := Connected(p.Facing(), s, false);
    StepsOn(p.d(), s, c, DIALLED);
    var asked := c.(rungs := c.rungs + 1);
    SilentLegacy(p, asked);
    var heard := Legacy(p.Facing().peer, p.Facing().path, asked);
    t := heard.session;
    OnAgain(p.d(), c, asked, t, Cost(1, LEGACY_PROBE_TIMEOUT, 1));
    OnTwice(p.d(), s, c, t, DIALLED, Cost(1, LEGACY_PROBE_TIMEOUT, 1));
    StepsOn(p.d(), c, t, Cost(1, LEGACY_PROBE_TIMEOUT, 1));
  }

  lemma SilentLegacy(p: Script, s: Session)
    requires p.shake == 0
    ensures var r := Legacy(p.Facing().peer, p.Facing().path, s);
      r.what == None && On(p.d(), s, r.session, Cost(1, LEGACY_PROBE_TIMEOUT, 1))
  {
    hide Legacy, On;
    SlowLegacy(p, s);
  }

  /** The clear, asked as a rung. */
  lemma TheClearIsAsked(p: Script, s: Session, inHand: bool, voice: Voice) returns (r: Drew<Outcome>)
    requires Legible(p.port) && Probed(p.port) && Cued(p, s.step + Connecting(inHand).steps, voice)
    ensures r == Asked(p.Facing(), Connected(p.Facing(), s, inHand), PlaintextRung)
    ensures Drawn(r.what.responses.banners, voice)
    ensures r.what == Outcome(ResponseSet(r.what.responses.banners, None), None)
    ensures On(p.d(), s, r.session, Connecting(inHand).Then(ClearCost(p.port, voice)))
  {
    hide InTheClear, On, Dial, Script.Facing, Legible, Cued, Drawn, ClearCost, Probed;
    SlowConnected(p, s, inHand);
    var c := Connected(p.Facing(), s, inHand);
    StepsOn(p.d(), s, c, Connecting(inHand));
    var asked := c.(rungs := c.rungs + 1);
    SlowClear(p, asked, voice);
    r := Asked(p.Facing(), c, PlaintextRung);
    OnAgain(p.d(), c, asked, r.session, ClearCost(p.port, voice));
    OnTwice(p.d(), s, c, r.session, Connecting(inHand), ClearCost(p.port, voice));
  }

  /** Silence, or an alert, is climbed past. */
  lemma TheClearFalls(p: Script, s: Session, rungs: seq<Rung>, inHand: bool, voice: Voice) returns (t: Session)
    requires rungs != [] && rungs[0].PlaintextRung? && (voice.Mute? || voice.Alerting?)
    requires Legible(p.port) && Probed(p.port) && Cued(p, s.step + Connecting(inHand).steps, voice)
    ensures Falls(p, s, rungs, inHand, t, Connecting(inHand).Then(ClearCost(p.port, voice)))
  {
    hide Asked, On, Dial, Walked, Script.Facing, Legible, Cued, ClearCost, Probed;
    ARungSettles(p, s, rungs, inHand);
    var asked := TheClearIsAsked(p, s, inHand, voice);
    t := asked.session;
    StepsOn(p.d(), s, t, Connecting(inHand).Then(ClearCost(p.port, voice)));
  }

  /** An answer that is no refusal ends the climb. */
  lemma AnAnswerStops(p: Script, s: Session, rungs: seq<Rung>, inHand: bool)
    requires rungs != [] && rungs[0].PlaintextRung?
    requires Legible(p.port) && Probed(p.port) && p.turn <= s.step
    ensures On(p.d(), s, Walked(p.Facing(), s, rungs, inHand, None).session,
               Connecting(inHand).Then(ClearCost(p.port, Redirecting)))
  {
    hide Asked, On, Dial, Walked, Script.Facing, Legible, ClearCost, Probed, Refuses, Voiced, RedirectPath, SpeaksHttp;
    ARungSettles(p, s, rungs, inHand);
    var asked := TheClearIsAsked(p, s, inHand, Redirecting);
    VoicesAre(Redirecting, asked.what.responses.banners[0], _ => true);
  }

  /** A refusal, off the ports numbered for TLS, goes on through TLS. */
  lemma ARefusalGoesOn(p: Script, rungs: seq<Rung>)
    requires rungs != [] && rungs[0].PlaintextRung? && !p.port.tlsPort
    requires Legible(p.port) && Probed(p.port) && Cued(p, 0, Refusing)
    requires if p.completes then p.shake == ClearCost(p.port, Refusing).steps + 2 else p.shake == 0
    ensures On(p.d(), OPENED, Walked(p.Facing(), OPENED, rungs, true, None).session,
               NO_COST.Then(ClearCost(p.port, Refusing)).Then(ThroughTlsCost(p)))
  {
    hide Asked, On, Dial, Walked, Script.Facing, Legible, ClearCost, Probed, Refuses, Voiced, Cued, AskedThroughTls,
         ThroughTlsCost, TextLooksLikeTls, SpeaksHttp, RedirectPath;
    FacingIs(p);
    ARungSettles(p, OPENED, rungs, true);
    var asked := TheClearIsAsked(p, OPENED, true, Refusing);
    VoicesAre(Refusing, asked.what.responses.banners[0], _ => true);
    var clear := NO_COST.Then(ClearCost(p.port, Refusing));
    StepsOn(p.d(), OPENED, asked.session, clear);
    CuesEnd(p);
    SlowThroughTls(p, asked.session, asked.what.responses);
    OnTwice(p.d(), OPENED, asked.session, AskedThroughTls(p.Facing(), asked.session, asked.what.responses).session,
            clear, ThroughTlsCost(p));
  }

  lemma CuesEnd(p: Script)
    requires Cued(p, 0, Refusing)
    ensures p.turn <= ClearCost(p.port, Refusing).steps
  {
  }

  /** Through TLS after a refusal: the tunnel where handshakes complete, and else the legacy probe. */
  function ThroughTlsCost(p: Script): Cost {
    DIALLED.Then(
      if p.completes then Cost(1, SPECULATIVE_TLS_TIMEOUT, 1).Then(TunnelCost(p.port))
      else Cost(1, SPECULATIVE_TLS_TIMEOUT, 1).Then(DIALLED.Then(Cost(1, LEGACY_PROBE_TIMEOUT, 1))))
  }

  lemma SlowThroughTls(p: Script, s: Session, clear: ResponseSet)
    requires Legible(p.port) && Probed(p.port) && p.turn <= s.step
    requires if p.completes then p.shake == s.step + 2 else p.shake == 0
    ensures On(p.d(), s, AskedThroughTls(p.Facing(), s, clear).session, ThroughTlsCost(p))
  {
    hide Dial, Shaken, On, Legacy, Script.Facing, Legible, TunnelCost, Probed;
    SlowConnected(p, s, false);
    var env := p.Facing();
    var first := Connected(env, s, false);
    StepsOn(p.d(), s, first, DIALLED);
    SlowShaken(p, first, SPECULATIVE_TLS_TIMEOUT);
    var through := Shaken(env, first, SPECULATIVE_TLS_TIMEOUT);
    var shaking := Cost(1, SPECULATIVE_TLS_TIMEOUT, 1);
    if p.completes {
      OnTwice(p.d(), s, first, through.session, DIALLED, shaking.Then(TunnelCost(p.port)));
    } else {
      SlowConnected(p, through.session, false);
      var second := Connected(env, through.session, false);
      SilentLegacy(p, second);
      var heard := Legacy(env.peer, env.path, second).session;
      OnTwice(p.d(), through.session, second, heard, DIALLED, Cost(1, LEGACY_PROBE_TIMEOUT, 1));
      OnTwice(p.d(), first, through.session, heard, shaking, DIALLED.Then(Cost(1, LEGACY_PROBE_TIMEOUT, 1)));
      OnTwice(p.d(), s, first, heard, DIALLED, shaking.Then(DIALLED.Then(Cost(1, LEGACY_PROBE_TIMEOUT, 1))));
    }
  }

  /** The last rung ends the climb, whatever it draws. */
  lemma TheLastRungIsLast(env: Env, c: Session, n: nat)
    requires n == Guesses(env)
    ensures var last := GuessesAsked(env, c.(rungs := c.rungs + 1), n, true).session;
      match Settled(env, LastResortRung, None, Asked(env, c, LastResortRung))
      case Stop(outcome) => outcome.session == last
      case Climb(t, held) => Walked(env, t, [], false, held).session == last
  {
    hide GuessesAsked, Guesses;
  }

  /** The last rung, every guess answered. */
  lemma TheLastRungEnds(p: Script, s: Session, rungs: seq<Rung>)
    requires rungs == [LastResortRung] && Legible(p.port) && p.turn <= s.step
    ensures On(p.d(), s, Walked(p.Facing(), s, rungs, false, None).session,
               DIALLED.Then(GuessCost(Guesses(p.port), true)))
  {
    assert Guesses(p.Facing()) == Guesses(p.port);
    hide GuessesAsked, Guesses, On, Dial, Script.Facing, Legible, GuessCost, Walked, Settled, Asked;
    ARungSettles(p, s, rungs, false);
    SlowConnected(p, s, false);
    var env := p.Facing();
    var c := Connected(env, s, false);
    StepsOn(p.d(), s, c, DIALLED);
    var asked := c.(rungs := c.rungs + 1);
    var n := Guesses(p.port);
    TheLastRungIsLast(env, c, n);
    SlowGuesses(p, asked, n, true);
    var last := GuessesAsked(env, asked, n, true).session;
    OnAgain(p.d(), c, asked, last, GuessCost(n, true));
    OnTwice(p.d(), s, c, last, DIALLED, GuessCost(n, true));
    assert rungs[1..] == [];
  }

  // ---------- the walks ----------

  /** A port collected from, each of its conversations with a probe, and read as the engine reads. */
  ghost predicate Plays(port: Env) {
    Collects(port) && Probed(port) && Legible(port)
  }

  /** Every port the engine reads no structure on plays so, under its own decoder and whoever judges URLs. */
  lemma PortsWithoutStructurePlay(
      peer: Peer, path: Path, level: Level, tlsPort: bool, named: bool, askedFirst: bool, conversations: seq<nat>,
      generic: nat, universal: nat, leadsBack: (bool, string) -> bool)
    requires level.Probe? || level.Thorough?
    requires forall i | 0 <= i < |conversations| :: conversations[i] > 0
    ensures Plays(Env(peer, path, level, true, tlsPort, named, askedFirst, conversations, generic, universal,
                      _ => [], ReplyText, leadsBack))
  {
    hide Legible;
    TheEngineReadsSo(Env(peer, path, level, true, tlsPort, named, askedFirst, conversations, generic, universal,
                         _ => [], ReplyText, leadsBack));
  }

  /** A run against the peer of `p` takes `ms` and `waits`, and nothing else but the path. */
  ghost predicate Takes(p: Script, ms: nat, waits: nat) {
    var after := Gathered(p.Facing(), OPENED).session;
    after.waits == waits && after.clock == ms + waits * p.d()
  }

  lemma TakesWhatItCosts(p: Script, cost: Cost)
    requires Plays(p.port)
    requires On(p.d(), OPENED, Walked(p.Facing(), OPENED, Ladder(p.Facing()), true, None).session, cost)
    ensures Takes(p, cost.ms, cost.waits)
  {
    hide Walked, Ladder, Legible;
  }

  /** The rungs of the ladder, after the first ones. */
  lemma TheRungsOf(p: Script)
    ensures var l := Ladder(p.Facing());
      if p.port.tlsPort
      then && |l| == 4 && l[0] == TlsRung && l[1..] != [] && l[1..][0] == LegacyTls
           && l[1..][1..] != [] && l[1..][1..][0] == PlaintextRung && l[1..][1..][1..] == [LastResortRung]
      else && |l| == 3 && l[0] == PlaintextRung && l[1..] != [] && l[1..][0] == SpeculativeTls
           && l[1..][1..] == [LastResortRung]
  {
    TheRungs(p.Facing());
  }

  /** In the clear, off the ports numbered for TLS. */
  lemma ASpokenWalk(port: Env) returns (p: Script)
    requires Plays(port) && !port.tlsPort
    ensures p.port == port && Takes(p, SpokenMs(port), SpokenWaits(port))
  {
    hide Walked, Ladder, On, Legible, ClearCost, Takes, SpokenMs, SpokenWaits, Probed;
    p := Script(port, 0, Mute, 0, false);
    TheRungsOf(p);
    AnAnswerStops(p, OPENED, Ladder(p.Facing()), true);
    TakesWhatItCosts(p, NO_COST.Then(ClearCost(port, Redirecting)));
    TheClearCosts(port);
  }

  /** Refused in the clear, and asked again through TLS. */
  lemma ARefusedWalk(port: Env, completes: bool) returns (p: Script)
    requires Plays(port) && !port.tlsPort
    ensures p.port == port
    ensures if completes
      then Takes(p, RefusedMs(port) + CONNECT_RETRY_TIMEOUT + SPECULATIVE_TLS_TIMEOUT + TunnelMs(port),
                 RefusedWaits(port) + 2 + TunnelWaits(port))
      else Takes(p, RefusedMs(port) + 2 * CONNECT_RETRY_TIMEOUT + SPECULATIVE_TLS_TIMEOUT + LEGACY_PROBE_TIMEOUT,
                 RefusedWaits(port) + 4)
  {
    hide Walked, Ladder, On, Legible, Takes, RefusedMs, RefusedWaits, TunnelMs, TunnelWaits, Probed, TunnelCost;
    p := ARefusal(port, completes);
    hide ClearCost, Cued;
    TheRungsOf(p);
    ARefusalGoesOn(p, Ladder(p.Facing()));
    TakesWhatItCosts(p, NO_COST.Then(ClearCost(port, Refusing)).Then(ThroughTlsCost(p)));
    TheClearCosts(port);
    TheTunnelCosts(port);
  }

  function ARefusal(port: Env, completes: bool): (p: Script)
    ensures Cued(p, 0, Refusing)
  {
    Script(port, if AsksItsOwn(port) then ClearCost(port, Refusing).steps else port.generic + 1, Refusing,
           if completes then ClearCost(port, Refusing).steps + 2 else 0, completes)
  }

  /** Nothing kept in the clear, no handshake, and every guess answered. */
  lemma AGuessedWalk(port: Env, voice: Voice) returns (p: Script)
    requires Plays(port) && !port.tlsPort && (voice.Mute? || voice.Alerting?)
    ensures p.port == port
    ensures Takes(p, ClearCost(port, voice).ms + 2 * CONNECT_RETRY_TIMEOUT + SPECULATIVE_TLS_TIMEOUT
                     + GuessMs(Guesses(port), true),
                  ClearCost(port, voice).waits + 3 + GuessWaits(Guesses(port), true))
  {
    hide Walked, Ladder, On, Legible, Takes, Probed, ClearCost, GuessMs, GuessWaits, Guesses;
    p := Script(port, ClearCost(port, voice).steps, voice, 0, false);
    TheRungsOf(p);
    var l := Ladder(p.Facing());
    var t := TheClearFalls(p, OPENED, l, true, voice);
    var clear := NO_COST.Then(ClearCost(port, voice));
    var u := AHandshakeFalls(p, t, l[1..], false);
    var shaking := DIALLED.Then(Cost(1, SPECULATIVE_TLS_TIMEOUT, 1));
    TheLastRungEnds(p, u, l[1..][1..]);
    var guesses := DIALLED.Then(GuessCost(Guesses(port), true));
    var last := Walked(p.Facing(), u, l[1..][1..], false, None).session;
    OnTwice(p.d(), OPENED, t, u, clear, shaking);
    OnTwice(p.d(), OPENED, u, last, clear.Then(shaking), guesses);
    TakesWhatItCosts(p, clear.Then(shaking).Then(guesses));
  }

  // ---------- the walks of a port numbered for TLS ----------

  /** A tunnel at once. */
  lemma ATunnelWalk(port: Env) returns (p: Script)
    requires Plays(port) && port.tlsPort
    ensures p.port == port && Takes(p, TLS_HANDSHAKE_TIMEOUT + TunnelMs(port), 1 + TunnelWaits(port))
  {
    hide Walked, Ladder, On, Legible, Takes, Probed, TunnelCost, TunnelMs, TunnelWaits, Shaken;
    p := Script(port, 0, Mute, 0, true);
    TheRungsOf(p);
    var env := p.Facing();
    ARungSettles(p, OPENED, Ladder(env), true);
    var asked := OPENED.(rungs := 1);
    SlowShaken(p, asked, TLS_HANDSHAKE_TIMEOUT);
    var cost := Cost(1, TLS_HANDSHAKE_TIMEOUT, 1).Then(TunnelCost(port));
    OnAgain(p.d(), OPENED, asked, Shaken(env, asked, TLS_HANDSHAKE_TIMEOUT).session, cost);
    TakesWhatItCosts(p, cost);
    TheTunnelCosts(port);
  }

  const BOTH_FAILED := Cost(1, TLS_HANDSHAKE_TIMEOUT, 1).Then(DIALLED.Then(Cost(1, LEGACY_PROBE_TIMEOUT, 1)))

  /** Both handshakes failed. */
  lemma BothFail(p: Script) returns (t: Session)
    requires Plays(p.port) && p.port.tlsPort && !p.completes && p.shake == 0
    ensures var l := Ladder(p.Facing());
      && Walked(p.Facing(), OPENED, l, true, None) == Walked(p.Facing(), t, l[1..][1..], false, None)
      && On(p.d(), OPENED, t, BOTH_FAILED) && t.step == 3
  {
    hide Walked, Ladder, On, Legible, Probed;
    TheRungsOf(p);
    var l := Ladder(p.Facing());
    var shaking := NO_COST.Then(Cost(1, TLS_HANDSHAKE_TIMEOUT, 1));
    var u := AHandshakeFalls(p, OPENED, l, true);
    t := TheLegacyFalls(p, u, l[1..]);
    OnTwice(p.d(), OPENED, u, t, shaking, DIALLED.Then(Cost(1, LEGACY_PROBE_TIMEOUT, 1)));
  }

  /** And then an answer in the clear. */
  lemma AFailedThenSpokenWalk(port: Env) returns (p: Script)
    requires Plays(port) && port.tlsPort
    ensures p.port == port
    ensures Takes(p, BOTH_FAILED.ms + CONNECT_RETRY_TIMEOUT + SpokenMs(port), 4 + SpokenWaits(port))
  {
    hide Walked, Ladder, On, Legible, Takes, Probed, ClearCost, SpokenMs, SpokenWaits;
    p := Script(port, 0, Mute, 0, false);
    TheRungsOf(p);
    var t := BothFail(p);
    var l := Ladder(p.Facing());
    AnAnswerStops(p, t, l[1..][1..], false);
    var rest := DIALLED.Then(ClearCost(port, Redirecting));
    OnTwice(p.d(), OPENED, t, Walked(p.Facing(), t, l[1..][1..], false, None).session, BOTH_FAILED, rest);
    TakesWhatItCosts(p, BOTH_FAILED.Then(rest));
    TheClearCosts(port);
  }

  /** Or nothing kept there, and every guess answered. */
  lemma AFailedThenGuessedWalk(port: Env, voice: Voice) returns (p: Script)
    requires Plays(port) && port.tlsPort && (voice.Mute? || voice.Alerting?)
    ensures p.port == port
    ensures Takes(p, BOTH_FAILED.ms + 2 * CONNECT_RETRY_TIMEOUT + ClearCost(port, voice).ms
                     + GuessMs(Guesses(port), true),
                  5 + ClearCost(port, voice).waits + GuessWaits(Guesses(port), true))
  {
    hide Walked, Ladder, On, Legible, Takes, Probed, ClearCost, GuessMs, GuessWaits, Guesses;
    p := Script(port, 4 + ClearCost(port, voice).steps, voice, 0, false);
    TheRungsOf(p);
    var t := BothFail(p);
    var l := Ladder(p.Facing());
    var u := TheClearFalls(p, t, l[1..][1..], false, voice);
    var clear := DIALLED.Then(ClearCost(port, voice));
    TheLastRungEnds(p, u, l[1..][1..][1..]);
    var guesses := DIALLED.Then(GuessCost(Guesses(port), true));
    var last := Walked(p.Facing(), u, l[1..][1..][1..], false, None).session;
    OnTwice(p.d(), OPENED, t, u, BOTH_FAILED, clear);
    OnTwice(p.d(), OPENED, u, last, BOTH_FAILED.Then(clear), guesses);
    TakesWhatItCosts(p, BOTH_FAILED.Then(clear).Then(guesses));
  }

  // ---------- exactness ----------

  /** A run of a collection from `port` against `peer`. */
  function Run(port: Env, peer: Peer): Session {
    Gathered(port.(peer := peer), OPENED).session
  }

  lemma ARunIs(p: Script, ms: nat, waits: nat) returns (peer: Peer)
    requires Takes(p, ms, waits)
    ensures Run(p.port, peer).waits == waits && Run(p.port, peer).clock == ms + waits * p.d()
  {
    hide Gathered;
    peer := p.Facing().peer;
    assert p.port.(peer := peer) == p.Facing();
  }

  lemma TheLongestRunOff(port: Env) returns (p: Script, ms: nat, waits: nat)
    requires Plays(port) && !port.tlsPort
    ensures p.port == port && Takes(p, ms, waits) && ms == LongestMs(port)
  {
    hide Plays, Takes, ClearCost, SpokenMs, SpokenWaits, RefusedMs, RefusedWaits, SilentMs, SilentWaits, TunnelMs,
         TunnelWaits, GuessMs, GuessWaits, Guesses;
    RefusalsOutlast(port);
    if LongestMs(port) == SpokenMs(port) {
      p := ASpokenWalk(port);
      ms, waits := SpokenMs(port), SpokenWaits(port);
    } else if LongestMs(port) == RefusedMs(port) + RefusalMs(port) {
      var completes := TunnelMs(port) >= CONNECT_RETRY_TIMEOUT + LEGACY_PROBE_TIMEOUT;
      p := ARefusedWalk(port, completes);
      ms := LongestMs(port);
      waits := RefusedWaits(port) + if completes then 2 + TunnelWaits(port) else 4;
    } else {
      var voice := TheQuieter(port);
      p := AGuessedWalk(port, voice);
      ms, waits := LongestMs(port), ClearCost(port, voice).waits + 3 + GuessWaits(Guesses(port), true);
    }
  }

  /** The longer of silence and an alert. */
  lemma TheQuieter(port: Env) returns (voice: Voice)
    requires Plays(port)
    ensures (voice.Mute? || voice.Alerting?) && ClearCost(port, voice).ms == SilentMs(port)
  {
    hide ClearCost, MuteMs, AlertMs, SpokenMs, RefusedMs, Legible;
    TheClearCosts(port);
    voice := if ClearCost(port, Mute).ms == SilentMs(port) then Mute else Alerting;
  }

  lemma TheLongestRunOn(port: Env) returns (p: Script, ms: nat, waits: nat)
    requires Plays(port) && port.tlsPort
    ensures p.port == port && Takes(p, ms, waits) && ms == LongestMs(port)
  {
    hide Plays, Takes, ClearCost, SpokenMs, SpokenWaits, RefusedMs, RefusedWaits, SilentMs, SilentWaits, TunnelMs,
         TunnelWaits, GuessMs, GuessWaits, Guesses;
    ms := LongestMs(port);
    if ms == TLS_HANDSHAKE_TIMEOUT + TunnelMs(port) {
      p := ATunnelWalk(port);
      waits := 1 + TunnelWaits(port);
    } else if ms == BOTH_FAILED.ms + CONNECT_RETRY_TIMEOUT + SpokenMs(port) {
      p := AFailedThenSpokenWalk(port);
      waits := 4 + SpokenWaits(port);
    } else {
      var voice := TheQuieter(port);
      p := AFailedThenGuessedWalk(port, voice);
      waits := 5 + ClearCost(port, voice).waits + GuessWaits(Guesses(port), true);
    }
  }

  lemma TheMostWaits(port: Env) returns (p: Script, ms: nat)
    requires Plays(port)
    ensures p.port == port && Takes(p, ms, MostWaits(port))
  {
    hide Legible, Probed, Collects, Takes, ClearCost, SpokenMs, SpokenWaits, RefusedMs, RefusedWaits, SilentMs,
         MuteWaits, AlertWaits, TunnelMs, TunnelWaits, GuessMs, GuessWaits, Guesses;
    RefusalsOutlast(port);
    TheClearCosts(port);
    var most := MostWaits(port);
    if port.tlsPort {
      if most == 1 + TunnelWaits(port) {
        p := ATunnelWalk(port);
        ms := TLS_HANDSHAKE_TIMEOUT + TunnelMs(port);
      } else if most == 4 + SpokenWaits(port) {
        p := AFailedThenSpokenWalk(port);
        ms := BOTH_FAILED.ms + CONNECT_RETRY_TIMEOUT + SpokenMs(port);
      } else {
        p := AFailedThenGuessedWalk(port, Mute);
        ms := BOTH_FAILED.ms + 2 * CONNECT_RETRY_TIMEOUT + ClearCost(port, Mute).ms + GuessMs(Guesses(port), true);
      }
    } else if most == SpokenWaits(port) {
      p := ASpokenWalk(port);
      ms := SpokenMs(port);
    } else if most == RefusedWaits(port) + RefusalWaits(port) {
      var completes := TunnelWaits(port) >= 2;
      p := ARefusedWalk(port, completes);
      ms := RefusedMs(port) + CONNECT_RETRY_TIMEOUT + SPECULATIVE_TLS_TIMEOUT
        + if completes then TunnelMs(port) else CONNECT_RETRY_TIMEOUT + LEGACY_PROBE_TIMEOUT;
    } else {
      p := AGuessedWalk(port, Mute);
      ms := ClearCost(port, Mute).ms + 2 * CONNECT_RETRY_TIMEOUT + SPECULATIVE_TLS_TIMEOUT
        + GuessMs(Guesses(port), true);
    }
  }

  /** Time: no peer takes more than the closed form and the path, and some peer takes exactly that. */
  lemma TheTimeIsExact(port: Env)
    requires Plays(port)
    ensures forall peer: Peer ::
      Run(port, peer).clock <= LongestMs(port) + Run(port, peer).waits * port.path.allowance
    ensures exists peer: Peer ::
      Run(port, peer).clock == LongestMs(port) + Run(port, peer).waits * port.path.allowance
  {
    hide Gathered, LongestMs, MostWaits, Takes, Plays;
    forall peer: Peer
      ensures Run(port, peer).clock <= LongestMs(port) + Run(port, peer).waits * port.path.allowance
    {
      CollectionIsBounded(port.(peer := peer));
      ThePeerIsNoPart(port, peer);
    }
    var p, ms, waits;
    if port.tlsPort {
      p, ms, waits := TheLongestRunOn(port);
    } else {
      p, ms, waits := TheLongestRunOff(port);
    }
    var peer := ARunIs(p, ms, waits);
  }

  lemma ThePeerIsNoPart(port: Env, peer: Peer)
    ensures LongestMs(port.(peer := peer)) == LongestMs(port) && MostWaits(port.(peer := peer)) == MostWaits(port)
  {
    hide SpokenMs, RefusedMs, SilentMs, TunnelMs, SpokenWaits, RefusedWaits, SilentWaits, TunnelWaits, Guesses, GuessMs,
         GuessWaits;
    NorOfAStage(port, peer);
    NorOfTheWaits(port, peer);
  }

  lemma NorOfAStage(port: Env, peer: Peer)
    ensures var env := port.(peer := peer);
      && SpokenMs(env) == SpokenMs(port) && RefusedMs(env) == RefusedMs(port) && MuteMs(env) == MuteMs(port)
      && AlertMs(env) == AlertMs(port) && SilentMs(env) == SilentMs(port)
      && TunnelMs(env) == TunnelMs(port) && Guesses(env) == Guesses(port)
  {
    hide Answered, Unanswered, Dials, Retunnels, Sum;
  }

  lemma NorOfTheWaits(port: Env, peer: Peer)
    ensures var env := port.(peer := peer);
      && SpokenWaits(env) == SpokenWaits(port) && RefusedWaits(env) == RefusedWaits(port)
      && MuteWaits(env) == MuteWaits(port) && AlertWaits(env) == AlertWaits(port)
      && SilentWaits(env) == SilentWaits(port) && TunnelWaits(env) == TunnelWaits(port)
  {
    hide Sum;
  }

  /** A walk's time and its waits at once are on the clock of the run that takes it. */
  lemma ATakenWalkIsAt(p: Script, ms: nat, waits: nat) returns (peer: Peer)
    requires Takes(p, ms, waits)
    ensures Run(p.port, peer).clock == At(p.port.path.allowance, ms, waits)
  {
    hide Takes, Run;
    peer := ARunIs(p, ms, waits);
  }

  /** The run that shows the greatest clock on a port numbered for TLS, and on another. */
  lemma TheGreatestRunOn(port: Env) returns (peer: Peer)
    requires Plays(port) && port.tlsPort
    ensures Run(port, peer).clock == LongestClock(port)
  {
    hide Plays, Takes, Run, At, ClearCost, SpokenMs, SpokenWaits, MuteMs, MuteWaits, AlertMs, AlertWaits, TunnelMs,
         TunnelWaits, GuessMs, GuessWaits, Guesses;
    TheSilentCosts(port);
    var d := port.path.allowance;
    var (guesses, guessWaits) := (GuessMs(Guesses(port), true), GuessWaits(Guesses(port), true));
    var failed := BOTH_FAILED.ms + CONNECT_RETRY_TIMEOUT;
    if LongestClock(port) == At(d, TLS_HANDSHAKE_TIMEOUT + TunnelMs(port), 1 + TunnelWaits(port)) {
      var p := ATunnelWalk(port);
      peer := ATakenWalkIsAt(p, TLS_HANDSHAKE_TIMEOUT + TunnelMs(port), 1 + TunnelWaits(port));
    } else if LongestClock(port) == At(d, failed + SpokenMs(port), 4 + SpokenWaits(port)) {
      var p := AFailedThenSpokenWalk(port);
      peer := ATakenWalkIsAt(p, failed + SpokenMs(port), 4 + SpokenWaits(port));
    } else {
      var mute := LongestClock(port)
        == At(d, failed + MuteMs(port) + CONNECT_RETRY_TIMEOUT + guesses, 5 + MuteWaits(port) + guessWaits);
      var voice := if mute then Mute else Alerting;
      var p := AFailedThenGuessedWalk(port, voice);
      peer := ATakenWalkIsAt(p, failed + CONNECT_RETRY_TIMEOUT + ClearCost(port, voice).ms + guesses,
                             5 + ClearCost(port, voice).waits + guessWaits);
    }
  }

  lemma TheGreatestRunOff(port: Env) returns (peer: Peer)
    requires Plays(port) && !port.tlsPort
    ensures Run(port, peer).clock == LongestClock(port)
  {
    hide Plays, Takes, Run, At, ClearCost, SpokenMs, SpokenWaits, RefusedMs, RefusedWaits, MuteMs, MuteWaits, AlertMs,
         AlertWaits, TunnelMs, TunnelWaits, GuessMs, GuessWaits, Guesses;
    TheSilentCosts(port);
    var d := port.path.allowance;
    var (guesses, guessWaits) := (GuessMs(Guesses(port), true), GuessWaits(Guesses(port), true));
    var guessed := SPECULATIVE_TLS_TIMEOUT + 2 * CONNECT_RETRY_TIMEOUT;
    if LongestClock(port) == At(d, SpokenMs(port), SpokenWaits(port)) {
      var p := ASpokenWalk(port);
      peer := ATakenWalkIsAt(p, SpokenMs(port), SpokenWaits(port));
    } else if LongestClock(port) == At(d, RefusedMs(port) + EnteredMs(port), RefusedWaits(port) + EnteredWaits(port)) {
      var p := ARefusedWalk(port, true);
      peer := ATakenWalkIsAt(p, RefusedMs(port) + EnteredMs(port), RefusedWaits(port) + EnteredWaits(port));
    } else if LongestClock(port) == At(d, RefusedMs(port) + UnenteredMs(), RefusedWaits(port) + 4) {
      var p := ARefusedWalk(port, false);
      peer := ATakenWalkIsAt(p, RefusedMs(port) + UnenteredMs(), RefusedWaits(port) + 4);
    } else {
      var mute := LongestClock(port) == At(d, MuteMs(port) + guessed + guesses, MuteWaits(port) + 3 + guessWaits);
      var voice := if mute then Mute else Alerting;
      var p := AGuessedWalk(port, voice);
      peer := ATakenWalkIsAt(p, ClearCost(port, voice).ms + guessed + guesses,
                             ClearCost(port, voice).waits + 3 + guessWaits);
    }
  }

  lemma TheSilentCosts(port: Env)
    requires Plays(port)
    ensures var mute := ClearCost(port, Mute); mute.ms == MuteMs(port) && mute.waits == MuteWaits(port)
    ensures var alert := ClearCost(port, Alerting); alert.ms == AlertMs(port) && alert.waits == AlertWaits(port)
  {
    hide ClearCost, MuteMs, MuteWaits, AlertMs, AlertWaits, SpokenMs, RefusedMs, Legible, Collects;
    TheClearCosts(port);
  }

  /**
   * The clock, path and all: no peer makes a collection show more than the greatest of the walks'
   * times with an allowance for each of their waits, and some peer makes it show exactly that.
   */
  lemma TheClockIsExact(port: Env)
    requires Plays(port)
    ensures forall peer: Peer :: Run(port, peer).clock <= LongestClock(port)
    ensures exists peer: Peer :: Run(port, peer).clock == LongestClock(port)
  {
    hide Gathered, LongestClock, Plays;
    forall peer: Peer
      ensures Run(port, peer).clock <= LongestClock(port)
    {
      TheClockIsBounded(port.(peer := peer));
      ThePeerIsNoPartOfTheClock(port, peer);
    }
    var peer;
    if port.tlsPort {
      peer := TheGreatestRunOn(port);
    } else {
      peer := TheGreatestRunOff(port);
    }
  }

  lemma ThePeerIsNoPartOfTheClock(port: Env, peer: Peer)
    ensures LongestClock(port.(peer := peer)) == LongestClock(port)
  {
    hide At, SpokenMs, RefusedMs, MuteMs, AlertMs, TunnelMs, SpokenWaits, RefusedWaits, MuteWaits, AlertWaits,
         TunnelWaits, Guesses, GuessMs, GuessWaits;
    NorOfAStage(port, peer);
    NorOfTheWaits(port, peer);
  }

  /** Waits: no peer makes more than the companion form, and some peer makes exactly that. */
  lemma TheWaitsAreExact(port: Env)
    requires Plays(port)
    ensures forall peer: Peer :: Run(port, peer).waits <= MostWaits(port)
    ensures exists peer: Peer :: Run(port, peer).waits == MostWaits(port)
  {
    hide Gathered, LongestMs, MostWaits, Takes, Plays;
    forall peer: Peer
      ensures Run(port, peer).waits <= MostWaits(port)
    {
      CollectionIsBounded(port.(peer := peer));
      ThePeerIsNoPart(port, peer);
    }
    var p, ms := TheMostWaits(port);
    var peer := ARunIs(p, ms, MostWaits(port));
  }

  /** Port 3000's shape: two services share it with a probe each, and none names it. */
  predicate TwoShare(port: Env) {
    !port.tlsPort && !port.named && !port.askedFirst && port.conversations == [1, 1] && port.universal <= 5
  }

  lemma OffTls(port: Env)
    requires TwoShare(port)
    ensures !port.tlsPort
  {
  }

  /** On such a port that is 32 seconds and seventeen waits, on one run, and behind every path the greatest clock. */
  lemma ThirtyTwoSeconds(port: Env)
    requires Plays(port) && TwoShare(port)
    ensures LongestMs(port) == 32000 && MostWaits(port) == 17
    ensures LongestClock(port) == 32000 + 17 * port.path.allowance
    ensures exists peer: Peer ::
      Run(port, peer).waits == 17 && Run(port, peer).clock == 32000 + 17 * port.path.allowance
  {
    hide Gathered, Takes, Plays, LongestMs, MostWaits, LongestClock, Run, TwoShare, RefusedMs, RefusedWaits, TunnelMs,
         TunnelWaits;
    assert !port.tlsPort by { OffTls(port); }
    TwoAndTwo(port);
    var p := ARefusedWalk(port, true);
    var peer := ARunIs(p, 32000, 17);
    TheClockIsExact(port);
    TheTimeIsExact(port);
    TheWaitsAreExact(port);
    var latest: Peer :| Run(port, latest).clock == LongestClock(port);
    NoMoreAllowances(Run(port, latest).waits, 17, port.path.allowance);
  }

  lemma NoMoreAllowances(waits: nat, most: nat, d: nat)
    requires waits <= most
    ensures waits * d <= most * d
  {
    AtGrows(d, 0, waits, 0, most);
  }

  lemma TwoAndTwo(port: Env)
    requires TwoShare(port)
    ensures RefusedMs(port) == 13500 && RefusedWaits(port) == 7 && TunnelMs(port) == 16500 && TunnelWaits(port) == 8
    ensures LongestMs(port) == 32000 && MostWaits(port) == 17
  {
    assert [1, 1][1..] == [1] && [1][1..] == [];
    assert Probes(port) == 2 && Services(port) == 2 && Guesses(port) <= 5;
  }

  // ---------- a page fetched twice ----------

  /**
   * On every port asked generically first that a service names, or some service probes, there is
   * a peer whose one page is fetched twice.
   */
  lemma APageIsFetchedTwice(port: Env)
    requires Legible(port) && Probed(port) && !AsksItsOwn(port) && (port.named || Probes(port) > 0)
    ensures exists peer: Peer :: InTheClear(port.(peer := peer), OPENED, true).session.followed == ["/", "/"]
  {
    hide InTheClear, SetRedirect, GenericRedirect, Legible, Probed;
    var p := Script(port, 0, Mute, 0, false);
    WhatIsFollowed(p.Facing(), OPENED);
    BothRedirect(p);
    assert [] + ["/"] + ["/"] == ["/", "/"];
    var peer := p.Facing().peer;
    assert port.(peer := peer) == p.Facing();
  }

  lemma BothRedirect(p: Script)
    requires Legible(p.port) && Probed(p.port) && !AsksItsOwn(p.port) && (p.port.named || Probes(p.port) > 0)
    requires p.turn == 0
    ensures GenericRedirect(p.Facing(), OPENED) == Some("/") && SetRedirect(p.Facing(), OPENED) == Some("/")
  {
    hide GenericRedirect, SetRedirect, Legible, Probed, Probes, AsksItsOwn;
    TheGenericRedirects(p);
    TheSetRedirects(p);
  }

  lemma TheGenericRedirects(p: Script)
    requires Legible(p.port) && !AsksItsOwn(p.port) && p.turn == 0
    ensures GenericRedirect(p.Facing(), OPENED) == Some("/")
  {
    hide AskedGenerically, GenericText, On, Voiced, Legible, Leads;
    SlowGeneric(p, OPENED, Redirecting);
  }

  lemma ItIsCued(p: Script)
    requires !AsksItsOwn(p.port) && (p.port.named || Probes(p.port) > 0) && p.turn == 0
    ensures Cued(p, 0, Redirecting) && FollowsTheSet(p.port, Redirecting)
  {
  }

  lemma TheSetRedirects(p: Script)
    requires Legible(p.port) && Probed(p.port) && !AsksItsOwn(p.port) && (p.port.named || Probes(p.port) > 0)
    requires p.turn == 0
    ensures SetRedirect(p.Facing(), OPENED) == Some("/")
  {
    hide OpenedWith, OthersAsked, WithRedirect, Redirect, On, Voiced, Legible, OpeningCost, OthersCost, Script.Facing,
         Script.Steady, RestOf, Others, Sum, Drawn, SetOf, FollowsTheSet, Probed, Probes, AsksItsOwn, Cued, FetchCost,
         Script.d;
    FacingIs(p);
    ItIsCued(p);
    SlowOpening(p, OPENED, Redirecting);
    var opening := OpenedWith(p.Facing(), OPENED, true);
    StepsOn(p.d(), OPENED, opening.session, OpeningCost(p.port, Redirecting));
    OthersAreSteady(p, 0, Redirecting);
    SlowRest(p, opening.session, opening.what.banners, opening.what.held, Redirecting);
  }
}
