/**
 * The whole ladder, on every run: a bound on its time and its waits in closed form, one
 * connection at a time, no TLS evidence lost, and no rung skipped.
 */
module Runs {
  import opened Wrappers
  import opened Network
  import opened Http
  import opened Collect
  import opened Bounds

  /** The longest one rung takes when it ends the climb, and when it falls through. */
  function RungMs(env: Env, rung: Rung): nat {
    match rung
    case TlsRung => TLS_HANDSHAKE_TIMEOUT + TunnelMs(env)
    case SpeculativeTls => SPECULATIVE_TLS_TIMEOUT + TunnelMs(env)
    case LegacyTls => LEGACY_PROBE_TIMEOUT
    case PlaintextRung => Max(SpokenMs(env), if env.tlsPort then 0 else RefusedMs(env) + RefusalMs(env))
    case LastResortRung => GuessMs(Guesses(env), true)
  }

  function RungWaits(env: Env, rung: Rung): nat {
    match rung
    case TlsRung => 1 + TunnelWaits(env)
    case SpeculativeTls => 1 + TunnelWaits(env)
    case LegacyTls => 1
    case PlaintextRung => Max(SpokenWaits(env), if env.tlsPort then 0 else RefusedWaits(env) + RefusalWaits(env))
    case LastResortRung => GuessWaits(Guesses(env), true)
  }

  function FallMs(env: Env, rung: Rung): nat {
    match rung
    case TlsRung => TLS_HANDSHAKE_TIMEOUT
    case SpeculativeTls => SPECULATIVE_TLS_TIMEOUT
    case LegacyTls => LEGACY_PROBE_TIMEOUT
    case PlaintextRung => SilentMs(env)
    case LastResortRung => GuessMs(Guesses(env), true)
  }

  function FallWaits(env: Env, rung: Rung): nat {
    match rung
    case TlsRung => 1
    case SpeculativeTls => 1
    case LegacyTls => 1
    case PlaintextRung => SilentWaits(env)
    case LastResortRung => GuessWaits(Guesses(env), true)
  }

  /** The longest walk down `rungs`. */
  function WalkMs(env: Env, rungs: seq<Rung>, inHand: bool): nat {
    if rungs == [] then 0
    else (if inHand then 0 else CONNECT_RETRY_TIMEOUT)
         + Max(RungMs(env, rungs[0]), FallMs(env, rungs[0]) + WalkMs(env, rungs[1..], false))
  }

  function WalkWaits(env: Env, rungs: seq<Rung>, inHand: bool): nat {
    if rungs == [] then 0
    else (if inHand then 0 else 1)
         + Max(RungWaits(env, rungs[0]), FallWaits(env, rungs[0]) + WalkWaits(env, rungs[1..], false))
  }

  /** One rung, before it is settled: TLS is heard on it exactly where its responses carry it. */
  predicate RungKeeps(env: Env, s: Session, rung: Rung, r: Drew<Outcome>) {
    && r.session.open == 0 && OnTheSameRung(s.(rungs := s.rungs + 1), r.session)
    && r.session.tlsHeard == (s.tlsHeard || r.what.responses.tls.Some?)
    && (r.what.tunnel.Some? ==> r.what.responses.tls.Some?)
    && (r.what.responses.tls.Some? ==> rung.TlsRung? || rung.SpeculativeTls? || rung.LegacyTls?)
    && (rung.PlaintextRung? ==>
          && r.what.responses.tls.None?
          && Spends(s, r.session, SpokenMs(env), SpokenWaits(env), env.path)
          && (RefusedInTheClear(r.what.responses.banners) ==>
                Spends(s, r.session, RefusedMs(env), RefusedWaits(env), env.path)))
    && Spends(s, r.session, RungMs(env, rung), RungWaits(env, rung), env.path)
    && (r.what.responses.IsEmpty() || rung.LegacyTls? ==>
          Spends(s, r.session, FallMs(env, rung), FallWaits(env, rung), env.path))
    && (rung.PlaintextRung? && r.what.responses.IsEmpty() ==>
          || Spends(s, r.session, MuteMs(env), MuteWaits(env), env.path)
          || Spends(s, r.session, AlertMs(env), AlertWaits(env), env.path))
  }

  lemma AskedKeeps(env: Env, s: Session, rung: Rung)
    requires s.open == 1
    ensures RungKeeps(env, s, rung, Asked(env, s, rung))
  {
    hide Shaken, Legacy, InTheClear, GuessesAsked, Crossings, SpokenMs, SpokenWaits, RefusedMs, RefusedWaits,
         MuteMs, MuteWaits, AlertMs, AlertWaits, TunnelMs, TunnelWaits, Refuses;
    var t := s.(rungs := s.rungs + 1);
    match rung {
      case TlsRung => ShakenSpends(env, t, TLS_HANDSHAKE_TIMEOUT);
      case SpeculativeTls => ShakenSpends(env, t, SPECULATIVE_TLS_TIMEOUT);
      case LegacyTls =>
      case PlaintextRung => InTheClearSpends(env, t, true);
      case LastResortRung => GuessesAskedSpends(env, t, Guesses(env), true);
    }
  }

  /** What a climb holds on to: a refusal in TLS where one was heard, and nothing otherwise. */
  predicate Holding(s: Session, refused: Option<ResponseSet>) {
    && (s.tlsHeard <==> refused.Some?)
    && (refused.Some? ==> refused.value.tls.Some?)
  }

  /** What the end of a run owes: everything closed, and TLS in the result exactly where it was heard. */
  predicate Ends(r: Drew<Outcome>) {
    && r.session.open == 0
    && (r.session.tlsHeard <==> r.what.responses.tls.Some?)
    && (r.what.tunnel.Some? ==> r.what.responses.tls.Some?)
  }

  /** A climb that comes back with nothing was stranded or asked every rung. */
  predicate AsksInOrder(s: Session, rungs: seq<Rung>, r: Drew<Outcome>) {
    && s.rungs <= r.session.rungs <= s.rungs + |rungs|
    && (r.what.responses.IsEmpty() ==> r.session.stranded || r.session.rungs == s.rungs + |rungs|)
    && (r.session.stranded ==> s.stranded || r.session.rungs < s.rungs + |rungs|)
  }

  lemma SettledKeeps(env: Env, s: Session, rung: Rung, refused: Option<ResponseSet>)
    requires s.open == 1 && Holding(s, refused)
    ensures var next := Settled(env, rung, refused, Asked(env, s, rung));
      && (next.Stop? ==>
            && Ends(next.outcome) && OnTheSameRung(s.(rungs := s.rungs + 1), next.outcome.session)
            && !next.outcome.what.responses.IsEmpty()
            && Spends(s, next.outcome.session, RungMs(env, rung), RungWaits(env, rung), env.path))
      && (next.Climb? ==>
            && next.session.open == 0 && Holding(next.session, next.refused)
            && OnTheSameRung(s.(rungs := s.rungs + 1), next.session)
            && Spends(s, next.session, FallMs(env, rung), FallWaits(env, rung), env.path))
  {
    hide Asked, AskedThroughTls, Sound, SpokenMs, SpokenWaits, RefusedMs, RefusedWaits, EnteredMs, EnteredWaits,
         SilentMs, SilentWaits, TunnelMs, TunnelWaits, Refuses;
    AskedKeeps(env, s, rung);
    var asked := Asked(env, s, rung);
    if rung.PlaintextRung? && !env.tlsPort && refused.None? {
      AskedThroughTlsSpends(env, asked.session, asked.what.responses);
    }
  }

  /** Every climb, from any rung of any ladder. */
  lemma {:induction false} WalkedKeeps(
      env: Env, s: Session, rungs: seq<Rung>, inHand: bool, refused: Option<ResponseSet>)
    requires s.open == (if inHand then 1 else 0) && Holding(s, refused)
    ensures var r := Walked(env, s, rungs, inHand, refused);
      && Ends(r) && AsksInOrder(s, rungs, r)
      && Spends(s, r.session, WalkMs(env, rungs, inHand), WalkWaits(env, rungs, inHand), env.path)
    decreases |rungs|
  {
    hide Dial, Asked, Settled, RungMs, RungWaits, FallMs, FallWaits, Crossings;
    if rungs != [] {
      var connected := if inHand then Drew(true, s) else Dial(env.peer, env.path, s);
      if connected.what {
        SettledKeeps(env, connected.session, rungs[0], refused);
        match Settled(env, rungs[0], refused, Asked(env, connected.session, rungs[0])) {
          case Stop(_) =>
          case Climb(session, held) => WalkedKeeps(env, session, rungs[1..], false, held);
        }
      }
    }
  }

  // ---------- the closed form ----------

  /**
   * The longest a port's collection waits, on a path that costs nothing. Numbered for TLS: a
   * tunnel at once; or both handshakes failed and then an answer in the clear, or silence and
   * every guess. Otherwise: an answer in the clear, a refusal there asked again through TLS,
   * or silence, a failed or completed guess at TLS, and the guesses.
   */
  function LongestMs(env: Env): nat {
    var guesses := CONNECT_RETRY_TIMEOUT + GuessMs(Guesses(env), true);
    if env.tlsPort then
      var failed := TLS_HANDSHAKE_TIMEOUT + CONNECT_RETRY_TIMEOUT + LEGACY_PROBE_TIMEOUT + CONNECT_RETRY_TIMEOUT;
      Max(TLS_HANDSHAKE_TIMEOUT + TunnelMs(env), failed + Max(SpokenMs(env), SilentMs(env) + guesses))
    else
      var guessed := CONNECT_RETRY_TIMEOUT + SPECULATIVE_TLS_TIMEOUT;
      Max(SpokenMs(env),
          Max(RefusedMs(env) + RefusalMs(env),
              SilentMs(env) + guessed + Max(TunnelMs(env), guesses)))
  }

  function MostWaits(env: Env): nat {
    var guesses := 1 + GuessWaits(Guesses(env), true);
    if env.tlsPort then
      Max(1 + TunnelWaits(env), 4 + Max(SpokenWaits(env), SilentWaits(env) + guesses))
    else
      Max(SpokenWaits(env),
          Max(RefusedWaits(env) + RefusalWaits(env),
              SilentWaits(env) + 2 + Max(TunnelWaits(env), guesses)))
  }

  /** The ladders rung by rung, so that the walk unrolls. */
  lemma TheRungs(env: Env)
    ensures var l := Ladder(env);
      if env.tlsPort
      then |l| == 4 && l[0] == TlsRung && l[1..][0] == LegacyTls && l[1..][1..][0] == PlaintextRung
           && l[1..][1..][1..] == [LastResortRung]
      else |l| == 3 && l[0] == PlaintextRung && l[1..][0] == SpeculativeTls && l[1..][1..] == [LastResortRung]
  {
  }

  lemma TheLastRung(env: Env)
    ensures WalkMs(env, [LastResortRung], false) == CONNECT_RETRY_TIMEOUT + GuessMs(Guesses(env), true)
    ensures WalkWaits(env, [LastResortRung], false) == 1 + GuessWaits(Guesses(env), true)
  {
    hide Guesses, GuessMs, GuessWaits;
    assert [LastResortRung][1..] == [];
  }

  lemma TheLadderIsTheClosedForm(env: Env)
    ensures WalkMs(env, Ladder(env), true) == LongestMs(env)
  {
    hide SpokenMs, RefusedMs, RefusalMs, SilentMs, TunnelMs, GuessMs, Guesses, Ladder;
    TheRungs(env);
    TheLastRung(env);
    var l := Ladder(env);
    var guesses := CONNECT_RETRY_TIMEOUT + GuessMs(Guesses(env), true);
    if env.tlsPort {
      var third := CONNECT_RETRY_TIMEOUT + Max(SpokenMs(env), SilentMs(env) + guesses);
      assert WalkMs(env, l[1..][1..], false) == third;
      assert WalkMs(env, l[1..], false) == CONNECT_RETRY_TIMEOUT + LEGACY_PROBE_TIMEOUT + third;
    } else {
      assert WalkMs(env, l[1..], false)
          == CONNECT_RETRY_TIMEOUT + SPECULATIVE_TLS_TIMEOUT + Max(TunnelMs(env), guesses);
    }
  }

  lemma TheWaitsAreTheClosedForm(env: Env)
    ensures WalkWaits(env, Ladder(env), true) == MostWaits(env)
  {
    hide SpokenWaits, RefusedWaits, RefusalWaits, SilentWaits, TunnelWaits, GuessWaits, Guesses, Ladder;
    TheRungs(env);
    TheLastRung(env);
    var l := Ladder(env);
    var guesses := 1 + GuessWaits(Guesses(env), true);
    if env.tlsPort {
      var third := 1 + Max(SpokenWaits(env), SilentWaits(env) + guesses);
      assert WalkWaits(env, l[1..][1..], false) == third;
      assert WalkWaits(env, l[1..], false) == 2 + third;
    } else {
      assert WalkWaits(env, l[1..], false) == 2 + Max(TunnelWaits(env), guesses);
    }
  }

  /** A collection at a level that sends, from the connection it was handed. */
  predicate Collects(env: Env) {
    env.addressKnown && (env.level.Probe? || env.level.Thorough?)
  }

  /**
   * Time. However the peer behaves, and whatever services the corpus puts on the port, a
   * collection waits at most the closed form and one path allowance for each of its waits,
   * which are at most the companion form.
   */
  lemma CollectionIsBounded(env: Env)
    ensures var after := Gathered(env, OPENED).session;
      && after.waits <= MostWaits(env)
      && after.clock <= LongestMs(env) + after.waits * env.path.allowance
      && after.inVain <= after.clock
  {
    hide InTheClear, Walked, ReadPort, SpokenMs, SilentMs, TunnelMs, RefusedMs, RefusalMs,
         SpokenWaits, SilentWaits, TunnelWaits, RefusedWaits, RefusalWaits, Refuses;
    var after := Gathered(env, OPENED).session;
    CrossingsMultiply(after.waits, env.path.allowance);
    SomethingToSay(env);
    if Collects(env) {
      WalkedKeeps(env, OPENED, Ladder(env), true, None);
      TheLadderIsTheClosedForm(env);
      TheWaitsAreTheClosedForm(env);
    } else if !env.level.Off? && !env.level.Banner? {
      InTheClearSpends(env, OPENED, false);
    }
  }

  lemma SomethingToSay(env: Env)
    ensures LongestMs(env) >= SpokenMs(env) >= BANNER_READ_TIMEOUT
    ensures MostWaits(env) >= SpokenWaits(env) >= 1
  {
    hide RefusedMs, RefusalMs, SilentMs, TunnelMs, RefusedWaits, RefusalWaits, SilentWaits, TunnelWaits, Guesses;
  }

  /**
   * Connections. On every run, with an address or without one, at every level, no two
   * connections to the port are ever open at once, and none is left open.
   */
  lemma OneConnectionAtATime(env: Env)
    ensures Gathered(env, OPENED).session.peak <= 1
    ensures Gathered(env, OPENED).session.open == 0
  {
    hide InTheClear, Walked, ReadPort;
    if Collects(env) {
      WalkedKeeps(env, OPENED, Ladder(env), true, None);
    } else if !env.level.Off? && !env.level.Banner? {
      InTheClearSpends(env, OPENED, false);
    }
  }

  /**
   * Evidence. The result carries TLS exactly where a handshake completed or the legacy probe
   * heard TLS on this run, whatever was dialled or answered afterwards, and a tunnel is never
   * named without it.
   */
  lemma TlsIsNeitherLostNorInvented(env: Env)
    ensures var r := Gathered(env, OPENED);
      && (r.what.responses.tls.Some? <==> r.session.tlsHeard)
      && (r.what.tunnel.Some? ==> r.what.responses.tls.Some?)
  {
    hide InTheClear, Walked, ReadPort;
    if Collects(env) {
      WalkedKeeps(env, OPENED, Ladder(env), true, None);
    } else if !env.level.Off? && !env.level.Banner? {
      InTheClearSpends(env, OPENED, false);
    }
  }

  /**
   * Completeness. A collection that comes back with nothing asked the port every rung of its
   * ladder, unless a rung could not be given a connection.
   */
  lemma NoRungIsSkipped(env: Env)
    requires Collects(env) && Gathered(env, OPENED).what.responses.IsEmpty()
    ensures var after := Gathered(env, OPENED).session;
      if after.stranded then after.rungs < |Ladder(env)| else after.rungs == |Ladder(env)|
  {
    hide Walked;
    WalkedKeeps(env, OPENED, Ladder(env), true, None);
  }

  /** One identification, as its caller sees it: what it costs, what it leaves open and what it tells of TLS. */
  method Identify(env: Env) returns (r: Drew<Outcome>)
    ensures r.session.waits <= MostWaits(env)
    ensures r.session.clock <= LongestMs(env) + r.session.waits * env.path.allowance
    ensures r.session.peak <= 1 && r.session.open == 0
    ensures r.what.responses.tls.Some? <==> r.session.tlsHeard
    ensures r.what.tunnel.Some? ==> r.what.responses.tls.Some?
  {
    hide Gathered, LongestMs, MostWaits;
    r := Gather(env, OPENED);
    CollectionIsBounded(env);
    OneConnectionAtATime(env);
    TlsIsNeitherLostNorInvented(env);
  }
}
