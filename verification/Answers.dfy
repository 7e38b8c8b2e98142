/**
 * What a collection returns, told along the run: which answer ends it, what becomes of a refusal
 * held from the legacy handshake, and when a tunnel is named.
 */
module Answers {
  import opened Wrappers
  import opened Network
  import opened Http
  import opened Collect
  import opened Bounds
  import opened Runs

  /** The run as the next rung is asked. */
  function Up(s: Session): Session {
    s.(rungs := s.rungs + 1)
  }

  function Again(env: Env, s: Session): Drew<bool> {
    Dial(env.peer, env.path, s)
  }

  /** A run that ends for want of a connection, with what it had. */
  function Stranded(outcome: Outcome, dialled: Drew<bool>): Drew<Outcome> {
    Drew(outcome, dialled.session.(stranded := true))
  }

  // ---------- a port numbered for TLS, as far as each stage is reached ----------

  /** A handshake on the connection in hand. */
  function Greeted(env: Env): Drew<Option<TlsInfo>> {
    Handshake(env.peer, env.path, Up(OPENED), TLS_HANDSHAKE_TIMEOUT)
  }

  /** The legacy handshake, on a second connection. */
  function Second(env: Env): Drew<bool> {
    Again(env, Greeted(env).session)
  }

  function HeardOld(env: Env): Drew<Option<TlsInfo>> {
    Legacy(env.peer, env.path, Up(Second(env).session))
  }

  /** The clear, on a third. */
  function Third(env: Env): Drew<bool> {
    Again(env, HeardOld(env).session)
  }

  function ClearThird(env: Env): Drew<seq<string>> {
    InTheClear(env, Up(Third(env).session), true)
  }

  /** And the guesses from a fourth on. */
  function Fourth(env: Env): Drew<bool> {
    Again(env, ClearThird(env).session)
  }

  function GuessesFourth(env: Env): Drew<seq<string>> {
    GuessesAsked(env, Up(Fourth(env).session), Guesses(env), true)
  }

  // ---------- one rung more ----------

  /** The result of a climb one rung on. */
  lemma OneRungOn(env: Env, s: Session, rungs: seq<Rung>, inHand: bool, refused: Option<ResponseSet>)
    requires rungs != []
    ensures var connected := if inHand then Drew(true, s) else Again(env, s);
      Walked(env, s, rungs, inHand, refused) ==
        if !connected.what then Drew(HeldOr(refused), connected.session.(stranded := true))
        else
          match Settled(env, rungs[0], refused, Asked(env, connected.session, rungs[0]))
          case Stop(outcome) => outcome
          case Climb(session, held) => Walked(env, session, rungs[1..], false, held)
  {
    hide Dial, Asked, Settled, HeldOr;
  }

  lemma HandshakeRung(env: Env, s: Session, rung: Rung, budget: nat)
    requires rung.TlsRung? || rung.SpeculativeTls?
    requires budget == if rung.TlsRung? then TLS_HANDSHAKE_TIMEOUT else SPECULATIVE_TLS_TIMEOUT
    ensures var shaken := Handshake(env.peer, env.path, Up(s), budget);
      Settled(env, rung, None, Asked(env, s, rung)) ==
        if shaken.what.None? then Climb(shaken.session, None)
        else
          var through := ThroughTunnel(env, shaken.session, shaken.what);
          Stop(Drew(Outcome(through.what, Some(Tls)), through.session))
  {
    hide Handshake, OwnTunneled, OthersTunneled, WithRedirect;
  }

  lemma LegacyRung(env: Env, s: Session)
    ensures var heard := Legacy(env.peer, env.path, Up(s));
      Settled(env, LegacyTls, None, Asked(env, s, LegacyTls)) ==
        if heard.what.None? then Climb(heard.session, None)
        else if heard.what.value.version == Some(REFUSED) then Climb(heard.session, Some(ResponseSet([], heard.what)))
        else Stop(Drew(Outcome(ResponseSet([], heard.what), None), heard.session))
  {
    hide Legacy;
  }

  /** The clear, on a port numbered for TLS or where it was not refused. */
  lemma ClearRung(env: Env, s: Session)
    ensures var clear := InTheClear(env, Up(s), true);
      env.tlsPort || !RefusedInTheClear(clear.what) ==>
        Settled(env, PlaintextRung, None, Asked(env, s, PlaintextRung)) ==
          if clear.what == [] then Climb(clear.session, None)
          else Stop(Drew(Outcome(ResponseSet(clear.what, None), None), clear.session))
  {
    hide InTheClear, RefusedInTheClear;
  }

  lemma HeldRung(env: Env, s: Session, heard: Option<TlsInfo>)
    requires heard.Some?
    ensures var clear := InTheClear(env, Up(s), true);
      Settled(env, PlaintextRung, Some(ResponseSet([], heard)), Asked(env, s, PlaintextRung)) ==
        Stop(Drew(
          if RefusedInTheClear(clear.what) then Outcome(ResponseSet(clear.what, heard), Some(Tls))
          else Outcome(ResponseSet([], heard), None),
          clear.session))
  {
    hide InTheClear, RefusedInTheClear;
  }

  /** The last rung, where the guesses either answer or end the ladder. */
  lemma LastRung(env: Env, s: Session)
    ensures var (dialled, rungs) := (Again(env, s), [LastResortRung]);
      var guesses := GuessesAsked(env, Up(dialled.session), Guesses(env), true);
      Walked(env, s, rungs, false, None) ==
        if !dialled.what then Drew(FALLEN, dialled.session.(stranded := true))
        else Drew(Outcome(ResponseSet(guesses.what, None), None), guesses.session)
  {
    hide Dial, GuessesAsked, Guesses;
    OneRungOn(env, s, [LastResortRung], false, None);
    assert [LastResortRung][1..] == [];
  }

  // ---------- what ends a run on a port numbered for TLS ----------

  lemma TheFirstHandshake(env: Env)
    requires Collects(env) && env.tlsPort
    ensures Greeted(env).what.Some? ==>
      var through := ThroughTunnel(env, Greeted(env).session, Greeted(env).what);
      Gathered(env, OPENED) == Drew(Outcome(through.what, Some(Tls)), through.session)
    ensures Greeted(env).what.None? ==>
      Gathered(env, OPENED) == Walked(env, Greeted(env).session, Ladder(env)[1..], false, None)
  {
    hide Asked, Settled, Walked, Handshake, ThroughTunnel, Ladder;
    TheRungs(env);
    OneRungOn(env, OPENED, Ladder(env), true, None);
    HandshakeRung(env, OPENED, TlsRung, TLS_HANDSHAKE_TIMEOUT);
  }

  lemma TheLegacyHandshake(env: Env)
    requires Collects(env) && env.tlsPort && Greeted(env).what.None?
    ensures !Second(env).what ==> Gathered(env, OPENED) == Stranded(FALLEN, Second(env))
    ensures Second(env).what && HeardOld(env).what.Some? && HeardOld(env).what.value.version != Some(REFUSED) ==>
      Gathered(env, OPENED) == Drew(Outcome(ResponseSet([], HeardOld(env).what), None), HeardOld(env).session)
    ensures Second(env).what && (HeardOld(env).what.None? || HeardOld(env).what.value.version == Some(REFUSED)) ==>
      var held := if HeardOld(env).what.None? then None else Some(ResponseSet([], HeardOld(env).what));
      Gathered(env, OPENED) == Walked(env, HeardOld(env).session, Ladder(env)[1..][1..], false, held)
  {
    hide Asked, Settled, Walked, Handshake, Dial, Legacy, Ladder, Gathered, Greeted;
    TheFirstHandshake(env);
    TheRungs(env);
    OneRungOn(env, Greeted(env).session, Ladder(env)[1..], false, None);
    LegacyRung(env, Second(env).session);
  }

  /**
   * A refusal heard in TLS is held while the clear is asked once. Refused there too, the port is
   * behind TLS, and what it said in the clear is returned with what was heard; otherwise what was
   * heard is returned alone, and no tunnel is named.
   */
  lemma AHeldRefusal(env: Env)
    requires Collects(env) && env.tlsPort && Greeted(env).what.None? && Second(env).what
    requires HeardOld(env).what.Some? && HeardOld(env).what.value.version == Some(REFUSED)
    ensures var (answer, heard, clear) := (Gathered(env, OPENED).what, HeardOld(env).what, ClearThird(env).what);
      && (answer == Outcome(ResponseSet(clear, heard), Some(Tls)) <==> Third(env).what && RefusedInTheClear(clear))
      && (answer == Outcome(ResponseSet([], heard), None) <==> !(Third(env).what && RefusedInTheClear(clear)))
    ensures Gathered(env, OPENED).session
      == if Third(env).what then ClearThird(env).session else Third(env).session.(stranded := true)
  {
    hide Asked, Settled, Walked, Dial, InTheClear, Ladder, Gathered, Second, HeardOld, Refuses;
    TheLegacyHandshake(env);
    TheRungs(env);
    var held := Some(ResponseSet([], HeardOld(env).what));
    OneRungOn(env, HeardOld(env).session, Ladder(env)[1..][1..], false, held);
    HeldRung(env, Third(env).session, HeardOld(env).what);
  }

  /** Where neither handshake drew anything, the first answer in the clear or to a guess is returned. */
  lemma PastBothHandshakes(env: Env)
    requires Collects(env) && env.tlsPort && Greeted(env).what.None? && Second(env).what && HeardOld(env).what.None?
    ensures var clear := ClearThird(env);
      Third(env).what && clear.what != [] ==>
        Gathered(env, OPENED) == Drew(Outcome(ResponseSet(clear.what, None), None), clear.session)
    ensures Third(env).what && ClearThird(env).what == [] && Fourth(env).what ==>
      var guesses := GuessesFourth(env);
      Gathered(env, OPENED) == Drew(Outcome(ResponseSet(guesses.what, None), None), guesses.session)
    ensures !Third(env).what ==> Gathered(env, OPENED) == Stranded(FALLEN, Third(env))
    ensures Third(env).what && ClearThird(env).what == [] && !Fourth(env).what ==>
      Gathered(env, OPENED) == Stranded(FALLEN, Fourth(env))
  {
    hide Asked, Settled, Walked, Dial, InTheClear, Ladder, Gathered, Second, HeardOld, Refuses, GuessesAsked;
    TheLegacyHandshake(env);
    TheRungs(env);
    OneRungOn(env, HeardOld(env).session, Ladder(env)[1..][1..], false, None);
    ClearRung(env, Third(env).session);
    LastRung(env, ClearThird(env).session);
  }

  // ---------- and on any other ----------

  /** The clear, on the connection in hand. */
  function ClearFirst(env: Env): Drew<seq<string>> {
    InTheClear(env, Up(OPENED), true)
  }

  /** A guess at TLS, on a connection of its own. */
  function Reached(env: Env): Drew<bool> {
    Again(env, ClearFirst(env).session)
  }

  function TlsGuess(env: Env): Drew<Option<TlsInfo>> {
    Handshake(env.peer, env.path, Up(Reached(env).session), SPECULATIVE_TLS_TIMEOUT)
  }

  /** And the guesses at the service, from a third on. */
  function LastReached(env: Env): Drew<bool> {
    Again(env, TlsGuess(env).session)
  }

  function GuessesLast(env: Env): Drew<seq<string>> {
    GuessesAsked(env, Up(LastReached(env).session), Guesses(env), true)
  }

  /** A first answer in the clear that does not refuse is returned as it is. */
  lemma AnAnswerInTheClear(env: Env)
    requires Collects(env) && !env.tlsPort
    ensures var clear := ClearFirst(env);
      clear.what != [] && !RefusedInTheClear(clear.what) ==>
        Gathered(env, OPENED) == Drew(Outcome(ResponseSet(clear.what, None), None), clear.session)
    ensures ClearFirst(env).what == [] ==>
      Gathered(env, OPENED) == Walked(env, ClearFirst(env).session, Ladder(env)[1..], false, None)
  {
    hide Asked, Settled, Walked, InTheClear, Ladder, Refuses;
    TheRungs(env);
    OneRungOn(env, OPENED, Ladder(env), true, None);
    ClearRung(env, OPENED);
  }

  /** Where the clear drew nothing, a handshake is tried, and past that the guesses. */
  lemma PastTheClear(env: Env)
    requires Collects(env) && !env.tlsPort && ClearFirst(env).what == []
    ensures Reached(env).what && TlsGuess(env).what.Some? ==>
      var through := ThroughTunnel(env, TlsGuess(env).session, TlsGuess(env).what);
      Gathered(env, OPENED) == Drew(Outcome(through.what, Some(Tls)), through.session)
    ensures Reached(env).what && TlsGuess(env).what.None? && LastReached(env).what ==>
      var guesses := GuessesLast(env);
      Gathered(env, OPENED) == Drew(Outcome(ResponseSet(guesses.what, None), None), guesses.session)
    ensures !Reached(env).what ==> Gathered(env, OPENED) == Stranded(FALLEN, Reached(env))
    ensures Reached(env).what && TlsGuess(env).what.None? && !LastReached(env).what ==>
      Gathered(env, OPENED) == Stranded(FALLEN, LastReached(env))
  {
    hide Asked, Settled, Walked, Dial, Handshake, ThroughTunnel, Ladder, Gathered, ClearFirst, GuessesAsked;
    AnAnswerInTheClear(env);
    TheRungs(env);
    OneRungOn(env, ClearFirst(env).session, Ladder(env)[1..], false, None);
    HandshakeRung(env, Reached(env).session, SpeculativeTls, SPECULATIVE_TLS_TIMEOUT);
    LastRung(env, TlsGuess(env).session);
  }

  /** A handshake after a refusal in the clear, on the next connection. */
  function Entered(env: Env): Drew<Option<TlsInfo>> {
    Handshake(env.peer, env.path, Reached(env).session, SPECULATIVE_TLS_TIMEOUT)
  }

  /** And the legacy one, on the one after. */
  function Retried(env: Env): Drew<bool> {
    Again(env, Entered(env).session)
  }

  function RetriedOld(env: Env): Drew<Option<TlsInfo>> {
    Legacy(env.peer, env.path, Retried(env).session)
  }

  /**
   * A refusal in the clear: what a tunnel then says stands in its place; or it is returned with
   * what the legacy handshake heard, and as behind TLS; or alone.
   */
  lemma ARefusalInTheClear(env: Env)
    requires Collects(env) && !env.tlsPort && RefusedInTheClear(ClearFirst(env).what)
    ensures Reached(env).what && Entered(env).what.Some? ==>
      var through := ThroughTunnel(env, Entered(env).session, Entered(env).what);
      Gathered(env, OPENED) == Drew(Outcome(through.what, Some(Tls)), through.session)
    ensures Reached(env).what && Entered(env).what.None? && Retried(env).what && RetriedOld(env).what.Some? ==>
      Gathered(env, OPENED) ==
        Drew(Outcome(ResponseSet(ClearFirst(env).what, RetriedOld(env).what), Some(Tls)), RetriedOld(env).session)
    ensures !Reached(env).what || (Entered(env).what.None? && (!Retried(env).what || RetriedOld(env).what.None?)) ==>
      Gathered(env, OPENED) == Drew(
        Outcome(ResponseSet(ClearFirst(env).what, None), None),
        if !Reached(env).what then Reached(env).session
        else if !Retried(env).what then Retried(env).session
        else RetriedOld(env).session)
  {
    hide Asked, Walked, Dial, Handshake, Legacy, OwnTunneled, OthersTunneled, WithRedirect, Ladder, InTheClear, Refuses;
    TheRungs(env);
    OneRungOn(env, OPENED, Ladder(env), true, None);
    RefusedRung(env);
  }

  lemma RefusedRung(env: Env)
    requires !env.tlsPort && RefusedInTheClear(ClearFirst(env).what)
    ensures Settled(env, PlaintextRung, None, Asked(env, OPENED, PlaintextRung))
      == Stop(AskedThroughTls(env, ClearFirst(env).session, ResponseSet(ClearFirst(env).what, None)))
  {
    hide InTheClear, AskedThroughTls, Refuses;
  }

  // ---------- when a tunnel is named ----------

  /** Collecting in the clear and guessing complete no handshake. */
  lemma NoneCompleted(env: Env, s: Session)
    requires s.open == 1
    ensures InTheClear(env, s, true).session.completed == s.completed && InTheClear(env, s, true).session.open == 0
    ensures GuessesAsked(env, s, Guesses(env), true).session.completed == s.completed
  {
    hide InTheClear, GuessesAsked, Spends, Guesses, SpokenMs, SpokenWaits, RefusedMs, RefusedWaits,
         MuteMs, MuteWaits, AlertMs, AlertWaits, Refuses;
    InTheClearSpends(env, s, true);
    GuessesAskedSpends(env, s, Guesses(env), true);
  }

  lemma ATunnelIsHeard(env: Env, s: Session, info: TlsInfo)
    requires s.open == 1 && s.tlsHeard && s.completed
    ensures ThroughTunnel(env, s, Some(info)).session.completed
    ensures ThroughTunnel(env, s, Some(info)).what.tls.Some?
  {
    hide ThroughTunnel, Spends, TunnelMs, TunnelWaits;
    ThroughTunnelSpends(env, s, info);
  }

  /** A tunnel is named exactly where a handshake completed, or TLS was heard and the clear refused. */
  predicate NamesTheTunnel(r: Drew<Outcome>) {
    r.what.tunnel.Some? <==>
      r.session.completed || (r.what.responses.tls.Some? && RefusedInTheClear(r.what.responses.banners))
  }

  lemma NamedOnATlsNumber(env: Env)
    requires Collects(env) && env.tlsPort
    ensures NamesTheTunnel(Gathered(env, OPENED))
  {
    hide Gathered, Walked, Handshake, Dial, Legacy, ThroughTunnel, InTheClear, GuessesAsked, Refuses, Ladder, Guesses;
    TheFirstHandshake(env);
    if Greeted(env).what.Some? {
      ATunnelIsHeard(env, Greeted(env).session, Greeted(env).what.value);
      return;
    }
    TheLegacyHandshake(env);
    if !Second(env).what {
      return;
    }
    if Third(env).what {
      NoneCompleted(env, Up(Third(env).session));
    }
    if HeardOld(env).what.None? {
      PastBothHandshakes(env);
      if Third(env).what && Fourth(env).what {
        NoneCompleted(env, Up(Fourth(env).session));
      }
    } else if HeardOld(env).what.value.version == Some(REFUSED) {
      AHeldRefusal(env);
    }
  }

  lemma NamedOffTls(env: Env)
    requires Collects(env) && !env.tlsPort
    ensures NamesTheTunnel(Gathered(env, OPENED))
  {
    hide Gathered, Walked, Handshake, Dial, Legacy, ThroughTunnel, InTheClear, GuessesAsked, Refuses, Ladder, Guesses;
    NoneCompleted(env, Up(OPENED));
    AnAnswerInTheClear(env);
    if RefusedInTheClear(ClearFirst(env).what) {
      ARefusalInTheClear(env);
      if Reached(env).what && Entered(env).what.Some? {
        ATunnelIsHeard(env, Entered(env).session, Entered(env).what.value);
      }
    } else if ClearFirst(env).what == [] {
      PastTheClear(env);
      if Reached(env).what && TlsGuess(env).what.Some? {
        ATunnelIsHeard(env, TlsGuess(env).session, TlsGuess(env).what.value);
      } else if Reached(env).what && LastReached(env).what {
        NoneCompleted(env, Up(LastReached(env).session));
      }
    }
  }

  /**
   * On every run, at every level: a tunnel is named if and only if a handshake completed on it, or
   * the legacy one heard TLS and the port refused what it was asked in the clear.
   */
  lemma ATunnelIsNamedExactlyWhere(env: Env)
    ensures var r := Gathered(env, OPENED);
      r.what.tunnel.Some? <==>
        r.session.completed || (r.what.responses.tls.Some? && RefusedInTheClear(r.what.responses.banners))
  {
    hide InTheClear, Walked, ReadPort, Refuses, SpokenMs, SpokenWaits, RefusedMs, RefusedWaits, Spends,
         MuteMs, MuteWaits, AlertMs, AlertWaits;
    if Collects(env) {
      if env.tlsPort {
        NamedOnATlsNumber(env);
      } else {
        NamedOffTls(env);
      }
    } else if !env.level.Off? && !env.level.Banner? {
      InTheClearSpends(env, OPENED, false);
    }
  }
}
