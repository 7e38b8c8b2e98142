/**
 * The greatest clock a collection can show behind a path: of every walk its time and an
 * allowance for each of its waits together, and the greatest of those.
 */
module Clocks {
  import opened Wrappers
  import opened Network
  import opened Http
  import opened Collect
  import opened Bounds
  import opened Runs

  /** A time and some waits, behind a path that adds `d` to each. */
  function At(d: nat, ms: nat, waits: nat): nat {
    ms + waits * d
  }

  lemma AtAdds(d: nat, ms: nat, waits: nat, ms': nat, waits': nat)
    ensures At(d, ms, waits) + At(d, ms', waits') == At(d, ms + ms', waits + waits')
  {
    assert (waits + waits') * d == waits * d + waits' * d;
  }

  lemma AtGrows(d: nat, ms: nat, waits: nat, ms': nat, waits': nat)
    requires ms <= ms' && waits <= waits'
    ensures At(d, ms, waits) <= At(d, ms', waits')
  {
    assert (waits' - waits) * d >= 0;
    assert (waits' - waits) * d == waits' * d - waits * d;
  }

  /** From `s` to `t` at most `total` was spent, base and allowances together. */
  predicate Within(d: nat, s: Session, t: Session, total: nat) {
    At(d, t.base, t.waits) <= At(d, s.base, s.waits) + total
  }

  lemma CostsAreWithin(d: nat, s: Session, t: Session, ms: nat, waits: nat)
    requires Costs(s, t, ms, waits)
    ensures Within(d, s, t, At(d, ms, waits))
  {
    AtAdds(d, s.base, s.waits, ms, waits);
    AtGrows(d, t.base, t.waits, s.base + ms, s.waits + waits);
  }

  // ---------- rung by rung ----------

  /** The most one rung takes when it ends the climb, and when it falls through. */
  function RungAt(env: Env, rung: Rung): nat {
    var d := env.path.allowance;
    if !rung.PlaintextRung? then At(d, RungMs(env, rung), RungWaits(env, rung))
    else
      Max(At(d, SpokenMs(env), SpokenWaits(env)),
          if env.tlsPort then 0
          else At(d, RefusedMs(env), RefusedWaits(env))
               + Max(At(d, EnteredMs(env), EnteredWaits(env)), At(d, UnenteredMs(), 4)))
  }

  function FallAt(env: Env, rung: Rung): nat {
    var d := env.path.allowance;
    if !rung.PlaintextRung? then At(d, FallMs(env, rung), FallWaits(env, rung))
    else Max(At(d, MuteMs(env), MuteWaits(env)), At(d, AlertMs(env), AlertWaits(env)))
  }

  function DialAt(env: Env): nat {
    At(env.path.allowance, CONNECT_RETRY_TIMEOUT, 1)
  }

  function WalkAt(env: Env, rungs: seq<Rung>, inHand: bool): nat {
    if rungs == [] then 0
    else (if inHand then 0 else DialAt(env))
         + Max(RungAt(env, rungs[0]), FallAt(env, rungs[0]) + WalkAt(env, rungs[1..], false))
  }

  lemma SpendsAreWithin(d: nat, s: Session, t: Session)
    ensures forall ms, waits, path | Spends(s, t, ms, waits, path) :: Within(d, s, t, At(d, ms, waits))
  {
    hide At, Within, Sound;
    forall ms, waits, path | Spends(s, t, ms, waits, path)
      ensures Within(d, s, t, At(d, ms, waits))
    {
      CostsAreWithin(d, s, t, ms, waits);
    }
  }

  lemma SettledWithin(env: Env, s: Session, rung: Rung, refused: Option<ResponseSet>)
    requires s.open == 1 && Holding(s, refused)
    ensures var d := env.path.allowance;
      match Settled(env, rung, refused, Asked(env, s, rung))
      case Stop(outcome) => Within(d, s, outcome.session, RungAt(env, rung))
      case Climb(t, _) => Within(d, s, t, FallAt(env, rung))
  {
    hide Asked, AskedThroughTls, Spends, At, SpokenMs, SpokenWaits, RefusedMs, RefusedWaits, EnteredMs, EnteredWaits,
         MuteMs, MuteWaits, AlertMs, AlertWaits, SilentMs, SilentWaits, TunnelMs, TunnelWaits, RungMs, RungWaits,
         FallMs, FallWaits, Refuses;
    var d := env.path.allowance;
    AskedKeeps(env, s, rung);
    SettledKeeps(env, s, rung, refused);
    var asked := Asked(env, s, rung);
    SpendsAreWithin(d, s, asked.session);
    if rung.PlaintextRung? && !env.tlsPort && refused.None? {
      AskedThroughTlsSpends(env, asked.session, asked.what.responses);
      SpendsAreWithin(d, asked.session, AskedThroughTls(env, asked.session, asked.what.responses).session);
    }
  }

  /** Every climb, from any rung of any ladder. */
  lemma {:induction false} WalkedWithin(
      env: Env, s: Session, rungs: seq<Rung>, inHand: bool, refused: Option<ResponseSet>)
    requires s.open == (if inHand then 1 else 0) && Holding(s, refused)
    ensures Within(env.path.allowance, s, Walked(env, s, rungs, inHand, refused).session, WalkAt(env, rungs, inHand))
    decreases |rungs|
  {
    hide Dial, Asked, Settled, RungAt, FallAt, At, Sound;
    if rungs != [] {
      var connected := if inHand then Drew(true, s) else Dial(env.peer, env.path, s);
      if !inHand { CostsAreWithin(env.path.allowance, s, connected.session, CONNECT_RETRY_TIMEOUT, 1); }
      if connected.what {
        SettledWithin(env, connected.session, rungs[0], refused);
        SettledKeeps(env, connected.session, rungs[0], refused);
        match Settled(env, rungs[0], refused, Asked(env, connected.session, rungs[0])) {
          case Stop(_) =>
          case Climb(session, held) => WalkedWithin(env, session, rungs[1..], false, held);
        }
      }
    }
  }

  // ---------- the closed form ----------

  /**
   * Numbered for TLS: a tunnel at once; or both handshakes failed, and then an answer in the clear,
   * or silence or an alert there and every guess. Otherwise: an answer in the clear; a refusal there
   * and a tunnel, or no tunnel; or silence or an alert, a failed guess at TLS, and every guess.
   */
  function LongestClock(env: Env): nat {
    var d := env.path.allowance;
    var (guesses, guessWaits) := (GuessMs(Guesses(env), true), GuessWaits(Guesses(env), true));
    var dial := CONNECT_RETRY_TIMEOUT;
    if env.tlsPort then
      var failed := TLS_HANDSHAKE_TIMEOUT + LEGACY_PROBE_TIMEOUT + 2 * dial;
      Max(At(d, TLS_HANDSHAKE_TIMEOUT + TunnelMs(env), 1 + TunnelWaits(env)),
          Max(At(d, failed + SpokenMs(env), 4 + SpokenWaits(env)),
              Max(At(d, failed + MuteMs(env) + dial + guesses, 5 + MuteWaits(env) + guessWaits),
                  At(d, failed + AlertMs(env) + dial + guesses, 5 + AlertWaits(env) + guessWaits))))
    else
      var guessed := SPECULATIVE_TLS_TIMEOUT + 2 * dial;
      Max(At(d, SpokenMs(env), SpokenWaits(env)),
          Max(Max(At(d, RefusedMs(env) + EnteredMs(env), RefusedWaits(env) + EnteredWaits(env)),
                  At(d, RefusedMs(env) + UnenteredMs(), RefusedWaits(env) + 4)),
              Max(At(d, MuteMs(env) + guessed + guesses, MuteWaits(env) + 3 + guessWaits),
                  At(d, AlertMs(env) + guessed + guesses, AlertWaits(env) + 3 + guessWaits))))
  }

  lemma TheLastRungAt(env: Env)
    ensures WalkAt(env, [LastResortRung], false)
      == DialAt(env) + At(env.path.allowance, GuessMs(Guesses(env), true), GuessWaits(Guesses(env), true))
  {
    hide At, GuessMs, GuessWaits, Guesses;
    assert [LastResortRung][1..] == [];
    assert WalkAt(env, [], false) == 0;
  }

  /** A handshake that fails costs what it was given. */
  lemma HandshakesAt(env: Env)
    ensures FallAt(env, TlsRung) == At(env.path.allowance, TLS_HANDSHAKE_TIMEOUT, 1)
    ensures FallAt(env, SpeculativeTls) == At(env.path.allowance, SPECULATIVE_TLS_TIMEOUT, 1)
    ensures FallAt(env, LegacyTls) == RungAt(env, LegacyTls) == At(env.path.allowance, LEGACY_PROBE_TIMEOUT, 1)
    ensures RungAt(env, TlsRung) == At(env.path.allowance, TLS_HANDSHAKE_TIMEOUT + TunnelMs(env), 1 + TunnelWaits(env))
    ensures RungAt(env, SpeculativeTls)
      == At(env.path.allowance, SPECULATIVE_TLS_TIMEOUT + TunnelMs(env), 1 + TunnelWaits(env))
  {
    hide At, TunnelMs, TunnelWaits;
  }

  lemma TheTlsLadderAt(env: Env)
    requires env.tlsPort
    ensures WalkAt(env, Ladder(env), true) <= LongestClock(env)
  {
    hide At, SpokenMs, SpokenWaits, MuteMs, MuteWaits, AlertMs, AlertWaits, TunnelMs, TunnelWaits, GuessMs, GuessWaits,
         Guesses, Ladder, RungMs, RungWaits, FallMs, FallWaits;
    TheRungs(env);
    TheLastRungAt(env);
    HandshakesAt(env);
    var (d, l) := (env.path.allowance, Ladder(env));
    var (guesses, guessWaits) := (GuessMs(Guesses(env), true), GuessWaits(Guesses(env), true));
    var (dial, handshake, legacy) := (CONNECT_RETRY_TIMEOUT, TLS_HANDSHAKE_TIMEOUT, LEGACY_PROBE_TIMEOUT);
    var last := At(d, dial + guesses, 1 + guessWaits);
    AtAdds(d, dial, 1, guesses, guessWaits);
    var third := DialAt(env) + Max(At(d, SpokenMs(env), SpokenWaits(env)), FallAt(env, PlaintextRung) + last);
    assert WalkAt(env, l[1..][1..], false) == third;
    AtAdds(d, handshake, 1, dial, 1);
    AtAdds(d, handshake + dial, 2, legacy, 1);
    AtAdds(d, handshake + dial + legacy, 3, dial, 1);
    var failed := At(d, handshake + legacy + 2 * dial, 4);
    assert WalkAt(env, l, true) == Max(RungAt(env, TlsRung), failed - DialAt(env) + third);
    AtAdds(d, handshake + legacy + 2 * dial, 4, SpokenMs(env), SpokenWaits(env));
    AtAdds(d, MuteMs(env), MuteWaits(env), dial + guesses, 1 + guessWaits);
    AtAdds(d, AlertMs(env), AlertWaits(env), dial + guesses, 1 + guessWaits);
    AtAdds(d, handshake + legacy + 2 * dial, 4, MuteMs(env) + (dial + guesses), MuteWaits(env) + (1 + guessWaits));
    AtAdds(d, handshake + legacy + 2 * dial, 4, AlertMs(env) + (dial + guesses), AlertWaits(env) + (1 + guessWaits));
  }

  /** A refusal outlasts the silence, so a tunnel is never entered later than after one. */
  lemma RefusalsOutlast(port: Env)
    ensures SilentMs(port) <= RefusedMs(port) && SilentWaits(port) <= RefusedWaits(port)
  {
    hide Answered, Unanswered, Dials;
    if AsksItsOwn(port) {
      Multiples(port.conversations[0], Sum(port.conversations[1..]));
      Multiples(Probes(port), 0);
    } else {
      Multiples(Probes(port), 0);
    }
  }

  lemma TheOtherLadderAt(env: Env)
    requires !env.tlsPort
    ensures WalkAt(env, Ladder(env), true) <= LongestClock(env)
  {
    RefusalsOutlast(env);
    hide At, SpokenMs, SpokenWaits, RefusedMs, RefusedWaits, MuteMs, MuteWaits, AlertMs, AlertWaits, TunnelMs,
         TunnelWaits, GuessMs, GuessWaits, Guesses, Ladder, RungMs, RungWaits, FallMs, FallWaits;
    TheRungs(env);
    TheLastRungAt(env);
    HandshakesAt(env);
    var (d, l) := (env.path.allowance, Ladder(env));
    var (guesses, guessWaits) := (GuessMs(Guesses(env), true), GuessWaits(Guesses(env), true));
    var (dial, handshake) := (CONNECT_RETRY_TIMEOUT, SPECULATIVE_TLS_TIMEOUT);
    AtAdds(d, dial, 1, guesses, guessWaits);
    AtAdds(d, handshake, 1, dial + guesses, 1 + guessWaits);
    AtAdds(d, dial, 1, handshake + (dial + guesses), 2 + guessWaits);
    AtAdds(d, dial, 1, handshake + TunnelMs(env), 1 + TunnelWaits(env));
    var guessed := At(d, handshake + 2 * dial + guesses, 3 + guessWaits);
    var entered := At(d, EnteredMs(env), EnteredWaits(env));
    assert WalkAt(env, l[1..], false) == Max(entered, guessed);
    AtAdds(d, RefusedMs(env), RefusedWaits(env), EnteredMs(env), EnteredWaits(env));
    AtAdds(d, RefusedMs(env), RefusedWaits(env), UnenteredMs(), 4);
    AtAdds(d, MuteMs(env), MuteWaits(env), handshake + 2 * dial + guesses, 3 + guessWaits);
    AtAdds(d, AlertMs(env), AlertWaits(env), handshake + 2 * dial + guesses, 3 + guessWaits);
    AtGrows(d, MuteMs(env), MuteWaits(env), RefusedMs(env), RefusedWaits(env));
    AtGrows(d, AlertMs(env), AlertWaits(env), RefusedMs(env), RefusedWaits(env));
  }

  /** However the peer behaves, at every level, with an address or without one. */
  lemma TheClockIsBounded(env: Env)
    ensures Gathered(env, OPENED).session.clock <= LongestClock(env)
  {
    hide InTheClear, Walked, ReadPort, LongestClock, At, Refuses;
    var after := Gathered(env, OPENED).session;
    TheClockIsWithin(env, after);
    SomethingToSayAt(env);
    if Collects(env) {
      WalkedKeeps(env, OPENED, Ladder(env), true, None);
      WalkedWithin(env, OPENED, Ladder(env), true, None);
      if env.tlsPort { TheTlsLadderAt(env); } else { TheOtherLadderAt(env); }
    } else if !env.level.Off? && !env.level.Banner? {
      InTheClearSpends(env, OPENED, false);
      CostsAreWithin(env.path.allowance, OPENED, after, SpokenMs(env), SpokenWaits(env));
    } else if env.level.Banner? {
      CostsAreWithin(env.path.allowance, OPENED, after, BANNER_READ_TIMEOUT, 1);
    }
  }

  /** The clock of a sound session is within its base and its allowances. */
  lemma TheClockIsWithin(env: Env, s: Session)
    ensures Sound(s, env.path) ==> s.clock <= At(env.path.allowance, s.base, s.waits)
    ensures At(env.path.allowance, 0, 0) == 0
  {
    CrossingsMultiply(s.waits, env.path.allowance);
  }

  lemma SomethingToSayAt(env: Env)
    ensures LongestClock(env) >= At(env.path.allowance, SpokenMs(env), SpokenWaits(env))
    ensures LongestClock(env) >= At(env.path.allowance, BANNER_READ_TIMEOUT, 1)
  {
    hide At, RefusedMs, RefusedWaits, MuteMs, MuteWaits, AlertMs, AlertWaits, TunnelMs, TunnelWaits, GuessMs,
         GuessWaits, Guesses, SpokenMs, SpokenWaits;
    SomethingToSay(env);
    var d := env.path.allowance;
    AtGrows(d, BANNER_READ_TIMEOUT, 1, SpokenMs(env), SpokenWaits(env));
    var failed := TLS_HANDSHAKE_TIMEOUT + LEGACY_PROBE_TIMEOUT + 2 * CONNECT_RETRY_TIMEOUT;
    AtGrows(d, SpokenMs(env), SpokenWaits(env), failed + SpokenMs(env), 4 + SpokenWaits(env));
  }
}
