/**
 * What collection spends, for every peer: how long it waits, how many of its waits allow for
 * the path, and how many connections it holds. Stage by stage, up to the whole ladder.
 */
module Bounds {
  import opened Wrappers
  import opened Reading
  import opened Network
  import opened Http
  import opened Collect

  /** From `s` to `t` at most `ms` and `waits` were spent, and what every operation keeps was kept. */
  predicate Spends(s: Session, t: Session, ms: nat, waits: nat, path: Path) {
    Costs(s, t, ms, waits) && (Sound(s, path) ==> Sound(t, path))
  }

  /** No rung asked and none found out of reach between `s` and `t`. */
  predicate OnTheSameRung(s: Session, t: Session) {
    t.rungs == s.rungs && t.stranded == s.stranded
  }

  /** Nothing heard of TLS and no handshake completed between `s` and `t`. */
  predicate SameTls(s: Session, t: Session) {
    t.tlsHeard == s.tlsHeard && t.completed == s.completed
  }

  /** No redirect, no TLS, no rung between `s` and `t`. */
  predicate Undisturbed(s: Session, t: Session) {
    SameTls(s, t) && t.followed == s.followed && OnTheSameRung(s, t)
  }

  const FETCH: nat := CONNECT_RETRY_TIMEOUT + FULL_READ
  const FETCH_TLS: nat := CONNECT_RETRY_TIMEOUT + TLS_HANDSHAKE_TIMEOUT + FULL_READ

  /** `n` probes answered at their longest, `n` waited out in silence, and `n` dials. */
  function Answered(n: nat): nat { n * FULL_READ }
  function Unanswered(n: nat): nat { n * PROBE_READ_TIMEOUT }
  function Dials(n: nat): nat { n * CONNECT_RETRY_TIMEOUT }

  /** `n` probes, at their longest: where none drew anything, each cost only its wait. */
  function Asking(n: nat, drew: bool): nat {
    if drew then Answered(n) else Unanswered(n)
  }

  // ---------- one connection's questions ----------

  lemma AskedOnceSpends(env: Env, s: Session)
    ensures var r := AskedOnce(env, s);
      && Spends(s, r.session, FULL_READ, 1, env.path)
      && (r.what == None || r.what == Some([]) ==> Spends(s, r.session, PROBE_READ_TIMEOUT, 1, env.path))
      && Undisturbed(s, r.session) && r.session.open == s.open
  {
    hide ReadPort;
  }

  lemma {:induction false} AskedInTurnSpends(env: Env, s: Session, n: nat)
    ensures var r := AskedInTurn(env, s, n);
      && Spends(s, r.session, Asking(n, r.what != []), n, env.path)
      && (n == 0 ==> r.what == [])
      && Undisturbed(s, r.session) && r.session.open == s.open
    decreases n
  {
    hide AskedOnce;
    if n > 0 {
      AskedOnceSpends(env, s);
      if AskedOnce(env, s).what.Some? {
        AskedInTurnSpends(env, AskedOnce(env, s).session, n - 1);
      }
    }
  }

  lemma CollectedSpends(env: Env, s: Session, n: nat, listen: bool)
    ensures var r := Collected(env, s, n, listen);
      && Spends(s, r.session, BANNER_READ_TIMEOUT + Answered(n), 1 + n, env.path)
      && (!listen ==> Spends(s, r.session, Asking(n, r.what != []), n, env.path))
      && (!listen && n == 0 ==> r.what == [])
      && (r.what == [] ==> Spends(s, r.session, BANNER_READ_TIMEOUT + Unanswered(n), 1 + n, env.path))
      && Undisturbed(s, r.session) && r.session.open == s.open
  {
    hide AskedInTurn, ReadPort;
    AskedInTurnSpends(env, s, n);
    AskedInTurnSpends(env, ReadPort(env.peer, env.path, s, Words, BANNER_READ_TIMEOUT, 0).session, n);
  }

  // ---------- redirects ----------

  lemma PageOverSpends(env: Env, s: Session)
    ensures var r := PageOver(env, s);
      && Spends(s, r.session, FULL_READ, 1, env.path)
      && Undisturbed(s, r.session) && r.session.open == s.open - 1
  {
    hide ReadPort;
  }

  lemma FetchedSpends(env: Env, s: Session, target: string, tls: bool)
    requires s.open == 0 && (tls ==> s.tlsHeard && s.completed)
    ensures var r := Fetched(env, s, target, tls);
      && Spends(s, r.session, if tls then FETCH_TLS else FETCH, if tls then 3 else 2, env.path)
      && Undisturbed(s.(followed := s.followed + [target]), r.session) && r.session.open == 0
  {
    hide Dial, Handshake, PageOver;
    var dialled := Dial(env.peer, env.path, s.(followed := s.followed + [target]));
    PageOverSpends(env, dialled.session);
    PageOverSpends(env, Handshake(env.peer, env.path, dialled.session, TLS_HANDSHAKE_TIMEOUT).session);
  }

  /** A redirect costs one connection and one read, and a handshake between them through TLS. */
  lemma WithRedirectSpends(env: Env, s: Session, banners: seq<string>, addressed: bool, tls: bool)
    requires s.open == 0 && (tls ==> s.tlsHeard && s.completed)
    ensures var r := WithRedirect(env, s, banners, addressed, tls);
      && Spends(s, r.session, if tls then FETCH_TLS else FETCH, if tls then 3 else 2, env.path)
      && r.session.open == 0 && SameTls(s, r.session) && OnTheSameRung(s, r.session)
      && banners <= r.what && (banners == [] ==> r == Drew([], s))
      && (RefusedInTheClear(banners) ==> r == Drew(banners, s))
      && r.session.followed == s.followed + (if addressed then Items(Redirect(env, banners, tls)) else [])
  {
    hide Fetched, RedirectPath;
    var target := Redirect(env, banners, tls);
    if target.Some? {
      FetchedSpends(env, s, target.value, tls);
    }
    if RefusedInTheClear(banners) {
      ARefusalRedirectsNowhere(banners[0], url => env.leadsBack(tls, url));
    }
  }

  // ---------- in the clear ----------

  /** The generic question: refused or answered in TLS it is one read, silent one wait. */
  lemma GenericSpends(env: Env, s: Session, addressed: bool)
    requires s.open == 1
    ensures var r := AskedGenerically(env, s, addressed);
      && r.session.open == 0 && SameTls(s, r.session) && OnTheSameRung(s, r.session)
      && Spends(s, r.session, FULL_READ + FETCH, 3, env.path)
      && (r.what.Spoke? ==> r.what.banners != [])
      && (r.what.Spoke? && Refuses(r.what.banners[0]) ==> Spends(s, r.session, FULL_READ, 1, env.path))
      && (r.what.AnsweredTls? ==> Spends(s, r.session, FULL_READ, 1, env.path))
      && (r.what.Silent? ==> Spends(s, r.session, PROBE_READ_TIMEOUT, 1, env.path))
  {
    hide ReadPort, Fetched, Leads, Written, Refuses, LooksLikeTls, Crossings;
    var read := GenericRead(env, s);
    var first := env.text(read.what);
    var target := Leads(env, first);
    if target.Some? {
      FetchedSpends(env, Close(read.session), target.value, false);
    }
    if Refuses(first) {
      ARefusalLeadsNowhere(env, first);
    }
  }

  lemma ARefusalLeadsNowhere(env: Env, reply: string)
    ensures Refuses(reply) ==> Leads(env, reply).None?
  {
    if Refuses(reply) {
      ARefusalRedirectsNowhere(reply, url => env.leadsBack(false, url));
    }
  }

  lemma ReconnectedSpends(env: Env, s: Session, held: bool, addressed: bool)
    requires s.open == if held then 1 else 0
    ensures var r := Reconnected(env, s, held, addressed);
      && Spends(s, r.session, CONNECT_RETRY_TIMEOUT, 1, env.path)
      && Undisturbed(s, r.session) && r.session.open == if r.what then 1 else 0
  {
    hide Dial;
  }

  lemma DroppedSpends(s: Session, held: bool, path: Path)
    requires s.open == if held then 1 else 0
    ensures var t := Dropped(s, held);
      Spends(s, t, 0, 0, path) && Undisturbed(s, t) && t.open == 0
  {
  }

  /** What the generic question hears, where it is heard in the clear. */
  function GenericText(env: Env, s: Session): Option<string> {
    var heard := GenericRead(env, s).what;
    if heard == [] || LooksLikeTls(heard) then None else Some(env.text(heard))
  }

  /** It follows the redirect its reply makes, and only that. */
  lemma GenericFollows(env: Env, s: Session, addressed: bool)
    requires s.open == 1
    ensures var (r, text) := (AskedGenerically(env, s, addressed), GenericText(env, s));
      && (r.what.Spoke? <==> text.Some?)
      && (r.what.Spoke? ==> r.what.banners != [] && r.what.banners[0] == text.value)
      && r.session.followed == s.followed + (if addressed && text.Some? then Items(Leads(env, text.value)) else [])
  {
    hide ReadPort, Fetched, Leads, Written, LooksLikeTls, Sound;
    var read := GenericRead(env, s);
    var target := Leads(env, env.text(read.what));
    if target.Some? {
      FetchedSpends(env, Close(read.session), target.value, false);
    }
  }

  lemma Multiples(m: nat, n: nat)
    ensures Answered(m + n) == Answered(m) + Answered(n) && Unanswered(m + n) == Unanswered(m) + Unanswered(n)
    ensures Dials(m + n) == Dials(m) + Dials(n) && Retunnels(m + n) == Retunnels(m) + Retunnels(n)
    ensures Unanswered(m) <= Answered(m)
    ensures Answered(0) == 0 && Dials(0) == 0 && Retunnels(0) == 0
    ensures Dials(1) == CONNECT_RETRY_TIMEOUT && Retunnels(1) == CONNECT_RETRY_TIMEOUT + TLS_HANDSHAKE_TIMEOUT
  {
  }

  /** A dial and its probes for each service, and only the probes' waits where none answers. */
  lemma {:induction false} OthersAskedSpends(env: Env, s: Session, services: seq<nat>, held: bool, addressed: bool)
    requires s.open == if held then 1 else 0
    ensures var r := OthersAsked(env, s, services, held, addressed);
      && r.session.open == 0 && Undisturbed(s, r.session)
      && Spends(s, r.session, Dials(|services|) + Asking(Sum(services), r.what != []),
                |services| + Sum(services), env.path)
      && (Sum(services) == 0 ==> r.what == [])
    decreases |services|
  {
    hide Reconnected, AskedInTurn, Dropped, Sound, After, Answered, Unanswered, Dials;
    Multiples(0, 0);
    if services == [] {
      DroppedSpends(s, held, env.path);
    } else {
      Multiples(services[0], Sum(services[1..]));
      Multiples(Sum(services[1..]), 0);
      Multiples(1, |services| - 1);
      var connected := Reconnected(env, s, held, addressed);
      ReconnectedSpends(env, s, held, addressed);
      AskedInTurnSpends(env, connected.session, services[0]);
      if connected.what {
        var asked := AskedInTurn(env, connected.session, services[0]).session;
        OthersAskedSpends(env, asked, services[1..], true, addressed);
      }
    }
  }

  /** Whether the port's own service is asked first, on the connection in hand. */
  predicate AsksItsOwn(env: Env) {
    env.named && env.conversations != []
  }

  function Services(env: Env): nat {
    |env.conversations|
  }

  function Probes(env: Env): nat {
    Sum(env.conversations)
  }

  /** What listening for a greeting costs, on a port where one may come unasked. */
  function GreetingMs(env: Env): nat {
    if env.askedFirst then 0 else BANNER_READ_TIMEOUT
  }

  function GreetingWaits(env: Env): nat {
    if env.askedFirst then 0 else 1
  }

  /** A greeting and every probe answered, one dial for each service after the first. */
  function OwnMs(env: Env): nat
    requires env.conversations != []
  {
    GreetingMs(env) + Answered(Probes(env)) + Dials(Services(env) - 1)
  }

  function OwnWaits(env: Env): nat
    requires env.conversations != []
  {
    GreetingWaits(env) + Probes(env) + Services(env) - 1
  }

  /** What every service asked on a connection of its own costs. */
  function SharedMs(env: Env): nat {
    Dials(Services(env)) + Answered(Probes(env))
  }

  /**
   * The longest a port can take over an answer in the clear. The generic question follows its
   * own redirect, and the services' set its own, where it holds any reply at all.
   */
  function SpokenMs(env: Env): nat {
    if AsksItsOwn(env) then OwnMs(env) + FETCH
    else FULL_READ + FETCH + SharedMs(env) + if env.named || Probes(env) > 0 then FETCH else 0
  }

  function SpokenWaits(env: Env): nat {
    if AsksItsOwn(env) then OwnWaits(env) + 2
    else Services(env) + Probes(env) + 3 + if env.named || Probes(env) > 0 then 2 else 0
  }

  /** The longest it can take over one that opens with a refusal: the refusal redirects nowhere. */
  function RefusedMs(env: Env): nat {
    if AsksItsOwn(env) then OwnMs(env)
    else FULL_READ + SharedMs(env) + if !env.named && Probes(env) > 0 then FETCH else 0
  }

  function RefusedWaits(env: Env): nat {
    if AsksItsOwn(env) then OwnWaits(env)
    else Services(env) + Probes(env) + 1 + if !env.named && Probes(env) > 0 then 2 else 0
  }

  /** What saying nothing at all takes: no more than the waits for it. */
  function MuteMs(env: Env): nat {
    if AsksItsOwn(env) then GreetingMs(env) + Unanswered(Probes(env)) + Dials(Services(env) - 1)
    else PROBE_READ_TIMEOUT + Dials(Services(env)) + Unanswered(Probes(env))
  }

  function MuteWaits(env: Env): nat {
    if AsksItsOwn(env) then OwnWaits(env) else Services(env) + Probes(env) + 1
  }

  /** The longest an opening that turns out to be TLS takes, which ends the clear there. */
  function AlertMs(env: Env): nat {
    if AsksItsOwn(env) then GreetingMs(env) + Answered(env.conversations[0]) else FULL_READ
  }

  function AlertWaits(env: Env): nat {
    if AsksItsOwn(env) then GreetingWaits(env) + env.conversations[0] else 1
  }

  /** So the longest it can take over saying nothing the clear keeps, and the most waits. */
  function SilentMs(env: Env): nat {
    Max(MuteMs(env), AlertMs(env))
  }

  function SilentWaits(env: Env): nat {
    Max(MuteWaits(env), AlertWaits(env))
  }

  function Max(a: nat, b: nat): nat {
    if a < b then b else a
  }

  lemma OpenedWithSpends(env: Env, s: Session, addressed: bool)
    requires s.open == 1
    ensures var r := OpenedWith(env, s, addressed);
      && SameTls(s, r.session) && OnTheSameRung(s, r.session)
      && r.session.open == (if r.what.Opening? && r.what.held then 1 else 0)
      && (AsksItsOwn(env) ==>
            && r.session.followed == s.followed
            && var n := env.conversations[0];
            && Spends(s, r.session, GreetingMs(env) + Answered(n), GreetingWaits(env) + n, env.path)
            && (r.what.Opening? ==>
                  && r.what.rest == env.conversations[1..]
                  && (r.what.banners == [] ==>
                        Spends(s, r.session, GreetingMs(env) + Unanswered(n), GreetingWaits(env) + n, env.path))))
      && (!AsksItsOwn(env) ==>
            && Spends(s, r.session, FULL_READ + FETCH, 3, env.path)
            && (r.what.SpokeTls? ==> Spends(s, r.session, FULL_READ, 1, env.path))
            && (r.what.Opening? ==>
                  && r.what.rest == env.conversations
                  && (r.what.banners == [] ==> Spends(s, r.session, PROBE_READ_TIMEOUT, 1, env.path))
                  && (RefusedInTheClear(r.what.banners) ==> Spends(s, r.session, FULL_READ, 1, env.path))))
  {
    hide Collected, AskedGenerically;
    GenericSpends(env, s, addressed);
    if AsksItsOwn(env) {
      CollectedSpends(env, s, env.conversations[0], !env.askedFirst);
    }
  }

  /** In the clear, by what came of it. The connection is consumed and nothing is held after. */
  predicate ClearSpends(env: Env, s: Session, r: Drew<seq<string>>) {
    && r.session.open == 0 && SameTls(s, r.session) && OnTheSameRung(s, r.session)
    && Spends(s, r.session, SpokenMs(env), SpokenWaits(env), env.path)
    && (RefusedInTheClear(r.what) ==> Spends(s, r.session, RefusedMs(env), RefusedWaits(env), env.path))
    && (r.what == [] ==>
          || Spends(s, r.session, MuteMs(env), MuteWaits(env), env.path)
          || Spends(s, r.session, AlertMs(env), AlertWaits(env), env.path))
  }

  /** The set a redirect is followed for: everything on a port a service names, and else its services' replies. */
  function SetOf(named: bool, own: seq<string>, theirs: seq<string>): seq<string> {
    if named then own + theirs else theirs
  }

  /** The clear, by its parts. */
  lemma TheClearIs(env: Env, s: Session, addressed: bool)
    ensures var (r, opening) := (InTheClear(env, s, addressed), OpenedWith(env, s, addressed));
      if opening.what.SpokeTls? then r == Drew([], opening.session)
      else
        var own := opening.what.banners;
        var theirs := OthersAsked(env, opening.session, opening.what.rest, opening.what.held, addressed);
        var followed := WithRedirect(env, theirs.session, SetOf(env.named, own, theirs.what), addressed, false);
        r == Drew(if env.named then followed.what else own + followed.what, followed.session)
  {
    hide OpenedWith, OthersAsked, WithRedirect;
  }

  /** Whatever came of it, the connection is closed and nothing was heard of TLS. */
  lemma InTheClearKeeps(env: Env, s: Session, addressed: bool)
    requires s.open == 1
    ensures var t := InTheClear(env, s, addressed).session; t.open == 0 && SameTls(s, t) && OnTheSameRung(s, t)
  {
    hide InTheClear, OpenedWith, OthersAsked, WithRedirect, Refuses, Spends, Asking, GreetingMs, GreetingWaits;
    TheClearIs(env, s, addressed);
    OpenedWithSpends(env, s, addressed);
    var opening := OpenedWith(env, s, addressed);
    if opening.what.Opening? {
      OthersAskedSpends(env, opening.session, opening.what.rest, opening.what.held, addressed);
      var theirs := OthersAsked(env, opening.session, opening.what.rest, opening.what.held, addressed);
      var set' := SetOf(env.named, opening.what.banners, theirs.what);
      WithRedirectSpends(env, theirs.session, set', addressed, false);
    }
  }

  lemma OwnClearSpends(env: Env, s: Session, addressed: bool)
    requires s.open == 1 && AsksItsOwn(env)
    ensures ClearSpends(env, s, InTheClear(env, s, addressed))
  {
    hide InTheClear, OpenedWith, OthersAsked, WithRedirect, Refuses, Sound, Answered, Unanswered, Dials, SameTls,
         OnTheSameRung;
    InTheClearKeeps(env, s, addressed);
    TheClearIs(env, s, addressed);
    OpenedWithSpends(env, s, addressed);
    var opening := OpenedWith(env, s, addressed);
    Multiples(env.conversations[0], Sum(env.conversations[1..]));
    Multiples(Sum(env.conversations[1..]), 0);
    if opening.what.Opening? {
      OthersAskedSpends(env, opening.session, opening.what.rest, opening.what.held, addressed);
      var theirs := OthersAsked(env, opening.session, opening.what.rest, opening.what.held, addressed);
      WithRedirectSpends(env, theirs.session, opening.what.banners + theirs.what, addressed, false);
    }
  }

  /** A port a service names and no service probes: the generic question alone. */
  lemma UnprobedClearSpends(env: Env, s: Session, addressed: bool)
    requires s.open == 1 && env.named && env.conversations == []
    ensures ClearSpends(env, s, InTheClear(env, s, addressed))
  {
    hide InTheClear, OpenedWith, OthersAsked, WithRedirect, Refuses, Sound, Answered, SameTls, OnTheSameRung;
    InTheClearKeeps(env, s, addressed);
    TheClearIs(env, s, addressed);
    OpenedWithSpends(env, s, addressed);
    Multiples(0, 0);
    var opening := OpenedWith(env, s, addressed);
    if opening.what.Opening? {
      OthersAskedSpends(env, opening.session, [], opening.what.held, addressed);
      var theirs := OthersAsked(env, opening.session, [], opening.what.held, addressed);
      assert theirs.what == [] && opening.what.banners + [] == opening.what.banners;
      WithRedirectSpends(env, theirs.session, opening.what.banners, addressed, false);
    }
  }

  /** A port services only share: the generic question, then each of them. */
  lemma SharedClearSpends(env: Env, s: Session, addressed: bool)
    requires s.open == 1 && !env.named
    ensures ClearSpends(env, s, InTheClear(env, s, addressed))
  {
    hide InTheClear, OpenedWith, OthersAsked, WithRedirect, Refuses, Sound, Answered, Unanswered, Dials, Sum, SameTls,
         OnTheSameRung;
    InTheClearKeeps(env, s, addressed);
    TheClearIs(env, s, addressed);
    OpenedWithSpends(env, s, addressed);
    var opening := OpenedWith(env, s, addressed);
    Multiples(Sum(env.conversations), 0);
    if opening.what.Opening? {
      OthersAskedSpends(env, opening.session, env.conversations, opening.what.held, addressed);
      var theirs := OthersAsked(env, opening.session, env.conversations, opening.what.held, addressed);
      WithRedirectSpends(env, theirs.session, theirs.what, addressed, false);
    }
  }

  lemma InTheClearSpends(env: Env, s: Session, addressed: bool)
    requires s.open == 1
    ensures ClearSpends(env, s, InTheClear(env, s, addressed))
  {
    if AsksItsOwn(env) {
      OwnClearSpends(env, s, addressed);
    } else if env.named {
      UnprobedClearSpends(env, s, addressed);
    } else {
      SharedClearSpends(env, s, addressed);
    }
  }

  // ---------- through TLS ----------

  /** A dial and a handshake for each of `n` services. */
  function Retunnels(n: nat): nat { n * (CONNECT_RETRY_TIMEOUT + TLS_HANDSHAKE_TIMEOUT) }

  lemma RetunneledSpends(env: Env, s: Session)
    requires s.open == 0 && s.tlsHeard && s.completed
    ensures var r := Retunneled(env, s);
      && Spends(s, r.session, Retunnels(1), 2, env.path)
      && Undisturbed(s, r.session) && r.session.open == if r.what then 1 else 0
  {
    hide Dial, Handshake;
  }

  lemma CloseKeeps(s: Session, path: Path)
    requires s.open == 1
    ensures Sound(s, path) ==> Sound(Close(s), path)
  {
  }

  lemma {:induction false} OthersTunneledSpends(env: Env, s: Session, services: seq<nat>)
    requires s.open == 1 && s.tlsHeard && s.completed
    ensures var r := OthersTunneled(env, s, services);
      && r.session.open == 0 && Undisturbed(s, r.session)
      && Spends(s, r.session, Retunnels(|services|) + Answered(Sum(services)), 2 * |services| + Sum(services), env.path)
      && (services == [] ==> r.what == [])
    decreases |services|
  {
    hide Retunneled, AskedInTurn, Sound, After, Answered, Retunnels;
    Multiples(0, 0);
    CloseKeeps(s, env.path);
    if services != [] {
      Multiples(services[0], Sum(services[1..]));
      Multiples(1, |services| - 1);
      Multiples(services[0], 0);
      var tunnel := Retunneled(env, Close(s));
      RetunneledSpends(env, Close(s));
      AskedInTurnSpends(env, tunnel.session, services[0]);
      if tunnel.what {
        OthersTunneledSpends(env, AskedInTurn(env, tunnel.session, services[0]).session, services[1..]);
      }
    }
  }

  /** Whether there is anything to ask through a tunnel. */
  predicate AsksInTunnels(env: Env) {
    env.conversations != [] || env.generic > 0
  }

  /** The longest collecting through a tunnel takes: every service answers and redirects. */
  function TunnelMs(env: Env): nat {
    if env.conversations != [] then
      GreetingMs(env) + Answered(Probes(env)) + Retunnels(Services(env) - 1) + FETCH_TLS
    else if env.generic > 0 then Answered(env.generic) + FETCH_TLS
    else 0
  }

  function TunnelWaits(env: Env): nat {
    if env.conversations != [] then GreetingWaits(env) + Probes(env) + 2 * (Services(env) - 1) + 3
    else if env.generic > 0 then env.generic + 3
    else 0
  }

  lemma OwnTunneledSpends(env: Env, s: Session)
    ensures var r := OwnTunneled(env, s);
      && Undisturbed(s, r.session) && r.session.open == s.open
      && (env.conversations == [] ==> Spends(s, r.session, Answered(env.generic), env.generic, env.path))
      && (!AsksInTunnels(env) ==> r.what == [])
      && (env.conversations != [] ==>
            var n := env.conversations[0];
            Spends(s, r.session, GreetingMs(env) + Answered(n), GreetingWaits(env) + n, env.path))
  {
    hide Collected;
    if env.conversations == [] {
      CollectedSpends(env, s, env.generic, false);
    } else {
      CollectedSpends(env, s, env.conversations[0], !env.askedFirst);
    }
  }

  lemma ThroughTunnelSpends(env: Env, s: Session, info: TlsInfo)
    requires s.open == 1 && s.tlsHeard && s.completed
    ensures var r := ThroughTunnel(env, s, Some(info));
      && r.session.open == 0 && SameTls(s, r.session) && OnTheSameRung(s, r.session) && r.what.tls == Some(info)
      && Spends(s, r.session, TunnelMs(env), TunnelWaits(env), env.path)
  {
    hide OwnTunneled, OthersTunneled, WithRedirect, Sound;
    OwnTunneledSpends(env, s);
    var own := OwnTunneled(env, s);
    OthersTunneledSpends(env, own.session, OtherServices(env));
    var theirs := OthersTunneled(env, own.session, OtherServices(env));
    WithRedirectSpends(env, theirs.session, own.what + theirs.what, true, true);
    assert !AsksInTunnels(env) ==> own.what + theirs.what == [];
  }

  /** A handshake, and the tunnel where it completes: TLS is heard exactly where the result says so. */
  lemma ShakenSpends(env: Env, s: Session, budget: nat)
    requires s.open == 1
    ensures var r := Shaken(env, s, budget);
      && r.session.open == 0 && OnTheSameRung(s, r.session)
      && r.session.tlsHeard == (s.tlsHeard || r.what.responses.tls.Some?)
      && r.session.completed == (s.completed || r.what.responses.tls.Some?)
      && (r.what.tunnel.Some? <==> r.what.responses.tls.Some?)
      && Spends(s, r.session, budget + TunnelMs(env), 1 + TunnelWaits(env), env.path)
      && (r.what.responses.tls.None? ==>
            r.what.responses == NOTHING && Spends(s, r.session, budget, 1, env.path))
  {
    hide Handshake, TunnelMs, TunnelWaits, Sound;
    var shaken := Handshake(env.peer, env.path, s, budget);
    if shaken.what.Some? {
      ThroughTunnelSpends(env, shaken.session, shaken.what.value);
      hide ThroughTunnel;
    }
  }

  // ---------- the last resort ----------

  /** A connection and a read for each of `n` guesses, the first connection perhaps in hand. */
  function GuessMs(n: nat, inHand: bool): nat {
    Answered(n) + Dials(if inHand && n > 0 then n - 1 else n)
  }

  function GuessWaits(n: nat, inHand: bool): nat {
    n + if inHand && n > 0 then n - 1 else n
  }

  lemma GuessedSpends(env: Env, s: Session)
    ensures var r := Guessed(env, s);
      && Spends(s, r.session, FULL_READ, 1, env.path)
      && Undisturbed(s, r.session) && r.session.open == s.open - 1
  {
    hide ReadPort;
  }

  lemma {:induction false} GuessesAskedSpends(env: Env, s: Session, n: nat, inHand: bool)
    requires s.open == if inHand then 1 else 0
    ensures var r := GuessesAsked(env, s, n, inHand);
      && r.session.open == 0 && Undisturbed(s, r.session)
      && Spends(s, r.session, GuessMs(n, inHand), GuessWaits(n, inHand), env.path)
    decreases n
  {
    hide Dial, Guessed, Crossings;
    if n > 0 {
      var connected := if inHand then Drew(true, s) else Dial(env.peer, env.path, s);
      if connected.what {
        GuessedSpends(env, connected.session);
        GuessesAskedSpends(env, Guessed(env, connected.session).session, n - 1, false);
      }
    }
  }

  // ---------- the ladder ----------

  /** What asking through TLS after a refusal in the clear adds: a tunnel, or both handshakes failed. */
  function EnteredMs(env: Env): nat {
    CONNECT_RETRY_TIMEOUT + SPECULATIVE_TLS_TIMEOUT + TunnelMs(env)
  }

  function EnteredWaits(env: Env): nat {
    2 + TunnelWaits(env)
  }

  function UnenteredMs(): nat {
    CONNECT_RETRY_TIMEOUT + SPECULATIVE_TLS_TIMEOUT + CONNECT_RETRY_TIMEOUT + LEGACY_PROBE_TIMEOUT
  }

  /** So the most it adds. */
  function RefusalMs(env: Env): nat {
    Max(EnteredMs(env), UnenteredMs())
  }

  function RefusalWaits(env: Env): nat {
    Max(EnteredWaits(env), 4)
  }

  lemma AskedThroughTlsSpends(env: Env, s: Session, clear: ResponseSet)
    requires s.open == 0 && clear.tls.None? && !s.tlsHeard
    ensures var r := AskedThroughTls(env, s, clear);
      && r.session.open == 0 && OnTheSameRung(s, r.session)
      && (clear.IsEmpty() || !r.what.responses.IsEmpty())
      && (r.session.tlsHeard <==> r.what.responses.tls.Some?)
      && (r.what.tunnel.Some? <==> r.what.responses.tls.Some?)
      && (|| Spends(s, r.session, EnteredMs(env), EnteredWaits(env), env.path)
          || Spends(s, r.session, UnenteredMs(), 4, env.path))
  {
    hide Dial, Shaken, Legacy, TunnelMs, TunnelWaits, Crossings;
    var first := Dial(env.peer, env.path, s);
    if first.what {
      ShakenSpends(env, first.session, SPECULATIVE_TLS_TIMEOUT);
    }
  }
}
