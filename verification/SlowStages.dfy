/** What each stage of a collection comes to, to the millisecond, against a peer that makes it last. */
module SlowStages {
  import opened Wrappers
  import opened Network
  import opened Http
  import opened Collect
  import opened Bounds
  import opened Slowest

  const DIALLED := Cost(1, CONNECT_RETRY_TIMEOUT, 1)

  // ---------- redirects ----------

  function FetchCost(tls: bool): Cost {
    if tls then Cost(4, FETCH_TLS, 3) else Cost(3, FETCH, 2)
  }

  lemma SlowPage(p: Script, s: Session)
    requires Legible(p.port) && p.turn <= s.step
    ensures var r := PageOver(p.Facing(), s); r.what.Some? && On(p.d(), s, r.session, Cost(2, FULL_READ, 1))
  {
    hide ReadPort, Voiced, Scripted, LooksLikeTls;
    SlowRead(p, Write(p.Facing().peer, s).session, Words);
  }

  /** Whether a page can be fetched so: after the turn, and through TLS where handshakes complete. */
  predicate Fetches(p: Script, s: Session, tls: bool) {
    p.turn <= s.step && (tls ==> p.completes && p.shake <= s.step)
  }

  lemma SlowFetch(p: Script, s: Session, target: string, tls: bool)
    requires Legible(p.port) && Fetches(p, s, tls)
    ensures var r := Fetched(p.Facing(), s, target, tls); r.what.Some? && On(p.d(), s, r.session, FetchCost(tls))
  {
    hide Dial, Handshake, PageOver, Legible;
    var env := p.Facing();
    var followed := s.(followed := s.followed + [target]);
    SlowDial(p, followed);
    var dialled := Dial(env.peer, env.path, followed).session;
    if tls {
      SlowHandshake(p, dialled, TLS_HANDSHAKE_TIMEOUT);
      SlowPage(p, Handshake(env.peer, env.path, dialled, TLS_HANDSHAKE_TIMEOUT).session);
    } else {
      SlowPage(p, dialled);
    }
  }

  /** A set that opens with a redirect has it followed, and one that opens with a refusal has none. */
  lemma SlowRedirect(p: Script, s: Session, banners: seq<string>, voice: Voice, tls: bool)
    requires Legible(p.port) && banners != [] && Voiced(voice, banners[0])
    requires voice.Refusing? || (voice.Redirecting? && Fetches(p, s, tls))
    ensures var r := WithRedirect(p.Facing(), s, banners, true, tls);
      && r.what != [] && r.what[0] == banners[0]
      && On(p.d(), s, r.session, if voice.Redirecting? then FetchCost(tls) else NO_COST)
      && Redirect(p.Facing(), banners, tls) == (if voice.Redirecting? then Some("/") else None)
  {
    hide Fetched, RedirectPath, Refuses, SpeaksHttp, On, Voiced, Legible;
    var leadsBack := url => p.Facing().leadsBack(tls, url);
    VoicesAre(voice, banners[0], leadsBack);
    if voice.Redirecting? {
      SlowFetch(p, s, "/", tls);
    } else {
      ARefusalRedirectsNowhere(banners[0], leadsBack);
      assert SpeaksHttp(banners[0]) by { RefusalsAreHttp(banners[0]); }
      OnAtOnce(p.d(), s, s);
    }
  }

  lemma RefusalsAreHttp(reply: string)
    ensures Refuses(reply) ==> SpeaksHttp(reply)
  {
  }

  lemma NothingIsFollowed(p: Script, s: Session, tls: bool)
    ensures WithRedirect(p.Facing(), s, [], true, tls) == Drew([], s) && On(p.d(), s, s, NO_COST)
  {
    OnAtOnce(p.d(), s, s);
  }

  // ---------- the generic question ----------

  function GenericCost(port: Env, voice: Voice): Cost {
    Cost(port.generic + 1, Asking(1, !voice.Mute?), 1).Then(if voice.Redirecting? then FetchCost(false) else NO_COST)
  }

  lemma SlowGenericRead(p: Script, s: Session, voice: Voice)
    requires Legible(p.port) && voice == p.VoiceAt(s.step + p.port.generic)
    ensures var r := GenericRead(p.Facing(), s);
      && On(p.d(), s, r.session, Cost(p.port.generic + 1, Asking(1, !voice.Mute?), 1))
      && (if voice.Mute? then r.what == []
          else && r.what != [] && Voiced(voice, p.port.text(r.what)) && (LooksLikeTls(r.what) <==> voice.Alerting?))
  {
    hide ReadPort, Written, Voiced, Scripted, LooksLikeTls, Legible;
    SlowWritten(p, s, p.port.generic);
    SlowRead(p, s.(step := s.step + p.port.generic), Words);
  }

  lemma SlowGeneric(p: Script, s: Session, voice: Voice)
    requires Legible(p.port) && voice == p.VoiceAt(s.step + p.port.generic)
    requires voice.Redirecting? ==> p.turn <= s.step + p.port.generic
    ensures var (r, text) := (AskedGenerically(p.Facing(), s, true), GenericText(p.Facing(), s));
      && On(p.d(), s, r.session, GenericCost(p.port, voice))
      && (match voice
          case Mute => r.what == Silent
          case Alerting => r.what == AnsweredTls
          case _ =>
            && r.what.Spoke? && r.what.banners != [] && Voiced(voice, r.what.banners[0])
            && text == Some(r.what.banners[0])
            && Leads(p.Facing(), r.what.banners[0]) == if voice.Redirecting? then Some("/") else None)
  {
    hide GenericRead, Leads, Fetched, LooksLikeTls, Voiced, Legible, On;
    SlowGenericRead(p, s, voice);
    var env := p.Facing();
    var read := GenericRead(env, s);
    var closed := Close(read.session);
    var cost := Cost(p.port.generic + 1, Asking(1, !voice.Mute?), 1);
    StillOn(p, s, read.session, cost);
    OnAtOnce(p.d(), closed, closed);
    OnTwice(p.d(), s, closed, closed, cost, NO_COST);
    if voice.Refusing? || voice.Redirecting? {
      var first := env.text(read.what);
      SlowLeads(p, first, voice);
      if voice.Redirecting? {
        SlowFetch(p, closed, "/", false);
        OnTwice(p.d(), s, closed, Fetched(env, closed, "/", false).session, cost, FetchCost(false));
      }
    }
  }

  lemma StillOn(p: Script, s: Session, t: Session, cost: Cost)
    requires On(p.d(), s, t, cost)
    ensures On(p.d(), s, Close(t), cost) && Close(t).step == s.step + cost.steps
  {
  }

  lemma SlowLeads(p: Script, reply: string, voice: Voice)
    requires Voiced(voice, reply) && (voice.Refusing? || voice.Redirecting?)
    ensures Leads(p.Facing(), reply) == if voice.Redirecting? then Some("/") else None
  {
    hide RedirectPath, Refuses, SpeaksHttp, Voiced;
    var leadsBack := url => p.Facing().leadsBack(false, url);
    VoicesAre(voice, reply, leadsBack);
    if voice.Refusing? { ARefusalRedirectsNowhere(reply, leadsBack); }
  }

  // ---------- the other services, in the clear ----------

  lemma SlowReconnected(p: Script, s: Session, held: bool)
    ensures var r := Reconnected(p.Facing(), s, held, true); r.what && On(p.d(), s, r.session, DIALLED)
  {
    hide Dial;
    SlowDial(p, if held then Close(s) else s);
  }

  function OthersCost(services: seq<nat>, drew: bool): Cost {
    Cost(|services| + 2 * Sum(services), Dials(|services|) + Asking(Sum(services), drew), |services| + Sum(services))
  }

  lemma OthersUnroll(services: seq<nat>, drew: bool)
    requires services != []
    ensures OthersCost(services, drew)
      == DIALLED.Then(Cost(2 * services[0], Asking(services[0], drew), services[0]))
         .Then(OthersCost(services[1..], drew))
  {
    hide Answered, Unanswered, Dials, Sum;
    SumUnrolls(services);
    Multiples(services[0], Sum(services[1..]));
    Multiples(1, |services| - 1);
  }

  /** Every service asked in the clear, a connection each. */
  lemma {:induction false} SlowOthers(p: Script, s: Session, services: seq<nat>, held: bool, voice: Voice)
    requires Legible(p.port) && p.Steady(s.step, s.step + |services| + 2 * Sum(services), voice)
    ensures var r := OthersAsked(p.Facing(), s, services, held, true);
      AllVoiced(r.what, voice, Sum(services)) && On(p.d(), s, r.session, OthersCost(services, !voice.Mute?))
    decreases |services|
  {
    hide Reconnected, AskedInTurn, On, Voiced, Legible, Script.Facing;
    var env := p.Facing();
    if services == [] {
      OnAtOnce(p.d(), s, Dropped(s, held));
    } else {
      var (n, rest) := (services[0], services[1..]);
      var asking := Cost(2 * n, Asking(n, !voice.Mute?), n);
      SlowReconnected(p, s, held);
      var connected := Reconnected(env, s, held, true).session;
      StepsOn(p.d(), s, connected, DIALLED);
      SlowAsk(p, connected, n, voice);
      var asked := AskedInTurn(env, connected, n).session;
      OnTwice(p.d(), s, connected, asked, DIALLED, asking);
      StepsOn(p.d(), connected, asked, asking);
      SlowOthers(p, asked, rest, true, voice);
      OnTwice(p.d(), s, asked, OthersAsked(env, asked, rest, true, true).session, DIALLED.Then(asking),
              OthersCost(rest, !voice.Mute?));
      OthersUnroll(services, !voice.Mute?);
    }
  }

  // ---------- in the clear ----------

  /** Every conversation holds a probe, as the corpus' do. */
  predicate Probed(port: Env) {
    forall i | 0 <= i < |port.conversations| :: port.conversations[i] > 0
  }

  /** Whether a redirect is followed for the services' set. */
  predicate FollowsTheSet(port: Env, voice: Voice) {
    || (voice.Redirecting? && (port.named || Probes(port) > 0))
    || (voice.Refusing? && !port.named && Probes(port) > 0)
  }

  /** What the opening costs, and what the whole of the clear does, in each voice. */
  function OpeningCost(port: Env, voice: Voice): Cost {
    if AsksItsOwn(port) then OwnCost(port, port.conversations[0], !port.askedFirst, !voice.Mute?)
    else GenericCost(port, voice)
  }

  function RestOf(port: Env): seq<nat> {
    if AsksItsOwn(port) then port.conversations[1..] else port.conversations
  }

  function ClearCost(port: Env, voice: Voice): Cost {
    if voice.Alerting? then OpeningCost(port, voice)
    else
      OpeningCost(port, voice).Then(
        OthersCost(RestOf(port), !voice.Mute?)
          .Then(if FollowsTheSet(port, voice) then FetchCost(false) else NO_COST))
  }

  /** When a peer must turn for the clear to be in `voice` from `step` on: a shared port's services redirect. */
  predicate Cued(p: Script, step: nat, voice: Voice) {
    match voice
    case Redirecting => p.turn <= step
    case Refusing =>
      && p.early == voice
      && p.turn == step + if AsksItsOwn(p.port) then ClearCost(p.port, voice).steps else p.port.generic + 1
    case _ => p.early == voice && step + ClearCost(p.port, voice).steps <= p.turn
  }

  /** The voice the other services are asked in. */
  function Others(port: Env, voice: Voice): Voice {
    if AsksItsOwn(port) || voice.Mute? then voice else Redirecting
  }

  /** What was drawn is in the voice the port opened in. */
  ghost predicate Drawn(banners: seq<string>, voice: Voice) {
    if voice.Mute? || voice.Alerting? then banners == [] else banners != [] && Voiced(voice, banners[0])
  }

  lemma SlowOpening(p: Script, s: Session, voice: Voice)
    requires Legible(p.port) && Probed(p.port) && Cued(p, s.step, voice)
    ensures var r := OpenedWith(p.Facing(), s, true);
      && On(p.d(), s, r.session, OpeningCost(p.port, voice))
      && (if voice.Alerting? then r.what == SpokeTls
          else r.what.Opening? && r.what.rest == RestOf(p.port) && Drawn(r.what.banners, voice))
  {
    hide Collected, AskedGenerically, GenericText, On, Voiced, Leads, Legible, TextLooksLikeTls, FollowsTheSet;
    var env := p.Facing();
    if AsksItsOwn(p.port) {
      var n := p.port.conversations[0];
      SlowCollected(p, s, n, !p.port.askedFirst, voice);
      var own := Collected(env, s, n, !p.port.askedFirst);
      if !voice.Mute? { VoicesAre(voice, own.what[0], _ => true); }
      StillOn(p, s, own.session, OpeningCost(p.port, voice));
    } else {
      SlowGeneric(p, s, voice);
    }
  }

  lemma OthersAreSteady(p: Script, step: nat, voice: Voice)
    requires Cued(p, step, voice) && !voice.Alerting?
    ensures var (from, rest) := (step + OpeningCost(p.port, voice).steps, RestOf(p.port));
      && p.Steady(from, from + |rest| + 2 * Sum(rest), Others(p.port, voice))
      && (!voice.Mute? && !(AsksItsOwn(p.port) && voice.Refusing?) ==> p.turn <= from)
  {
  }

  /** Its redirect followed, after the opening and the others. */
  lemma SlowSet(p: Script, s: Session, own: seq<string>, theirs: seq<string>, voice: Voice)
    requires Legible(p.port) && Probed(p.port) && Drawn(own, voice) && !voice.Alerting?
    requires AllVoiced(theirs, Others(p.port, voice), Sum(RestOf(p.port)))
    requires !voice.Mute? && !(AsksItsOwn(p.port) && voice.Refusing?) ==> p.turn <= s.step
    ensures var (all, follows) := (SetOf(p.port.named, own, theirs), FollowsTheSet(p.port, voice));
      var r := WithRedirect(p.Facing(), s, all, true, false);
      && On(p.d(), s, r.session, if follows then FetchCost(false) else NO_COST)
      && Redirect(p.Facing(), all, false) == (if follows then Some("/") else None)
      && (if voice.Mute? then r.what == [] else all != [] ==> r.what != [] && r.what[0] == all[0])
  {
    hide WithRedirect, Redirect, On, Voiced, Legible;
    var all := SetOf(p.port.named, own, theirs);
    if all == [] {
      NothingIsFollowed(p, s, false);
      NoRedirectInNothing(p.Facing());
    } else if p.port.named {
      SlowRedirect(p, s, all, voice, false);
    } else {
      assert theirs[0] in theirs;
      SlowRedirect(p, s, all, Redirecting, false);
    }
  }

  lemma NoRedirectInNothing(env: Env)
    ensures Redirect(env, [], false) == None
  {
  }

  /** After the opening: the others, and the set's redirect. */
  lemma SlowRest(p: Script, s: Session, own: seq<string>, held: bool, voice: Voice)
    requires Legible(p.port) && Probed(p.port) && Drawn(own, voice) && !voice.Alerting?
    requires var rest := RestOf(p.port); p.Steady(s.step, s.step + |rest| + 2 * Sum(rest), Others(p.port, voice))
    requires !voice.Mute? && !(AsksItsOwn(p.port) && voice.Refusing?) ==> p.turn <= s.step
    ensures var theirs := OthersAsked(p.Facing(), s, RestOf(p.port), held, true);
      var all := SetOf(p.port.named, own, theirs.what);
      var r := WithRedirect(p.Facing(), theirs.session, all, true, false);
      && On(p.d(), s, r.session, OthersCost(RestOf(p.port), !voice.Mute?)
                                 .Then(if FollowsTheSet(p.port, voice) then FetchCost(false) else NO_COST))
      && (if voice.Mute? then r.what == [] else all != [] ==> r.what != [] && r.what[0] == all[0])
      && Redirect(p.Facing(), all, false) == (if FollowsTheSet(p.port, voice) then Some("/") else None)
  {
    hide OthersAsked, WithRedirect, Redirect, On, Voiced, Legible, Script.Facing, Script.Steady, FollowsTheSet,
         AllVoiced, RestOf, Sum;
    var (env, rest) := (p.Facing(), RestOf(p.port));
    var more := OthersCost(rest, !voice.Mute?);
    SlowOthers(p, s, rest, held, Others(p.port, voice));
    var theirs := OthersAsked(env, s, rest, held, true);
    StepsOn(p.d(), s, theirs.session, more);
    SlowSet(p, theirs.session, own, theirs.what, voice);
    var all := SetOf(p.port.named, own, theirs.what);
    OnTwice(p.d(), s, theirs.session, WithRedirect(env, theirs.session, all, true, false).session, more,
            if FollowsTheSet(p.port, voice) then FetchCost(false) else NO_COST);
  }

  lemma DrawnStays(port: Env, own: seq<string>, theirs: seq<string>, followed: seq<string>, voice: Voice)
    requires Drawn(own, voice) && !voice.Alerting?
    requires var all := SetOf(port.named, own, theirs);
      if voice.Mute? then followed == [] else all != [] ==> followed != [] && followed[0] == all[0]
    ensures Drawn(if port.named then followed else own + followed, voice)
  {
    hide Voiced;
  }

  /** The peer changes nothing else about the port, and nothing is drawn of an alert. */
  lemma FacingIs(p: Script)
    ensures p.Facing().named == p.port.named && p.Facing().tlsPort == p.port.tlsPort && Drawn([], Alerting)
    ensures OtherServices(p.Facing()) == OtherServices(p.port)
  {
  }

  lemma SlowClear(p: Script, s: Session, voice: Voice)
    requires Legible(p.port) && Probed(p.port) && Cued(p, s.step, voice)
    ensures var r := InTheClear(p.Facing(), s, true);
      Drawn(r.what, voice) && On(p.d(), s, r.session, ClearCost(p.port, voice))
  {
    hide InTheClear, OpenedWith, OthersAsked, WithRedirect, Redirect, On, Voiced, Legible, OpeningCost, OthersCost,
         Script.Facing, Script.Steady, FollowsTheSet, Cued, RestOf, Others, Sum, Drawn, SetOf, Probed, FetchCost;
    FacingIs(p);
    SlowOpening(p, s, voice);
    TheClearIs(p.Facing(), s, true);
    if !voice.Alerting? {
      var opening := OpenedWith(p.Facing(), s, true);
      var first := OpeningCost(p.port, voice);
      StepsOn(p.d(), s, opening.session, first);
      OthersAreSteady(p, s.step, voice);
      SlowRest(p, opening.session, opening.what.banners, opening.what.held, voice);
      var theirs := OthersAsked(p.Facing(), opening.session, RestOf(p.port), opening.what.held, true);
      var all := SetOf(p.port.named, opening.what.banners, theirs.what);
      var followed := WithRedirect(p.Facing(), theirs.session, all, true, false);
      DrawnStays(p.port, opening.what.banners, theirs.what, followed.what, voice);
      OnTwice(p.d(), s, opening.session, followed.session, first,
              OthersCost(RestOf(p.port), !voice.Mute?)
                .Then(if FollowsTheSet(p.port, voice) then FetchCost(false) else NO_COST));
    }
  }

  /** What the clear costs in each voice is what the closed forms are made of. */
  lemma TheClearCosts(port: Env)
    requires Probed(port)
    ensures CostsAreTheForms(port)
  {
    if AsksItsOwn(port) {
      ItsOwnClearCosts(port, port.conversations[0], port.conversations[1..]);
    } else {
      TheSharedClearCosts(port);
    }
  }

  predicate CostsAreTheForms(port: Env) {
    var (spoken, refused) := (ClearCost(port, Redirecting), ClearCost(port, Refusing));
    var (mute, alert) := (ClearCost(port, Mute), ClearCost(port, Alerting));
    && spoken.ms == SpokenMs(port) && spoken.waits == SpokenWaits(port)
    && refused.ms == RefusedMs(port) && refused.waits == RefusedWaits(port)
    && mute.ms == MuteMs(port) && mute.waits == MuteWaits(port)
    && alert.ms == AlertMs(port) && alert.waits == AlertWaits(port) && alert.waits <= mute.waits
  }

  lemma ItsOwnClearCosts(port: Env, first: nat, rest: seq<nat>)
    requires Probed(port) && AsksItsOwn(port) && port.conversations[0] == first && port.conversations[1..] == rest
    ensures CostsAreTheForms(port)
  {
    hide Answered, Unanswered, Dials, Sum, Probed;
    Multiples(first, Sum(rest));
    assert Probes(port) == first + Sum(rest) by { SumUnrolls(port.conversations); }
    assert first > 0 by { FirstIsProbed(port); }
  }

  lemma FirstIsProbed(port: Env)
    requires Probed(port) && port.conversations != []
    ensures port.conversations[0] > 0
  {
  }

  lemma TheSharedClearCosts(port: Env)
    requires !AsksItsOwn(port)
    ensures CostsAreTheForms(port)
  {
    hide ClearCost, SpokenMs, SpokenWaits, RefusedMs, RefusedWaits, MuteMs, MuteWaits, AlertMs, AlertWaits;
    ASharedAnswerCosts(port);
    ASharedRefusalCosts(port);
    SharedSilenceCosts(port);
  }

  lemma ASharedAnswerCosts(port: Env)
    requires !AsksItsOwn(port)
    ensures var spoken := ClearCost(port, Redirecting); spoken.ms == SpokenMs(port) && spoken.waits == SpokenWaits(port)
  {
    hide Answered, Unanswered, Dials, Sum;
    OneAnswer();
  }

  lemma ASharedRefusalCosts(port: Env)
    requires !AsksItsOwn(port)
    ensures var refused := ClearCost(port, Refusing);
      refused.ms == RefusedMs(port) && refused.waits == RefusedWaits(port)
  {
    hide Answered, Unanswered, Dials, Sum;
    OneAnswer();
  }

  lemma SharedSilenceCosts(port: Env)
    requires !AsksItsOwn(port)
    ensures var (mute, alert) := (ClearCost(port, Mute), ClearCost(port, Alerting));
      && mute.ms == MuteMs(port) && mute.waits == MuteWaits(port)
      && alert.ms == AlertMs(port) && alert.waits == AlertWaits(port) && alert.waits <= mute.waits
  {
    hide Answered, Unanswered, Dials, Sum;
    OneAnswer();
  }

  lemma OneAnswer()
    ensures Answered(1) == FULL_READ && Unanswered(1) == PROBE_READ_TIMEOUT
  {
  }

  // ---------- through TLS ----------

  /** Handshakes complete, and are given their full time from here on. */
  predicate Tunnels(p: Script, s: Session) {
    p.completes && p.shake <= s.step && p.turn <= s.step
  }

  const RETUNNELLED := Cost(2, Retunnels(1), 2)

  lemma SlowRetunneled(p: Script, s: Session)
    requires Tunnels(p, s)
    ensures var r := Retunneled(p.Facing(), s); r.what && On(p.d(), s, r.session, RETUNNELLED)
  {
    hide Dial, Handshake;
    SlowDial(p, s);
    SlowHandshake(p, Dial(p.Facing().peer, p.port.path, s).session, TLS_HANDSHAKE_TIMEOUT);
  }

  function OtherTunnelsCost(services: seq<nat>): Cost {
    Cost(2 * |services| + 2 * Sum(services), Retunnels(|services|) + Answered(Sum(services)),
         2 * |services| + Sum(services))
  }

  lemma OtherTunnelsUnroll(services: seq<nat>)
    requires services != []
    ensures OtherTunnelsCost(services)
      == RETUNNELLED.Then(Cost(2 * services[0], Answered(services[0]), services[0]))
         .Then(OtherTunnelsCost(services[1..]))
  {
    hide Answered, Retunnels, Sum;
    SumUnrolls(services);
    Multiples(services[0], Sum(services[1..]));
    Multiples(1, |services| - 1);
  }

  /** Every other service asked through a tunnel of its own. */
  lemma {:induction false} SlowOtherTunnels(p: Script, s: Session, services: seq<nat>)
    requires Legible(p.port) && Tunnels(p, s)
    ensures var r := OthersTunneled(p.Facing(), s, services);
      AllVoiced(r.what, Redirecting, Sum(services)) && On(p.d(), s, r.session, OtherTunnelsCost(services))
    decreases |services|
  {
    hide Retunneled, AskedInTurn, On, Voiced, Legible, Script.Facing;
    var env := p.Facing();
    var closed := Close(s);
    OnAtOnce(p.d(), s, closed);
    if services != [] {
      var (n, rest) := (services[0], services[1..]);
      var asking := Cost(2 * n, Asking(n, true), n);
      SlowRetunneled(p, closed);
      var tunnel := Retunneled(env, closed).session;
      OnTwice(p.d(), s, closed, tunnel, NO_COST, RETUNNELLED);
      StepsOn(p.d(), s, tunnel, RETUNNELLED);
      SlowAsk(p, tunnel, n, Redirecting);
      var asked := AskedInTurn(env, tunnel, n).session;
      OnTwice(p.d(), s, tunnel, asked, RETUNNELLED, asking);
      StepsOn(p.d(), tunnel, asked, asking);
      SlowOtherTunnels(p, asked, rest);
      OnTwice(p.d(), s, asked, OthersTunneled(env, asked, rest).session, RETUNNELLED.Then(asking),
              OtherTunnelsCost(rest));
      OtherTunnelsUnroll(services);
    }
  }

  /** The first conversation through the tunnel. */
  function OwnTunnelCost(port: Env): Cost {
    if port.conversations == [] then OwnCost(port, port.generic, false, true)
    else OwnCost(port, port.conversations[0], !port.askedFirst, true)
  }

  lemma SlowOwnTunnel(p: Script, s: Session)
    requires Legible(p.port) && p.turn <= s.step
    ensures var r := OwnTunneled(p.Facing(), s);
      && AllVoiced(r.what, Redirecting, if p.port.conversations == [] then p.port.generic else p.port.conversations[0])
      && On(p.d(), s, r.session, OwnTunnelCost(p.port))
  {
    hide Collected, On, AllVoiced, Legible;
    if p.port.conversations == [] {
      SlowCollected(p, s, p.port.generic, false, Redirecting);
    } else {
      SlowCollected(p, s, p.port.conversations[0], !p.port.askedFirst, Redirecting);
    }
  }

  function TunnelCost(port: Env): Cost {
    OwnTunnelCost(port).Then(OtherTunnelsCost(OtherServices(port))
      .Then(if AsksInTunnels(port) then FetchCost(true) else NO_COST))
  }

  lemma TheTunnelCosts(port: Env)
    ensures TunnelCost(port).ms == TunnelMs(port) && TunnelCost(port).waits == TunnelWaits(port)
  {
    if port.conversations == [] {
      GenericTunnelCosts(port);
    } else {
      ServiceTunnelsCost(port, port.conversations[0], port.conversations[1..]);
    }
  }

  lemma GenericTunnelCosts(port: Env)
    requires port.conversations == []
    ensures TunnelCost(port).ms == TunnelMs(port) && TunnelCost(port).waits == TunnelWaits(port)
  {
    hide Answered, Retunnels;
    Multiples(0, 0);
    assert OtherTunnelsCost([]) == NO_COST;
  }

  lemma ServiceTunnelsCost(port: Env, first: nat, rest: seq<nat>)
    requires port.conversations != [] && port.conversations[0] == first && port.conversations[1..] == rest
    ensures TunnelCost(port).ms == TunnelMs(port) && TunnelCost(port).waits == TunnelWaits(port)
  {
    hide Answered, Retunnels, Sum;
    Multiples(first, Sum(rest));
    assert Probes(port) == first + Sum(rest) by { SumUnrolls(port.conversations); }
  }

  lemma SumUnrolls(ns: seq<nat>)
    requires ns != []
    ensures Sum(ns) == ns[0] + Sum(ns[1..])
  {
  }

  /** After the first conversation: the others, and the redirect. */
  lemma SlowTunnelRest(p: Script, s: Session, own: seq<string>)
    requires Legible(p.port) && Probed(p.port) && Tunnels(p, s)
    requires AllVoiced(own, Redirecting, if p.port.conversations == [] then p.port.generic else p.port.conversations[0])
    ensures var theirs := OthersTunneled(p.Facing(), s, OtherServices(p.port));
      var r := WithRedirect(p.Facing(), theirs.session, own + theirs.what, true, true);
      On(p.d(), s, r.session, OtherTunnelsCost(OtherServices(p.port))
                              .Then(if AsksInTunnels(p.port) then FetchCost(true) else NO_COST))
  {
    hide OthersTunneled, WithRedirect, On, Voiced, Legible, Script.Facing, Redirect, FetchCost, OtherTunnelsCost;
    var services := OtherServices(p.port);
    SlowOtherTunnels(p, s, services);
    var theirs := OthersTunneled(p.Facing(), s, services);
    StepsOn(p.d(), s, theirs.session, OtherTunnelsCost(services));
    var drawn := own + theirs.what;
    if AsksInTunnels(p.port) {
      assert drawn[0] == own[0] && own[0] in own;
      SlowRedirect(p, theirs.session, drawn, Redirecting, true);
    } else {
      assert drawn == [];
      NothingIsFollowed(p, theirs.session, true);
    }
    OnTwice(p.d(), s, theirs.session, WithRedirect(p.Facing(), theirs.session, drawn, true, true).session,
            OtherTunnelsCost(services), if AsksInTunnels(p.port) then FetchCost(true) else NO_COST);
  }

  /** Through a tunnel: every service asked, and the redirect followed. */
  lemma SlowThrough(p: Script, s: Session, info: TlsInfo)
    requires Legible(p.port) && Probed(p.port) && Tunnels(p, s)
    ensures var r := ThroughTunnel(p.Facing(), s, Some(info));
      r.what.tls == Some(info) && On(p.d(), s, r.session, TunnelCost(p.port))
  {
    hide OwnTunneled, OthersTunneled, WithRedirect, On, AllVoiced, Legible, Script.Facing, FetchCost, OtherTunnelsCost,
         OwnTunnelCost, OtherServices, AsksInTunnels, Probed, Drawn;
    FacingIs(p);
    var env := p.Facing();
    SlowOwnTunnel(p, s);
    var own := OwnTunneled(env, s);
    StepsOn(p.d(), s, own.session, OwnTunnelCost(p.port));
    SlowTunnelRest(p, own.session, own.what);
    var theirs := OthersTunneled(env, own.session, OtherServices(p.port));
    OnTwice(p.d(), s, own.session, WithRedirect(env, theirs.session, own.what + theirs.what, true, true).session,
            OwnTunnelCost(p.port), OtherTunnelsCost(OtherServices(p.port))
              .Then(if AsksInTunnels(p.port) then FetchCost(true) else NO_COST));
  }

  /** A handshake that takes all it is given, and the tunnel where it completes. */
  lemma SlowShaken(p: Script, s: Session, budget: nat)
    requires Legible(p.port) && Probed(p.port)
    requires if p.completes
             then p.Settles(s.step) == p.d() + budget && p.shake <= s.step + 1 && p.turn <= s.step + 1
             else p.shake <= s.step && budget <= TLS_HANDSHAKE_TIMEOUT
    ensures var r := Shaken(p.Facing(), s, budget);
      && r.what.responses.tls.Some? == p.completes && (!p.completes ==> r.what == FALLEN)
      && On(p.d(), s, r.session, Cost(1, budget, 1).Then(if p.completes then TunnelCost(p.port) else NO_COST))
  {
    hide Handshake, ThroughTunnel, On, Legible, TunnelCost, Script.Facing;
    SlowShake(p, s, budget);
    var shaken := Handshake(p.Facing().peer, p.Facing().path, s, budget);
    StepsOn(p.d(), s, shaken.session, Cost(1, budget, 1));
    if p.completes {
      SlowThrough(p, shaken.session, shaken.what.value);
      OnTwice(p.d(), s, shaken.session, ThroughTunnel(p.Facing(), shaken.session, shaken.what).session,
              Cost(1, budget, 1), TunnelCost(p.port));
    } else {
      NoTunnel(p.Facing(), shaken.session);
    }
  }

  lemma SlowShake(p: Script, s: Session, budget: nat)
    requires if p.completes then p.Settles(s.step) == p.d() + budget
             else p.shake <= s.step && budget <= TLS_HANDSHAKE_TIMEOUT
    ensures var r := Handshake(p.Facing().peer, p.Facing().path, s, budget);
      On(p.d(), s, r.session, Cost(1, budget, 1)) && r.what.Some? == p.completes
  {
    hide Handshake, On;
    SlowHandshake(p, s, budget);
  }

  lemma NoTunnel(env: Env, s: Session)
    ensures ThroughTunnel(env, s, None) == Drew(NOTHING, s)
  {
  }

  // ---------- the last resort ----------

  function GuessCost(n: nat, inHand: bool): Cost {
    Cost(2 * n + (if inHand && n > 0 then n - 1 else n), GuessMs(n, inHand), GuessWaits(n, inHand))
  }

  lemma SlowGuess(p: Script, s: Session)
    requires Legible(p.port) && p.turn <= s.step
    ensures On(p.d(), s, Guessed(p.Facing(), s).session, Cost(2, FULL_READ, 1))
  {
    hide ReadPort, Voiced, Scripted, LooksLikeTls;
    SlowRead(p, Write(p.Facing().peer, s).session, Words);
  }

  /** Guesses, a connection each, every one answered. */
  lemma {:induction false} SlowGuesses(p: Script, s: Session, n: nat, inHand: bool)
    requires Legible(p.port) && p.turn <= s.step
    ensures On(p.d(), s, GuessesAsked(p.Facing(), s, n, inHand).session, GuessCost(n, inHand))
    decreases n
  {
    hide Dial, Guessed, On, Legible;
    var env := p.Facing();
    OnAtOnce(p.d(), s, Dropped(s, inHand));
    if n > 0 {
      var dialling := if inHand then NO_COST else DIALLED;
      OnAtOnce(p.d(), s, s);
      SlowDial(p, s);
      var connected := if inHand then s else Dial(env.peer, env.path, s).session;
      StepsOn(p.d(), s, connected, dialling);
      SlowGuess(p, connected);
      var guessed := Guessed(env, connected).session;
      OnTwice(p.d(), s, connected, guessed, dialling, Cost(2, FULL_READ, 1));
      StepsOn(p.d(), connected, guessed, Cost(2, FULL_READ, 1));
      SlowGuesses(p, guessed, n - 1, false);
      OnTwice(p.d(), s, guessed, GuessesAsked(env, guessed, n - 1, false).session,
              dialling.Then(Cost(2, FULL_READ, 1)), GuessCost(n - 1, false));
    }
  }
}
