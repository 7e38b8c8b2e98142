/**
 * Collecting what a port says, rung by rung. Each function gives the outcome of one stage
 * against every peer; the methods are the stages that loop, proved to compute it.
 */
module Collect {
  import opened Wrappers
  import opened Octets
  import opened Reading
  import opened Network
  import opened Http

  datatype Level = Off | Banner | Probe | Thorough

  /** What one identification is given: the peer, the path, the level and the corpus. */
  datatype Env = Env(
    peer: Peer,
    path: Path,
    level: Level,
    addressKnown: bool,
    tlsPort: bool,                       // the number is a well-known implicit-TLS one
    named: bool,                         // a service names the port
    askedFirst: bool,                    // every service on it waits to be asked
    conversations: seq<nat>,             // the probes of each service on the port
    generic: nat,                        // the generic probes
    universal: nat,                      // other services' probes within this level's reach
    fields: seq<Byte> -> seq<string>,    // the structure the engine reads in a reply
    text: seq<Byte> -> string,           // and its text
    leadsBack: (bool, string) -> bool)   // whether a URL names this port, through TLS or not

  datatype Tunnel = Tls

  datatype ResponseSet = ResponseSet(banners: seq<string>, tls: Option<TlsInfo>) {
    predicate IsEmpty() {
      banners == [] && tls.None?
    }
  }

  const NOTHING := ResponseSet([], None)

  function Sum(ns: seq<nat>): nat {
    if ns == [] then 0 else ns[0] + Sum(ns[1..])
  }

  predicate LooksLikeTls(bytes: seq<Byte>) {
    |bytes| >= 3 && 0x14 <= bytes[0] <= 0x17 && bytes[1] == 0x03 && bytes[2] <= 0x04
  }

  /** The same of decoded text, whose first characters are the bytes it was read from. */
  predicate TextLooksLikeTls(text: string) {
    && |text| >= 3
    && 0x14 <= text[0] as int <= 0x17 && text[1] as int == 0x03 && text[2] as int <= 0x04
  }

  /** What was drawn, after what had been. */
  function After(drawn: seq<string>, rest: Drew<seq<string>>): (r: Drew<seq<string>>)
    ensures r.session == rest.session && drawn <= r.what
    ensures r.what == [] <==> drawn == [] && rest.what == []
    ensures drawn == [] ==> r == rest
    ensures rest.what == [] ==> r == Drew(drawn, rest.session)
  {
    assert [] + rest.what == rest.what && drawn + [] == drawn;
    Drew(drawn + rest.what, rest.session)
  }

  lemma AfterTwice(drawn: seq<string>, more: seq<string>, rest: Drew<seq<string>>)
    ensures After(drawn, After(more, rest)) == After(drawn + more, rest)
  {
    assert drawn + (more + rest.what) == drawn + more + rest.what;
  }

  // ---------- one connection's questions ----------

  /** One probe: its replies, or [None] where it could not be written. */
  function AskedOnce(env: Env, s: Session): Drew<Option<seq<string>>> {
    var wrote := Write(env.peer, s);
    if !wrote.what then Drew(None, wrote.session)
    else
      var read := ReadPort(env.peer, env.path, wrote.session, Answers, PROBE_READ_TIMEOUT, CONTINUATION_GRACE);
      Drew(Some(if read.what == [] then [] else env.fields(read.what) + [env.text(read.what)]), read.session)
  }

  /** `n` probes one after another, and what each drew. */
  function AskedInTurn(env: Env, s: Session, n: nat): Drew<seq<string>>
    decreases n
  {
    if n == 0 then Drew([], s)
    else
      var once := AskedOnce(env, s);
      if once.what.None? then Drew([], once.session)
      else After(once.what.value, AskedInTurn(env, once.session, n - 1))
  }

  method AskInTurn(env: Env, s: Session, n: nat) returns (r: Drew<seq<string>>)
    ensures r == AskedInTurn(env, s, n)
  {
    hide AskedOnce;
    ghost var whole := AskedInTurn(env, s, n);
    var drawn: seq<string> := [];
    var now := s;
    for i := 0 to n
      invariant whole == After(drawn, AskedInTurn(env, now, n - i))
    {
      var once := AskedOnce(env, now);
      if once.what.None? {
        return Drew(drawn, once.session);
      }
      AfterTwice(drawn, once.what.value, AskedInTurn(env, once.session, n - i - 1));
      drawn := drawn + once.what.value;
      now := once.session;
    }
    r := Drew(drawn, now);
  }

  /** A greeting listened for where one may come, then `n` probes. */
  function Collected(env: Env, s: Session, n: nat, listen: bool): Drew<seq<string>> {
    if !listen then AskedInTurn(env, s, n)
    else
      var greeting := ReadPort(env.peer, env.path, s, Words, BANNER_READ_TIMEOUT, 0);
      After(if greeting.what == [] then [] else [env.text(greeting.what)], AskedInTurn(env, greeting.session, n))
  }

  // ---------- redirects ----------

  /** A page asked for over the connection in hand, which it consumes. */
  function PageOver(env: Env, s: Session): Drew<Option<string>> {
    var wrote := Write(env.peer, s);
    if !wrote.what then Drew(None, Close(wrote.session))
    else
      var page := ReadPort(env.peer, env.path, wrote.session, Words, PROBE_READ_TIMEOUT, CONTINUATION_GRACE);
      Drew(if page.what == [] then None else Some(env.text(page.what)), Close(page.session))
  }

  /** The page at `target` fetched over a connection of its own, through TLS where the port speaks it. */
  function Fetched(env: Env, s: Session, target: string, tls: bool): Drew<Option<string>> {
    var dialled := Dial(env.peer, env.path, s.(followed := s.followed + [target]));
    if !dialled.what then Drew(None, dialled.session)
    else if !tls then PageOver(env, dialled.session)
    else
      var shaken := Handshake(env.peer, env.path, dialled.session, TLS_HANDSHAKE_TIMEOUT);
      if shaken.what.None? then Drew(None, shaken.session)
      else PageOver(env, shaken.session)
  }

  function Redirect(env: Env, banners: seq<string>, tls: bool): Option<string> {
    FirstRedirect(banners, url => env.leadsBack(tls, url))
  }

  /** `banners` with the page the first HTTP reply among them redirects to. */
  function WithRedirect(env: Env, s: Session, banners: seq<string>, addressed: bool, tls: bool): Drew<seq<string>> {
    var target := Redirect(env, banners, tls);
    if !addressed || target.None? then Drew(banners, s)
    else
      var page := Fetched(env, s, target.value, tls);
      Drew(if page.what.None? then banners else banners + [page.what.value], page.session)
  }

  // ---------- in the clear ----------

  datatype GenericReply = Spoke(banners: seq<string>) | AnsweredTls | Silent

  /** The generic probes written, as far as the peer takes them. */
  function Written(env: Env, s: Session, n: nat): (t: Session)
    ensures t == s.(step := t.step)
    decreases n
  {
    if n == 0 then s
    else
      var wrote := Write(env.peer, s);
      if wrote.what then Written(env, wrote.session, n - 1) else wrote.session
  }

  /** The read of the generic question's reply. */
  function GenericRead(env: Env, s: Session): Drew<seq<Byte>> {
    ReadPort(env.peer, env.path, Written(env, s, env.generic), Words, PROBE_READ_TIMEOUT, CONTINUATION_GRACE)
  }

  /** Where a reply in the clear redirects to, back on the port. */
  function Leads(env: Env, reply: string): Option<string> {
    RedirectPath(reply, url => env.leadsBack(false, url))
  }

  /** The generic question, which consumes the connection and follows its own redirect. */
  function AskedGenerically(env: Env, s: Session, addressed: bool): Drew<GenericReply> {
    var read := GenericRead(env, s);
    var closed := Close(read.session);
    if read.what == [] then Drew(Silent, closed)
    else if LooksLikeTls(read.what) then Drew(AnsweredTls, closed)
    else
      var first := env.text(read.what);
      var target := Leads(env, first);
      if !addressed || target.None? then Drew(Spoke([first]), closed)
      else
        var page := Fetched(env, closed, target.value, false);
        Drew(Spoke(if page.what.None? then [first] else [first, page.what.value]), page.session)
  }

  /** The connection a service is asked on: a fresh one where the port can be dialled. */
  function Reconnected(env: Env, s: Session, held: bool, addressed: bool): Drew<bool> {
    if addressed then Dial(env.peer, env.path, if held then Close(s) else s) else Drew(held, s)
  }

  /** Lets go of the connection in hand, where there is one. */
  function Dropped(s: Session, held: bool): Session {
    if held then Close(s) else s
  }

  /** Every other service's questions, each on a connection of its own; all closed after. */
  function OthersAsked(env: Env, s: Session, services: seq<nat>, held: bool, addressed: bool): Drew<seq<string>>
    decreases |services|
  {
    if services == [] then Drew([], Dropped(s, held))
    else
      var connected := Reconnected(env, s, held, addressed);
      if !connected.what then Drew([], connected.session)
      else
        var asked := AskedInTurn(env, connected.session, services[0]);
        After(asked.what, OthersAsked(env, asked.session, services[1..], true, addressed))
  }

  /** What the port's own service, or the generic question, drew first. */
  datatype Opening = Opening(banners: seq<string>, rest: seq<nat>, held: bool) | SpokeTls

  function OpenedWith(env: Env, s: Session, addressed: bool): Drew<Opening> {
    if env.named && env.conversations != [] then
      var own := Collected(env, s, env.conversations[0], !env.askedFirst);
      if own.what != [] && TextLooksLikeTls(own.what[0]) then Drew(SpokeTls, Close(own.session))
      else Drew(Opening(own.what, env.conversations[1..], true), own.session)
    else
      var asked := AskedGenerically(env, s, addressed);
      Drew(match asked.what
           case Spoke(banners) => Opening(banners, env.conversations, false)
           case Silent => Opening([], env.conversations, false)
           case AnsweredTls => SpokeTls,
           asked.session)
  }

  /** Everything the port says in the clear. Consumes the connection. */
  function InTheClear(env: Env, s: Session, addressed: bool): Drew<seq<string>> {
    var opening := OpenedWith(env, s, addressed);
    if opening.what.SpokeTls? then Drew([], opening.session)
    else
      var own := opening.what.banners;
      var theirs := OthersAsked(env, opening.session, opening.what.rest, opening.what.held, addressed);
      if env.named then WithRedirect(env, theirs.session, own + theirs.what, addressed, false)
      else After(own, WithRedirect(env, theirs.session, theirs.what, addressed, false))
  }

  method Plaintext(env: Env, s: Session, addressed: bool) returns (r: Drew<seq<string>>)
    ensures r == InTheClear(env, s, addressed)
  {
    hide OpenedWith, Reconnected, AskedInTurn, WithRedirect;
    var opening := OpenedWith(env, s, addressed);
    if opening.what.SpokeTls? {
      return Drew([], opening.session);
    }
    var services, held, now := opening.what.rest, opening.what.held, opening.session;
    var theirs: seq<string> := [];
    ghost var whole := OthersAsked(env, now, services, held, addressed);
    var i := 0;
    while i < |services|
      invariant 0 <= i <= |services|
      invariant whole == After(theirs, OthersAsked(env, now, services[i..], held, addressed))
    {
      assert services[i..][0] == services[i] && services[i..][1..] == services[i + 1..];
      var connected := Reconnected(env, now, held, addressed);
      held, now := connected.what, connected.session;
      if !held {
        break;
      }
      var asked := AskInTurn(env, now, services[i]);
      AfterTwice(theirs, asked.what, OthersAsked(env, asked.session, services[i + 1..], true, addressed));
      theirs, now, i := theirs + asked.what, asked.session, i + 1;
    }
    now := Dropped(now, held);
    if env.named {
      r := WithRedirect(env, now, opening.what.banners + theirs, addressed, false);
    } else {
      r := WithRedirect(env, now, theirs, addressed, false);
      r := Drew(opening.what.banners + r.what, r.session);
    }
  }

  // ---------- through TLS ----------

  /** A fresh tunnel to a port whose handshake has completed once. */
  function Retunneled(env: Env, s: Session): Drew<bool> {
    var dialled := Dial(env.peer, env.path, s);
    if !dialled.what then dialled
    else
      var shaken := Handshake(env.peer, env.path, dialled.session, TLS_HANDSHAKE_TIMEOUT);
      Drew(shaken.what.Some?, shaken.session)
  }

  /** Every other service's questions, each through a tunnel of its own; all closed after. */
  function OthersTunneled(env: Env, s: Session, services: seq<nat>): Drew<seq<string>>
    decreases |services|
  {
    if services == [] then Drew([], Close(s))
    else
      var tunnel := Retunneled(env, Close(s));
      if !tunnel.what then Drew([], tunnel.session)
      else
        var asked := AskedInTurn(env, tunnel.session, services[0]);
        After(asked.what, OthersTunneled(env, asked.session, services[1..]))
  }

  /** The first conversation through the tunnel: the port's own, or the generic probes. */
  function OwnTunneled(env: Env, s: Session): Drew<seq<string>> {
    if env.conversations == [] then Collected(env, s, env.generic, false)
    else Collected(env, s, env.conversations[0], !env.askedFirst)
  }

  function OtherServices(env: Env): seq<nat> {
    if env.conversations == [] then [] else env.conversations[1..]
  }

  /** What a completed handshake leads to, and nothing where none completed. */
  function ThroughTunnel(env: Env, s: Session, handshake: Option<TlsInfo>): Drew<ResponseSet> {
    if handshake.None? then Drew(NOTHING, s)
    else
      var own := OwnTunneled(env, s);
      var theirs := OthersTunneled(env, own.session, OtherServices(env));
      var all := WithRedirect(env, theirs.session, own.what + theirs.what, true, true);
      Drew(ResponseSet(all.what, handshake), all.session)
  }

  method Tunneled(env: Env, s: Session, handshake: Option<TlsInfo>) returns (r: Drew<ResponseSet>)
    ensures r == ThroughTunnel(env, s, handshake)
  {
    hide OwnTunneled, Retunneled, AskedInTurn, WithRedirect;
    if handshake.None? {
      return Drew(NOTHING, s);
    }
    var own := OwnTunneled(env, s);
    var drawn, now, held := own.what, own.session, true;
    var services := OtherServices(env);
    ghost var whole := After(own.what, OthersTunneled(env, now, services));
    var i := 0;
    while i < |services|
      invariant 0 <= i <= |services| && held
      invariant whole == After(drawn, OthersTunneled(env, now, services[i..]))
    {
      assert services[i..][0] == services[i] && services[i..][1..] == services[i + 1..];
      var tunnel := Retunneled(env, Close(now));
      held, now := tunnel.what, tunnel.session;
      if !held {
        break;
      }
      var asked := AskInTurn(env, now, services[i]);
      AfterTwice(drawn, asked.what, OthersTunneled(env, asked.session, services[i + 1..]));
      drawn, now, i := drawn + asked.what, asked.session, i + 1;
    }
    now := Dropped(now, held);
    var all := WithRedirect(env, now, drawn, true, true);
    r := Drew(ResponseSet(all.what, handshake), all.session);
  }

  // ---------- the last resort ----------

  /** How many of the guesses the path is worth asking. */
  function Guesses(env: Env): nat {
    var slow := PROBE_READ_TIMEOUT + env.path.allowance > PROBE_READ_TIMEOUT * 2;
    if env.level == Thorough || !slow then env.universal else Min(env.universal, 1)
  }

  /** All of them, unless the path takes longer to cross than a probe waits and thoroughness was not asked for. */
  lemma GuessesWorthThePath(env: Env)
    ensures env.level == Thorough || env.path.allowance <= PROBE_READ_TIMEOUT ==> Guesses(env) == env.universal
    ensures env.level != Thorough && env.path.allowance > PROBE_READ_TIMEOUT ==>
      Guesses(env) <= 1 && (Guesses(env) == 0 <==> env.universal == 0)
  {
  }

  /** One guess over the connection in hand, which it consumes. */
  function Guessed(env: Env, s: Session): Drew<seq<string>> {
    var wrote := Write(env.peer, s);
    if !wrote.what then Drew([], Close(wrote.session))
    else
      var read := ReadPort(env.peer, env.path, wrote.session, Words, PROBE_READ_TIMEOUT, CONTINUATION_GRACE);
      Drew(if read.what == [] then [] else [env.text(read.what)], Close(read.session))
  }

  /** `n` other services' questions, one connection each, the first perhaps already open. */
  function GuessesAsked(env: Env, s: Session, n: nat, inHand: bool): Drew<seq<string>>
    decreases n
  {
    if n == 0 then Drew([], Dropped(s, inHand))
    else
      var connected := if inHand then Drew(true, s) else Dial(env.peer, env.path, s);
      if !connected.what then Drew([], connected.session)
      else
        var guess := Guessed(env, connected.session);
        After(guess.what, GuessesAsked(env, guess.session, n - 1, false))
  }

  method LastResort(env: Env, s: Session) returns (r: Drew<seq<string>>)
    ensures r == GuessesAsked(env, s, Guesses(env), true)
  {
    hide Dial, Guessed;
    var n := Guesses(env);
    ghost var whole := GuessesAsked(env, s, n, true);
    var replies: seq<string> := [];
    var now, inHand := s, true;
    for i := 0 to n
      invariant whole == After(replies, GuessesAsked(env, now, n - i, inHand))
    {
      var connected := if inHand then Drew(true, now) else Dial(env.peer, env.path, now);
      now, inHand := connected.session, false;
      if !connected.what {
        return Drew(replies, now);
      }
      var guess := Guessed(env, now);
      AfterTwice(replies, guess.what, GuessesAsked(env, guess.session, n - i - 1, false));
      replies, now := replies + guess.what, guess.session;
    }
    r := Drew(replies, Dropped(now, inHand));
  }

  // ---------- the ladder ----------

  datatype Rung = TlsRung | SpeculativeTls | LegacyTls | PlaintextRung | LastResortRung

  function Ladder(env: Env): seq<Rung> {
    if env.tlsPort then [TlsRung, LegacyTls, PlaintextRung, LastResortRung]
    else [PlaintextRung, SpeculativeTls, LastResortRung]
  }

  /** What a rung or a whole collection returns. */
  datatype Outcome = Outcome(responses: ResponseSet, tunnel: Option<Tunnel>)

  const FALLEN := Outcome(NOTHING, None)

  function Packaged(through: Drew<ResponseSet>): Drew<Outcome> {
    Drew(Outcome(through.what, if through.what.tls.Some? then Some(Tls) else None), through.session)
  }

  function Shaken(env: Env, s: Session, budget: nat): Drew<Outcome> {
    var shaken := Handshake(env.peer, env.path, s, budget);
    Packaged(ThroughTunnel(env, shaken.session, shaken.what))
  }

  function Plain(drawn: Drew<seq<string>>): Drew<Outcome> {
    Drew(Outcome(ResponseSet(drawn.what, None), None), drawn.session)
  }

  /** One rung asked over the connection in hand, which it consumes. */
  function Asked(env: Env, s: Session, rung: Rung): Drew<Outcome> {
    var s := s.(rungs := s.rungs + 1);
    match rung
    case TlsRung => Shaken(env, s, TLS_HANDSHAKE_TIMEOUT)
    case SpeculativeTls => Shaken(env, s, SPECULATIVE_TLS_TIMEOUT)
    case LegacyTls =>
      var heard := Legacy(env.peer, env.path, s);
      Drew(Outcome(ResponseSet([], heard.what), None), heard.session)
    case PlaintextRung => Plain(InTheClear(env, s, true))
    case LastResortRung => Plain(GuessesAsked(env, s, Guesses(env), true))
  }

  method Ask(env: Env, s: Session, rung: Rung) returns (r: Drew<Outcome>)
    ensures r == Asked(env, s, rung)
  {
    hide Handshake, Legacy, ThroughTunnel, InTheClear, GuessesAsked;
    var s := s.(rungs := s.rungs + 1);
    match rung {
      case TlsRung =>
        var shaken := Handshake(env.peer, env.path, s, TLS_HANDSHAKE_TIMEOUT);
        var through := Tunneled(env, shaken.session, shaken.what);
        r := Packaged(through);
      case SpeculativeTls =>
        var shaken := Handshake(env.peer, env.path, s, SPECULATIVE_TLS_TIMEOUT);
        var through := Tunneled(env, shaken.session, shaken.what);
        r := Packaged(through);
      case LegacyTls =>
        var heard := Legacy(env.peer, env.path, s);
        r := Drew(Outcome(ResponseSet([], heard.what), None), heard.session);
      case PlaintextRung =>
        var drawn := Plaintext(env, s, true);
        r := Plain(drawn);
      case LastResortRung =>
        var drawn := LastResort(env, s);
        r := Plain(drawn);
    }
  }

  /** Whether what the legacy handshake drew is a refusal in TLS and nothing else. */
  predicate RefusedEveryHandshake(responses: ResponseSet) {
    responses.banners == [] && responses.tls.Some? && responses.tls.value.version == Some(REFUSED)
  }

  /** What a port that refused a request in the clear says through TLS. */
  function AskedThroughTls(env: Env, s: Session, clear: ResponseSet): Drew<Outcome> {
    var first := Dial(env.peer, env.path, s);
    if !first.what then Drew(Outcome(clear, None), first.session)
    else
      var through := Shaken(env, first.session, SPECULATIVE_TLS_TIMEOUT);
      if !through.what.responses.IsEmpty() then through
      else
        var second := Dial(env.peer, env.path, through.session);
        if !second.what then Drew(Outcome(clear, None), second.session)
        else
          var heard := Legacy(env.peer, env.path, second.session);
          if heard.what.Some? then Drew(Outcome(clear.(tls := heard.what), Some(Tls)), heard.session)
          else Drew(Outcome(clear, None), heard.session)
  }

  /** Where the ladder goes after a rung: it stops, or it climbs on, perhaps holding a refusal. */
  datatype Next = Stop(outcome: Drew<Outcome>) | Climb(session: Session, refused: Option<ResponseSet>)

  function Settled(env: Env, rung: Rung, refused: Option<ResponseSet>, asked: Drew<Outcome>): Next {
    var responses := asked.what.responses;
    if refused.Some? then
      Stop(Drew(
        if refused.value.tls.Some? && RefusedInTheClear(responses.banners)
        then Outcome(responses.(tls := refused.value.tls), Some(Tls))
        else Outcome(refused.value, None),
        asked.session))
    else if responses.IsEmpty() then Climb(asked.session, None)
    else if rung.LegacyTls? && RefusedEveryHandshake(responses) then Climb(asked.session, Some(responses))
    else if rung.PlaintextRung? && !env.tlsPort && RefusedInTheClear(responses.banners)
    then Stop(AskedThroughTls(env, asked.session, responses))
    else Stop(asked)
  }

  function HeldOr(refused: Option<ResponseSet>): Outcome {
    Outcome(if refused.Some? then refused.value else NOTHING, None)
  }

  /** The rungs still to ask, each on its own connection, the first perhaps on the one in hand. */
  function Walked(env: Env, s: Session, rungs: seq<Rung>, inHand: bool, refused: Option<ResponseSet>): Drew<Outcome>
    decreases |rungs|
  {
    if rungs == [] then Drew(HeldOr(refused), Dropped(s, inHand))
    else
      var connected := if inHand then Drew(true, s) else Dial(env.peer, env.path, s);
      if !connected.what then Drew(HeldOr(refused), connected.session.(stranded := true))
      else
        match Settled(env, rungs[0], refused, Asked(env, connected.session, rungs[0]))
        case Stop(outcome) => outcome
        case Climb(session, held) => Walked(env, session, rungs[1..], false, held)
  }

  /** Everything the transport learns from the port, and how it was carried. */
  function Gathered(env: Env, s: Session): Drew<Outcome> {
    match env.level
    case Off => Drew(FALLEN, Close(s))
    case Banner =>
      var read := ReadPort(env.peer, env.path, s, Words, BANNER_READ_TIMEOUT, 0);
      Drew(Outcome(ResponseSet(if read.what == [] then [] else [env.text(read.what)], None), None), Close(read.session))
    case _ =>
      if !env.addressKnown then Plain(InTheClear(env, s, false))
      else Walked(env, s, Ladder(env), true, None)
  }

  method Gather(env: Env, s: Session) returns (r: Drew<Outcome>)
    ensures r == Gathered(env, s)
  {
    if env.level.Off? {
      return Drew(FALLEN, Close(s));
    }
    if env.level.Banner? {
      var read := ReadPort(env.peer, env.path, s, Words, BANNER_READ_TIMEOUT, 0);
      var banners := if read.what == [] then [] else [env.text(read.what)];
      return Drew(Outcome(ResponseSet(banners, None), None), Close(read.session));
    }
    if !env.addressKnown {
      var drawn := Plaintext(env, s, false);
      return Plain(drawn);
    }
    r := Climbed(env, s);
  }

  method Climbed(env: Env, s: Session) returns (r: Drew<Outcome>)
    ensures r == Walked(env, s, Ladder(env), true, None)
  {
    hide Dial, Asked, Settled, Ladder;
    var ladder := Ladder(env);
    ghost var whole := Walked(env, s, ladder, true, None);
    var now, inHand := s, true;
    var refused: Option<ResponseSet> := None;
    var i := 0;
    while i < |ladder|
      invariant 0 <= i <= |ladder|
      invariant whole == Walked(env, now, ladder[i..], inHand, refused)
    {
      assert ladder[i..][0] == ladder[i] && ladder[i..][1..] == ladder[i + 1..];
      var connected := if inHand then Drew(true, now) else Dial(env.peer, env.path, now);
      if !connected.what {
        return Drew(HeldOr(refused), connected.session.(stranded := true));
      }
      var asked := Ask(env, connected.session, ladder[i]);
      match Settled(env, ladder[i], refused, asked) {
        case Stop(outcome) => return outcome;
        case Climb(session, held) =>
          now, inHand, refused := session, false, held;
      }
      i := i + 1;
    }
    r := Drew(HeldOr(refused), Dropped(now, inHand));
  }
}
