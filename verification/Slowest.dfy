/**
 * Peers that make everything take as long as it may: connections and handshakes settle at the
 * last moment, and replies start there and trickle on. What such a peer says up to some
 * operation is one of four things, and after it always a redirect to its root.
 */
module Slowest {
  import opened Wrappers
  import opened Octets
  import opened Reading
  import opened Network
  import opened Http
  import opened Decoding
  import opened Collect
  import opened Bounds
  import opened Replies

  // ---------- the peer ----------

  datatype Voice = Mute | Refusing | Redirecting | Alerting

  /** The bytes a reply opens with: HTTP in ASCII, or a TLS alert. */
  function Lead(voice: Voice): (opening: Piece)
    requires !voice.Mute?
    ensures |opening| <= 100 && forall b <- opening :: IsAscii(b)
  {
    match voice
    case Refusing => AsBytes(REFUSAL)
    case Redirecting => AsBytes(REDIRECTION)
    case Alerting => [0x15, 0x03, 0x01]
  }

  /** A reply that starts as `wait` runs out and trickles on for as long as it is read. */
  function Trickle(wait: nat, opening: Piece): Wire {
    k => if k == 0 then Bytes(wait, opening) else Bytes(50, [0])
  }

  /** A peer that says nothing. */
  const MUTE: Wire := k => Quiet

  /**
   * A port as the corpus has it; the operation from which its peer redirects and what it says
   * before; the one from which handshakes are given their full time, and whether they complete.
   */
  datatype Script = Script(port: Env, turn: nat, early: Voice, shake: nat, completes: bool) {
    function d(): nat {
      port.path.allowance
    }

    function VoiceAt(step: nat): Voice {
      if step < turn then early else Redirecting
    }

    function WireAt(step: nat): Wire {
      var voice := VoiceAt(step);
      if voice.Mute? then MUTE else Trickle(d() + PROBE_READ_TIMEOUT, Lead(voice))
    }

    function Settles(step: nat): nat {
      d() + if step < shake then SPECULATIVE_TLS_TIMEOUT else TLS_HANDSHAKE_TIMEOUT
    }

    function Slow(step: nat): Answer {
      Answer(d() + CONNECT_RETRY_TIMEOUT, true, true, WireAt(step), Settles(step), completes, TlsInfo(None, []), [])
    }

    /** The port with this peer behind it. */
    function Facing(): Env {
      port.(peer := (step: nat) => this.Slow(step))
    }

    /** One voice is heard at every operation from one to another. */
    predicate Steady(from: nat, to: nat, voice: Voice) {
      (turn <= from && voice.Redirecting?) || (to <= turn && voice == early)
    }
  }

  /** Bytes that open as one of the replies such a peer gives. */
  predicate Scripted(bytes: seq<Byte>) {
    Lead(Refusing) <= bytes || Lead(Redirecting) <= bytes || Lead(Alerting) <= bytes
  }

  /** A port read as the engine reads it: ASCII as itself, and no other structure in those replies. */
  ghost predicate Legible(port: Env) {
    ReadsAscii(port.text) && forall bytes | Scripted(bytes) :: port.fields(bytes) == []
  }

  /** The engine's own decoder reads so, where it finds no structure in those replies. */
  lemma TheEngineReadsSo(port: Env)
    requires port.text == ReplyText && forall bytes | Scripted(bytes) :: port.fields(bytes) == []
    ensures Legible(port)
  {
    hide Scripted;
    ReplyTextReadsAscii();
  }

  /** A reply in that voice, as text. */
  predicate Voiced(voice: Voice, reply: string) {
    !voice.Mute? && AsText(Lead(voice)) <= reply
  }

  lemma VoicesAre(voice: Voice, reply: string, leadsBack: string -> bool)
    requires Voiced(voice, reply)
    ensures voice.Refusing? ==> Refuses(reply)
    ensures voice.Redirecting? ==>
      SpeaksHttp(reply) && !Refuses(reply) && RedirectPath(reply, leadsBack) == Some("/")
    ensures TextLooksLikeTls(reply) <==> voice.Alerting?
  {
    hide Refuses, RedirectPath, SpeaksHttp;
    match voice
    case Refusing => ThatRefuses(reply);
    case Redirecting => ThatRedirects(reply, leadsBack);
    case Alerting =>
  }

  // ---------- the trickle ----------

  function Zeros(n: nat): seq<Byte> {
    seq(n, _ => 0)
  }

  lemma {:induction false} TrickledSoFar(wait: nat, opening: Piece, k: nat)
    requires 1 <= k
    ensures var wire := Trickle(wait, opening);
      Joined(wire, k) == opening + Zeros(k - 1) && Since(wire, k) == 50 * (k - 1)
    decreases k
  {
    if k > 1 {
      TrickledSoFar(wait, opening, k - 1);
      assert Zeros(k - 2) + [0] == Zeros(k - 1);
    } else {
      assert Joined(Trickle(wait, opening), 1) == [] + opening;
    }
  }

  lemma {:induction false} TricklesOn(wait: nat, opening: Piece, k: nat)
    requires 1 <= k <= 41 && |opening| <= 100
    ensures Pieces(Trickle(wait, opening), 50, k) == 41
    decreases 41 - k
  {
    var wire := Trickle(wait, opening);
    TrickledSoFar(wait, opening, k);
    assert ReadsOn(wire, 50, k) <==> k < 41;
    if k < 41 {
      TricklesOn(wait, opening, k + 1);
      assert Continues(wire, 50, k);
    }
  }

  lemma SlowWire(wait: nat, opening: Piece, path: Path)
    requires |opening| <= 100 && wait == path.allowance + PROBE_READ_TIMEOUT
    ensures var heard := Read(Trickle(wait, opening), PROBE_READ_TIMEOUT, CONTINUATION_GRACE, path);
      heard.took == path.allowance + FULL_READ && !heard.ranOut && heard.bytes == opening + Zeros(40)
  {
    var wire := Trickle(wait, opening);
    hide Joined, Since, Pieces;
    TricklesOn(wait, opening, 1);
    TrickledSoFar(wait, opening, 41);
  }

  lemma LeadsAre(voice: Voice)
    requires !voice.Mute?
    ensures if voice.Alerting? then Lead(voice) == [0x15, 0x03, 0x01] else Lead(voice)[0] == 0x48
  {
    match voice
    case Refusing => assert REFUSAL[0] == 'H' && AsText(Lead(voice))[0] == REFUSAL[0];
    case Redirecting => assert REDIRECTION[0] == 'H' && AsText(Lead(voice))[0] == REDIRECTION[0];
    case Alerting =>
  }

  lemma TextOf(port: Env, voice: Voice)
    requires Legible(port) && !voice.Mute?
    ensures var bytes := Lead(voice) + Zeros(40);
      && Scripted(bytes) && Voiced(voice, port.text(bytes)) && (LooksLikeTls(bytes) <==> voice.Alerting?)
  {
    hide Lead;
    var (lead, bytes) := (Lead(voice), Lead(voice) + Zeros(40));
    LeadsAre(voice);
    assert lead <= bytes;
    assert forall b <- bytes :: IsAscii(b);
    assert AsText(bytes) == AsText(lead) + AsText(Zeros(40));
  }

  // ---------- what is spent ----------

  datatype Cost = Cost(steps: nat, ms: nat, waits: nat) {
    function Then(other: Cost): Cost {
      Cost(steps + other.steps, ms + other.ms, waits + other.waits)
    }
  }

  const NO_COST := Cost(0, 0, 0)

  /** `t` is exactly `cost` after `s`, one path allowance a wait. */
  ghost predicate On(d: nat, s: Session, t: Session, cost: Cost) {
    t.step == s.step + cost.steps && t.clock == s.clock + cost.ms + cost.waits * d && t.waits == s.waits + cost.waits
  }

  lemma OnTwice(d: nat, s: Session, t: Session, u: Session, first: Cost, second: Cost)
    requires On(d, s, t, first) && On(d, t, u, second)
    ensures On(d, s, u, first.Then(second)) && t.step == s.step + first.steps
  {
    assert (first.waits + second.waits) * d == first.waits * d + second.waits * d;
  }

  lemma OnAtOnce(d: nat, s: Session, t: Session)
    requires t.step == s.step && t.clock == s.clock && t.waits == s.waits
    ensures On(d, s, t, NO_COST)
  {
    assert 0 * d == 0;
  }

  lemma StepsOn(d: nat, s: Session, t: Session, cost: Cost)
    requires On(d, s, t, cost)
    ensures t.step == s.step + cost.steps
  {
  }

  // ---------- single operations ----------

  lemma SlowRead(p: Script, s: Session, what: For)
    requires Legible(p.port)
    ensures var r := ReadPort(p.Facing().peer, p.port.path, s, what, PROBE_READ_TIMEOUT, CONTINUATION_GRACE);
      var voice := p.VoiceAt(s.step);
      && On(p.d(), s, r.session, Cost(1, Asking(1, !voice.Mute?), 1))
      && (if voice.Mute? then r.what == []
          else && r.what != [] && Scripted(r.what) && Voiced(voice, p.port.text(r.what))
               && (LooksLikeTls(r.what) <==> voice.Alerting?))
  {
    hide Read, ReadPort, Scripted, Voiced, LooksLikeTls, Legible, Lead;
    var voice := p.VoiceAt(s.step);
    ReadOnce(p, s, what);
    if voice.Mute? {
      MuteWire(p.port.path);
    } else {
      SlowWire(p.d() + PROBE_READ_TIMEOUT, Lead(voice), p.port.path);
      TextOf(p.port, voice);
    }
  }

  /** A read is one step and one wait, over the wire the peer has there. */
  lemma ReadOnce(p: Script, s: Session, what: For)
    ensures var r := ReadPort(p.Facing().peer, p.port.path, s, what, PROBE_READ_TIMEOUT, CONTINUATION_GRACE);
      var heard := Read(p.WireAt(s.step), PROBE_READ_TIMEOUT, CONTINUATION_GRACE, p.port.path);
      && r.what == heard.bytes && r.session.step == s.step + 1 && r.session.waits == s.waits + 1
      && r.session.clock == s.clock + heard.took
  {
    hide Read, Lead;
  }

  lemma MuteWire(path: Path)
    ensures Read(MUTE, PROBE_READ_TIMEOUT, CONTINUATION_GRACE, path)
      == Heard([], PROBE_READ_TIMEOUT + path.allowance, true, false)
  {
  }

  /** A greeting is waited for in vain. */
  lemma SlowGreeting(p: Script, s: Session)
    ensures var r := ReadPort(p.Facing().peer, p.port.path, s, Words, BANNER_READ_TIMEOUT, 0);
      On(p.d(), s, r.session, Cost(1, BANNER_READ_TIMEOUT, 1)) && r.what == []
  {
    hide Lead;
    assert 1 * p.d() == p.d();
  }

  lemma SlowDial(p: Script, s: Session)
    ensures var r := Dial(p.Facing().peer, p.port.path, s);
      r.what && On(p.d(), s, r.session, Cost(1, CONNECT_RETRY_TIMEOUT, 1))
  {
    assert 1 * p.d() == p.d();
  }

  /** A handshake takes all it is given, and completes where the peer's do. */
  lemma SlowHandshake(p: Script, s: Session, budget: nat)
    requires if p.completes then p.Settles(s.step) == p.d() + budget
             else p.shake <= s.step && budget <= TLS_HANDSHAKE_TIMEOUT
    ensures var r := Handshake(p.Facing().peer, p.port.path, s, budget);
      On(p.d(), s, r.session, Cost(1, budget, 1)) && r.what == if p.completes then Some(TlsInfo(None, [])) else None
  {
    assert 1 * p.d() == p.d();
  }

  /** The legacy probe hears nothing. */
  lemma SlowLegacy(p: Script, s: Session)
    requires p.shake <= s.step
    ensures var r := Legacy(p.Facing().peer, p.port.path, s);
      r.what == None && On(p.d(), s, r.session, Cost(1, LEGACY_PROBE_TIMEOUT, 1))
  {
    assert 1 * p.d() == p.d();
  }

  lemma {:induction false} SlowWritten(p: Script, s: Session, n: nat)
    ensures Written(p.Facing(), s, n) == s.(step := s.step + n)
    decreases n
  {
    if n > 0 {
      SlowWritten(p, Write(p.Facing().peer, s).session, n - 1);
    }
  }

  // ---------- one connection's questions ----------

  /** Replies in one voice, one for each of `n` probes, and none from a mute peer. */
  ghost predicate AllVoiced(replies: seq<string>, voice: Voice, n: nat) {
    if voice.Mute? then replies == [] else |replies| == n && forall reply <- replies :: Voiced(voice, reply)
  }

  lemma SlowOnce(p: Script, s: Session, voice: Voice)
    requires Legible(p.port) && p.Steady(s.step, s.step + 2, voice)
    ensures var r := AskedOnce(p.Facing(), s);
      && r.what.Some? && AllVoiced(r.what.value, voice, 1)
      && On(p.d(), s, r.session, Cost(2, Asking(1, !voice.Mute?), 1))
  {
    hide ReadPort, Voiced, Scripted, LooksLikeTls;
    var wrote := Write(p.Facing().peer, s).session;
    SlowRead(p, wrote, Answers);
  }

  /** Probes on one connection, each answered as late as it may be, or not at all. */
  lemma {:induction false} SlowAsk(p: Script, s: Session, n: nat, voice: Voice)
    requires Legible(p.port) && p.Steady(s.step, s.step + 2 * n, voice)
    ensures var r := AskedInTurn(p.Facing(), s, n);
      && AllVoiced(r.what, voice, n) && On(p.d(), s, r.session, Cost(2 * n, Asking(n, !voice.Mute?), n))
    decreases n
  {
    hide AskedOnce, On, Voiced, Legible;
    var env := p.Facing();
    if n == 0 {
      OnAtOnce(p.d(), s, s);
    } else {
      SlowOnce(p, s, voice);
      var once := AskedOnce(env, s);
      var first := Cost(2, Asking(1, !voice.Mute?), 1);
      var second := Cost(2 * (n - 1), Asking(n - 1, !voice.Mute?), n - 1);
      StepsOn(p.d(), s, once.session, first);
      SlowAsk(p, once.session, n - 1, voice);
      OnTwice(p.d(), s, once.session, AskedInTurn(env, once.session, n - 1).session, first, second);
    }
  }

  /** The first conversation, and the greeting listened for before it where one may come. */
  function OwnCost(port: Env, n: nat, listen: bool, drew: bool): Cost {
    Cost((if listen then 1 else 0) + 2 * n, (if listen then BANNER_READ_TIMEOUT else 0) + Asking(n, drew),
         (if listen then 1 else 0) + n)
  }

  lemma SlowCollected(p: Script, s: Session, n: nat, listen: bool, voice: Voice)
    requires Legible(p.port) && p.Steady(s.step, s.step + (if listen then 1 else 0) + 2 * n, voice)
    ensures var r := Collected(p.Facing(), s, n, listen);
      AllVoiced(r.what, voice, n) && On(p.d(), s, r.session, OwnCost(p.port, n, listen, !voice.Mute?))
  {
    hide ReadPort, AskedInTurn, On, AllVoiced, Legible;
    if listen {
      SlowGreeting(p, s);
      var greeted := ReadPort(p.Facing().peer, p.port.path, s, Words, BANNER_READ_TIMEOUT, 0).session;
      var (first, second) := (Cost(1, BANNER_READ_TIMEOUT, 1), Cost(2 * n, Asking(n, !voice.Mute?), n));
      StepsOn(p.d(), s, greeted, first);
      SlowAsk(p, greeted, n, voice);
      OnTwice(p.d(), s, greeted, AskedInTurn(p.Facing(), greeted, n).session, first, second);
    } else {
      SlowAsk(p, s, n, voice);
    }
  }
}
