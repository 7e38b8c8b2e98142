/**
 * The network as one identification sees it. A peer is an arbitrary script: what it does at
 * each network operation, in the order the operations happen. Quantifying over scripts
 * quantifies over every peer, since whatever a peer decides on a run is some script.
 *
 * A [Session] carries what the run has come to so far: its clock, its waits, its connections.
 */
module Network {
  import opened Wrappers
  import opened Octets
  import opened Reading

  const BANNER_READ_TIMEOUT: nat := 500
  const PROBE_READ_TIMEOUT: nat := 1000
  const CONTINUATION_GRACE: nat := 50
  const CONNECT_RETRY_TIMEOUT: nat := 500
  const TLS_HANDSHAKE_TIMEOUT: nat := 3000
  const SPECULATIVE_TLS_TIMEOUT: nat := 1500
  const LEGACY_PROBE_TIMEOUT: nat := 1500

  /** A probe's read at its longest: the wait, then a reply trickled to the end. */
  const FULL_READ: nat := PROBE_READ_TIMEOUT + MAX_CONTINUATION

  const REFUSED: string := "TLS (version not established)"

  datatype TlsInfo = TlsInfo(version: Option<string>, certificates: seq<seq<Byte>>)

  /** What the peer does at one operation. Each operation reads the fields it is about. */
  datatype Answer = Answer(
    after: nat,             // how long a dial takes to settle
    accepts: bool,          // whether a dial connects
    takes: bool,            // whether a write succeeds
    wire: Wire,             // what a read meets
    settles: nat,           // how long a handshake or a legacy probe takes to settle
    completes: bool,        // whether a handshake completes
    info: TlsInfo,          // what a completed handshake established
    record: seq<Byte>)      // what the legacy ClientHello drew

  type Peer = nat -> Answer

  /** What a wait was for: words read as they are, or an answer to a probe, read for its structure too. */
  datatype For = Connection | Words | Answers | Tunnel | OldTunnel

  /** One wait: the operation it was, what it was given, and what was heard. */
  datatype Wait = Wait(what: For, step: nat, given: nat, heard: seq<Byte>)

  datatype Session = Session(
    step: nat,              // operations so far
    clock: nat,             // time waited on the port
    base: nat,              // the part of it no path allowance accounts for
    waits: nat,             // waits that allowed for the path
    open: int,              // connections open now
    peak: int,              // the most ever open at once
    tlsHeard: bool,         // a handshake completed, or the legacy probe drew TLS
    completed: bool,        // a handshake completed
    inVain: nat,            // time told of as waited in vain
    stranded: bool,         // the climb ended for want of a connection
    followed: seq<string>,  // the paths of the redirects followed
    rungs: nat,             // rungs of the ladder asked
    trace: seq<Wait>)       // every wait so far, in order

  /** A run as it starts: the caller's one connection, nothing asked. */
  const OPENED := Session(0, 0, 0, 0, 1, 1, false, false, 0, false, [], 0, [])

  /** What an operation drew, and the run after it. */
  datatype Drew<+T> = Drew(what: T, session: Session)

  /** `waits` waits' worth of path. */
  function Crossings(waits: nat, allowance: nat): nat {
    if waits == 0 then 0 else Crossings(waits - 1, allowance) + allowance
  }

  lemma {:induction false} CrossingsMultiply(waits: nat, allowance: nat)
    ensures Crossings(waits, allowance) == waits * allowance
  {
    if waits > 0 {
      CrossingsMultiply(waits - 1, allowance);
    }
  }

  /**
   * What every operation keeps: the clock never passes the base plus one allowance a wait,
   * time waited in vain is time on the clock, and one connection is open at a time.
   */
  predicate Sound(s: Session, path: Path) {
    && s.clock <= s.base + Crossings(s.waits, path.allowance)
    && s.inVain <= s.clock
    && s.open <= s.peak <= 1
  }

  /** From `s` to `t` at most `ms` of base and `waits` waits were spent. */
  predicate Costs(s: Session, t: Session, ms: nat, waits: nat) {
    t.base <= s.base + ms && t.waits <= s.waits + waits
  }

  /** The run after one wait of `took`. */
  function Charge(s: Session, what: For, given: nat, took: nat, heard: seq<Byte>, path: Path): (t: Session)
    ensures Sound(s, path) ==> Sound(t, path)
    ensures t.waits == s.waits + 1
    ensures t.base + path.allowance <= s.base + (if took <= path.allowance then path.allowance else took)
    ensures t.clock == s.clock + took
  {
    s.(step := s.step + 1,
       trace := s.trace + [Wait(what, s.step, given, heard)],
       clock := s.clock + took,
       base := s.base + (if took <= path.allowance then 0 else took - path.allowance),
       waits := s.waits + 1)
  }

  function Close(s: Session): (t: Session) {
    s.(open := s.open - 1)
  }

  /** A further connection to the port, given its timeout and the path. */
  function Dial(peer: Peer, path: Path, s: Session): (r: Drew<bool>)
    ensures Costs(s, r.session, CONNECT_RETRY_TIMEOUT, 1)
    ensures r.session.open == s.open + (if r.what then 1 else 0)
    ensures r.session.tlsHeard == s.tlsHeard && r.session.completed == s.completed
    ensures r.session.stranded == s.stranded && r.session.followed == s.followed && r.session.rungs == s.rungs
    ensures Sound(s, path) && s.open <= 0 ==> Sound(r.session, path)
  {
    var answer := peer(s.step);
    var limit := CONNECT_RETRY_TIMEOUT + path.allowance;
    var t := Charge(s, Connection, limit, Min(answer.after, limit), [], path);
    if answer.accepts && answer.after <= limit then
      Drew(true, t.(open := t.open + 1, peak := if t.peak < t.open + 1 then t.open + 1 else t.peak))
    else
      Drew(false, t)
  }

  /** A write, which takes no time. */
  function Write(peer: Peer, s: Session): Drew<bool> {
    Drew(peer(s.step).takes, s.(step := s.step + 1))
  }

  /** A read of the connection in hand. Nothing drawn costs the wait alone. */
  function ReadPort(peer: Peer, path: Path, s: Session, what: For, wait: nat, grace: nat): (r: Drew<seq<Byte>>)
    ensures Costs(s, r.session, wait + MAX_CONTINUATION, 1)
    ensures r.what == [] || grace == 0 ==> Costs(s, r.session, wait, 1)
    ensures r.session.open == s.open && r.session.tlsHeard == s.tlsHeard && r.session.completed == s.completed
    ensures r.session.stranded == s.stranded && r.session.followed == s.followed && r.session.rungs == s.rungs
    ensures Sound(s, path) ==> Sound(r.session, path)
  {
    ReadIsBounded(peer(s.step).wire, wait, grace, path);
    var heard := Read(peer(s.step).wire, wait, grace, path);
    var t := Charge(s, what, wait + path.allowance, heard.took, heard.bytes, path);
    Drew(heard.bytes, if heard.ranOut then t.(inVain := t.inVain + wait + path.allowance) else t)
  }

  /** A handshake over the connection in hand, which it keeps as a tunnel or drops. */
  function Handshake(peer: Peer, path: Path, s: Session, budget: nat): (r: Drew<Option<TlsInfo>>)
    ensures Costs(s, r.session, budget, 1)
    ensures r.session.open == s.open - (if r.what.Some? then 0 else 1)
    ensures r.session.tlsHeard == (s.tlsHeard || r.what.Some?)
    ensures r.session.completed == (s.completed || r.what.Some?)
    ensures r.session.stranded == s.stranded && r.session.followed == s.followed && r.session.rungs == s.rungs
    ensures Sound(s, path) ==> Sound(r.session, path)
  {
    var answer := peer(s.step);
    var given := budget + path.allowance;
    var t := Charge(s, Tunnel, given, Min(answer.settles, given), [], path);
    if given < answer.settles then
      Drew(None, Close(t.(inVain := t.inVain + given)))
    else if answer.completes then
      Drew(Some(answer.info), t.(tlsHeard := true, completed := true))
    else
      Drew(None, Close(t))
  }

  /** The version a server's first record names, or [REFUSED] for an alert. */
  function ServerVersion(record: seq<Byte>): Option<string> {
    if record == [] then None
    else if record[0] == 0x15 then Some(REFUSED)
    else if record[0] != 0x16 || |record| < 11 || record[5] != 0x02 then None
    else match record[9] as int * 256 + record[10] as int
      case 0x0300 => Some("SSLv3")
      case 0x0301 => Some("TLSv1.0")
      case 0x0302 => Some("TLSv1.1")
      case 0x0303 => Some("TLSv1.2")
      case _ => None
  }

  /** The legacy ClientHello over the connection in hand, which it consumes. */
  function Legacy(peer: Peer, path: Path, s: Session): (r: Drew<Option<TlsInfo>>)
    ensures Costs(s, r.session, LEGACY_PROBE_TIMEOUT, 1)
    ensures r.session.open == s.open - 1
    ensures r.session.tlsHeard == (s.tlsHeard || r.what.Some?) && r.session.completed == s.completed
    ensures r.session.stranded == s.stranded && r.session.followed == s.followed && r.session.rungs == s.rungs
    ensures Sound(s, path) ==> Sound(r.session, path)
  {
    var answer := peer(s.step);
    var given := LEGACY_PROBE_TIMEOUT + path.allowance;
    var t := Close(Charge(s, OldTunnel, given, Min(answer.settles, given), [], path));
    var version := ServerVersion(answer.record);
    if answer.settles <= given && answer.takes && version.Some? then
      Drew(Some(TlsInfo(version, [])), t.(tlsHeard := true))
    else
      Drew(None, t)
  }

  /** A dial connects, and a handshake completes, exactly where the peer lets it in the time it is given. */
  lemma InTheTimeGiven(peer: Peer, path: Path, s: Session, budget: nat)
    ensures var answer := peer(s.step);
      && (Dial(peer, path, s).what <==> answer.accepts && answer.after <= 500 + path.allowance)
      && (Handshake(peer, path, s, budget).what ==
          if answer.completes && answer.settles <= budget + path.allowance then Some(answer.info) else None)
  {
  }

  /** A server's hello, as far as the version it chose: what comes before, that version, and the rest. */
  predicate IsHello(record: seq<Byte>, minor: Byte) {
    && |record| >= 11 && record[0] == 0x16 && record[5] == 0x02
    && record[9] == 0x03 && record[10] == minor
  }

  /**
   * What the legacy handshake hears, in the time it is given: a refusal for an alert, the version a
   * hello chose among the four, and nothing in anything else, or past that time.
   */
  lemma WhatTheLegacyHandshakeHears(peer: Peer, path: Path, s: Session)
    ensures var (answer, heard) := (peer(s.step), Legacy(peer, path, s).what);
      var inTime := answer.settles <= 1500 + path.allowance && answer.takes;
      && (heard == Some(TlsInfo(Some(REFUSED), [])) <==> inTime && [0x15] <= answer.record)
      && (heard == Some(TlsInfo(Some("SSLv3"), [])) <==> inTime && IsHello(answer.record, 0))
      && (heard == Some(TlsInfo(Some("TLSv1.0"), [])) <==> inTime && IsHello(answer.record, 1))
      && (heard == Some(TlsInfo(Some("TLSv1.1"), [])) <==> inTime && IsHello(answer.record, 2))
      && (heard == Some(TlsInfo(Some("TLSv1.2"), [])) <==> inTime && IsHello(answer.record, 3))
      && (heard.Some? ==> [0x15] <= answer.record || exists minor :: minor < 4 && IsHello(answer.record, minor))
  {
    var record := peer(s.step).record;
    NamesOfVersionsDiffer();
    if record != [] && record[0] != 0x15 && ServerVersion(record).Some? {
      assert record[10] < 4 && IsHello(record, record[10]);
    }
  }

  lemma NamesOfVersionsDiffer()
    ensures REFUSED != "SSLv3" && REFUSED != "TLSv1.0" && REFUSED != "TLSv1.1" && REFUSED != "TLSv1.2"
    ensures "SSLv3" != "TLSv1.0" && "SSLv3" != "TLSv1.1" && "SSLv3" != "TLSv1.2"
    ensures "TLSv1.0" != "TLSv1.1" && "TLSv1.1" != "TLSv1.2" && "TLSv1.0" != "TLSv1.2"
  {
    assert |REFUSED| == 29 && |"SSLv3"| == 5 && |"TLSv1.0"| == 7;
    assert "TLSv1.0"[6] == '0' && "TLSv1.1"[6] == '1' && "TLSv1.2"[6] == '2';
  }
}
