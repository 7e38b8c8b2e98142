/**
 * The walk over an ONC RPC call: a credential and a verifier, each stating a length and
 * padded to a multiple of four, to the last byte (RFC 5531, sections 8.2 and 9).
 */
module Rpc {
  import opened Wrappers
  import opened Octets

  const MSG_TYPE_CALL: nat := 0
  const RPC_VERSION: nat := 2
  /** The transaction, the message type, the versions, the program and the procedure. */
  const CALL_BYTES: nat := 24

  function Padded(n: nat): (m: nat)
    ensures n <= m < n + 4 && m % 4 == 0
  {
    (n + 3) / 4 * 4
  }

  function Word(payload: seq<Byte>, at: nat): Option<nat> {
    if at + 4 <= |payload| then Some(BigEndian(payload[at..at + 4])) else None
  }

  /** An authentication field: its flavour, the four octets of its length, its body and its padding. */
  datatype Auth = Auth(flavour: seq<Byte>, length: seq<Byte>, body: seq<Byte>, padding: seq<Byte>)

  predicate WellFormed(auth: Auth) {
    && |auth.flavour| == 4 && |auth.length| == 4 && BigEndian(auth.length) == |auth.body|
    && |auth.body| + |auth.padding| == Padded(|auth.body|)
  }

  function Encode(auth: Auth): seq<Byte> {
    auth.flavour + auth.length + auth.body + auth.padding
  }

  /** Where the field at `at` ends, where it states a length and holds it. */
  function AuthEnd(payload: seq<Byte>, at: nat): (end: Option<nat>)
    ensures end.Some? ==> at + 8 <= end.value <= |payload|
  {
    match Word(payload, at + 4)
    case None => None
    case Some(length) =>
      if at + 8 + Padded(length) <= |payload| then Some(at + 8 + Padded(length)) else None
  }

  predicate Accepts(payload: seq<Byte>) {
    && Word(payload, 4) == Some(MSG_TYPE_CALL) && Word(payload, 8) == Some(RPC_VERSION)
    && AuthEnd(payload, CALL_BYTES).Some?
    && AuthEnd(payload, AuthEnd(payload, CALL_BYTES).value) == Some(|payload|)
  }

  method ValidateRpcCall(payload: seq<Byte>) returns (ok: bool)
    ensures ok == Accepts(payload)
  {
    if Word(payload, 4) != Some(MSG_TYPE_CALL) || Word(payload, 8) != Some(RPC_VERSION) {
      return false;
    }
    hide Word;
    var at := CALL_BYTES;
    for which := 0 to 2
      invariant at == if which == 0 then CALL_BYTES else at
      invariant which == 1 ==> AuthEnd(payload, CALL_BYTES) == Some(at)
      invariant which == 2 ==>
        AuthEnd(payload, CALL_BYTES).Some? && AuthEnd(payload, AuthEnd(payload, CALL_BYTES).value) == Some(at)
    {
      var length := Word(payload, at + 4);
      if length.None? {
        return false;
      }
      var end := at + 8 + Padded(length.value);
      if end > |payload| {
        return false;
      }
      at := end;
    }
    ok := at == |payload|;
  }

  lemma EndsWhereItIsEncoded(payload: seq<Byte>, at: nat, auth: Auth)
    requires WellFormed(auth) && at <= |payload| && Encode(auth) <= payload[at..]
    ensures AuthEnd(payload, at) == Some(at + |Encode(auth)|)
  {
    var field := payload[at..];
    var e := Encode(auth);
    assert e == auth.flavour + (auth.length + (auth.body + auth.padding));
    assert e[4..8] == auth.length;
    assert field[..|e|] == e;
    assert field[4..8] == field[..|e|][4..8];
    assert field[4..8] == payload[at + 4..at + 8];
  }

  lemma EncodedWhereItEnds(payload: seq<Byte>, at: nat) returns (auth: Auth)
    requires at <= |payload| && AuthEnd(payload, at).Some?
    ensures WellFormed(auth) && Encode(auth) == payload[at..AuthEnd(payload, at).value]
  {
    var end := AuthEnd(payload, at).value;
    var n := BigEndian(payload[at + 4..at + 8]);
    auth := Auth(payload[at..at + 4], payload[at + 4..at + 8], payload[at + 8..at + 8 + n], payload[at + 8 + n..end]);
  }

  /** A field is all in its bytes, whatever follows it. */
  lemma FieldsOf(auth: Auth, rest: seq<Byte>)
    requires WellFormed(auth)
    ensures var (s, n) := (Encode(auth) + rest, |auth.body|);
      && s[..4] == auth.flavour && s[4..8] == auth.length && s[8..8 + n] == auth.body
      && s[8 + n..8 + Padded(n)] == auth.padding && s[8 + Padded(n)..] == rest
  {
    assert Encode(auth) + rest == auth.flavour + (auth.length + (auth.body + (auth.padding + rest)));
  }

  lemma OneField(one: Auth, rest: seq<Byte>, other: Auth, rest': seq<Byte>)
    requires WellFormed(one) && WellFormed(other) && Encode(one) + rest == Encode(other) + rest'
    ensures one == other && rest == rest'
  {
    hide Encode, Padded;
    FieldsOf(one, rest);
    FieldsOf(other, rest');
  }

  /** No other two fields fill it. */
  lemma OneCredentialOneVerifier(credential: Auth, verifier: Auth, other: Auth, another: Auth)
    requires WellFormed(credential) && WellFormed(verifier) && WellFormed(other) && WellFormed(another)
    requires Encode(credential) + Encode(verifier) == Encode(other) + Encode(another)
    ensures credential == other && verifier == another
  {
    hide Encode, WellFormed;
    OneField(credential, Encode(verifier), other, Encode(another));
    OneField(verifier, [], another, []);
  }

  /** A call is accepted exactly where it is a version 2 call and two authentication fields fill the rest. */
  lemma AcceptedExactlyTheCalls(payload: seq<Byte>)
    ensures Accepts(payload) <==>
      && |payload| >= 24
      && Word(payload, 4) == Some(0) && Word(payload, 8) == Some(2)
      && exists credential, verifier ::
           && WellFormed(credential) && WellFormed(verifier)
           && payload[24..] == Encode(credential) + Encode(verifier)
  {
    hide Word;
    if Accepts(payload) {
      var middle := AuthEnd(payload, CALL_BYTES).value;
      var credential := EncodedWhereItEnds(payload, CALL_BYTES);
      var verifier := EncodedWhereItEnds(payload, middle);
      assert payload[CALL_BYTES..] == payload[CALL_BYTES..middle] + payload[middle..|payload|];
    }
    if |payload| >= CALL_BYTES {
      forall credential, verifier |
        && WellFormed(credential) && WellFormed(verifier)
        && payload[CALL_BYTES..] == Encode(credential) + Encode(verifier)
        ensures AuthEnd(payload, CALL_BYTES).Some?
        ensures AuthEnd(payload, AuthEnd(payload, CALL_BYTES).value) == Some(|payload|)
      {
        EndsWhereItIsEncoded(payload, CALL_BYTES, credential);
        var middle := CALL_BYTES + |Encode(credential)|;
        assert payload[middle..] == Encode(verifier);
        EndsWhereItIsEncoded(payload, middle, verifier);
      }
    }
  }
}
