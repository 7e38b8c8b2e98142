/**
 * The walk over an ISAKMP request: payloads chained by the type each one names next, to the
 * last byte of a message that states its length (RFC 2408, sections 3.1 and 3.2).
 */
module Isakmp {
  import opened Wrappers
  import opened Octets

  const HEADER_BYTES: nat := 28

  /** One payload: its type, which the one before it names, its reserved octet and its body. */
  datatype Part = Part(kind: Byte, reserved: Byte, body: seq<Byte>)

  predicate WellFormed(part: Part) {
    part.kind != 0 && 4 + |part.body| < 0x1_0000
  }

  /** What names the first of `parts`: its type, or zero at the end of the chain. */
  function Leading(parts: seq<Part>): Byte {
    if parts == [] then 0 else parts[0].kind
  }

  function EncodeChain(parts: seq<Part>): seq<Byte>
    requires forall part <- parts :: WellFormed(part)
  {
    if parts == [] then []
    else
      assert WellFormed(parts[0]);
      [Leading(parts[1..]), parts[0].reserved] + Bytes16(4 + |parts[0].body|) + parts[0].body + EncodeChain(parts[1..])
  }

  /** The payloads `bytes` chains to its end, the first of type `next`. */
  function ReadChain(next: Byte, bytes: seq<Byte>): (parts: Option<seq<Part>>)
    decreases |bytes|
  {
    if next == 0 then (if bytes == [] then Some([]) else None)
    else if |bytes| < 4 then None
    else
      var n := U16(bytes[2], bytes[3]);
      if n < 4 || |bytes| < n then None
      else
        var rest := ReadChain(bytes[0], bytes[n..]);
        if rest.None? then None else Some([Part(next, bytes[1], bytes[4..n])] + rest.value)
  }

  lemma {:induction false} ChainIsEncoded(next: Byte, bytes: seq<Byte>)
    requires ReadChain(next, bytes).Some?
    ensures var parts := ReadChain(next, bytes).value;
      (forall part <- parts :: WellFormed(part)) && Leading(parts) == next && EncodeChain(parts) == bytes
    decreases |bytes|
  {
    if next != 0 {
      var n := U16(bytes[2], bytes[3]);
      ChainIsEncoded(bytes[0], bytes[n..]);
      Bytes16Of(bytes[2], bytes[3]);
      hide U16, Bytes16;
      var parts := ReadChain(next, bytes).value;
      assert parts[1..] == ReadChain(bytes[0], bytes[n..]).value;
      assert bytes == [bytes[0], bytes[1]] + [bytes[2], bytes[3]] + bytes[4..n] + bytes[n..];
      assert parts[0] == Part(next, bytes[1], bytes[4..n]);
    }
  }

  lemma {:induction false} EncodedIsAChain(parts: seq<Part>)
    requires forall part <- parts :: WellFormed(part)
    ensures ReadChain(Leading(parts), EncodeChain(parts)) == Some(parts)
    decreases |parts|
  {
    if parts != [] {
      assert WellFormed(parts[0]);
      EncodedIsAChain(parts[1..]);
      var (bytes, n) := (EncodeChain(parts), 4 + |parts[0].body|);
      var size := Bytes16(n);
      hide Bytes16, U16;
      assert bytes[0] == Leading(parts[1..]) && bytes[1] == parts[0].reserved;
      assert bytes[2] == size[0] && bytes[3] == size[1];
      assert bytes[4..n] == parts[0].body && bytes[n..] == EncodeChain(parts[1..]);
      assert parts == [parts[0]] + parts[1..];
    }
  }

  /** No responder cookie, and a stated length that is the message's. */
  predicate HeaderHolds(payload: seq<Byte>) {
    && |payload| >= HEADER_BYTES
    && (forall i | 8 <= i < 16 :: payload[i] == 0)
    && BigEndian(payload[24..28]) == |payload|
  }

  predicate Accepts(payload: seq<Byte>) {
    HeaderHolds(payload) && ReadChain(payload[16], payload[HEADER_BYTES..]).Some?
  }

  method ValidateIsakmpRequest(payload: seq<Byte>) returns (ok: bool)
    ensures ok == Accepts(payload)
  {
    if |payload| < HEADER_BYTES || (exists i | 8 <= i < 16 :: payload[i] != 0)
       || BigEndian(payload[24..28]) != |payload| {
      return false;
    }
    var next, at := payload[16], HEADER_BYTES;
    while next != 0
      invariant HEADER_BYTES <= at <= |payload|
      invariant ReadChain(next, payload[at..]).Some? <==> ReadChain(payload[16], payload[HEADER_BYTES..]).Some?
      decreases |payload| - at
    {
      if |payload| < at + 4 {
        return false;
      }
      var length := U16(payload[at + 2], payload[at + 3]);
      if length < 4 || |payload| < at + length {
        return false;
      }
      assert payload[at..][length..] == payload[at + length..];
      next, at := payload[at], at + length;
    }
    ok := at == |payload|;
  }

  /** A request is accepted exactly where its header holds and a chain of payloads fills the rest; one chain only. */
  lemma AcceptedExactlyTheChains(payload: seq<Byte>)
    ensures Accepts(payload) <==>
      && |payload| >= 28 && (forall i | 8 <= i < 16 :: payload[i] == 0) && BigEndian(payload[24..28]) == |payload|
      && exists parts ::
           && (forall part <- parts :: WellFormed(part))
           && Leading(parts) == payload[16] && EncodeChain(parts) == payload[28..]
    ensures forall one, other |
      && (forall part <- one :: WellFormed(part)) && (forall part <- other :: WellFormed(part))
      && Leading(one) == Leading(other) && EncodeChain(one) == EncodeChain(other) :: one == other
  {
    if Accepts(payload) {
      ChainIsEncoded(payload[16], payload[HEADER_BYTES..]);
    }
    forall parts | forall part <- parts :: WellFormed(part)
      ensures ReadChain(Leading(parts), EncodeChain(parts)) == Some(parts)
    {
      EncodedIsAChain(parts);
    }
  }
}
