/**
 * The walk over an L2TP control message: a header that states the message's length, and
 * attributes that tile what follows it, Message Type first (RFC 2661, sections 3.1 and 4.1).
 */
module L2tp {
  import opened Wrappers
  import opened Octets

  const HEADER_BYTES: nat := 12
  const ATTRIBUTE_HEADER_BYTES: nat := 6
  const MESSAGE_TYPE: nat := 0
  const SCCRQ: nat := 1

  /** Two octets of flags over a length, two of a vendor, two of a kind, and the value. */
  datatype Attribute = Attribute(head: seq<Byte>, vendor: seq<Byte>, kind: seq<Byte>, value: seq<Byte>)

  /** The low ten bits of the two octets. */
  function LengthIn(hi: Byte, lo: Byte): nat {
    U16(hi, lo) % 1024
  }

  /** The length stated covers the attribute. */
  predicate WellFormed(a: Attribute) {
    && |a.head| == 2 && |a.vendor| == 2 && |a.kind| == 2
    && a.head[0] as int % 4 * 256 + a.head[1] as int == Size(a)
  }

  lemma LowTenBits(hi: Byte, lo: Byte)
    ensures LengthIn(hi, lo) == hi as int % 4 * 256 + lo as int
  {
    var (q, r) := (hi as int / 4, hi as int % 4);
    assert U16(hi, lo) == q * 1024 + (r * 256 + lo as int);
  }

  function Size(a: Attribute): nat {
    ATTRIBUTE_HEADER_BYTES + |a.value|
  }

  function Encode(a: Attribute): seq<Byte> {
    a.head + a.vendor + a.kind + a.value
  }

  function EncodeAll(attributes: seq<Attribute>): seq<Byte> {
    if attributes == [] then [] else Encode(attributes[0]) + EncodeAll(attributes[1..])
  }

  /** The attribute at the start of `bytes`. */
  function ReadAttribute(bytes: seq<Byte>): (a: Option<Attribute>)
    ensures a.Some? ==> WellFormed(a.value) && Size(a.value) <= |bytes|
  {
    if |bytes| < ATTRIBUTE_HEADER_BYTES then None
    else
      var n := LengthIn(bytes[0], bytes[1]);
      LowTenBits(bytes[0], bytes[1]);
      if n < ATTRIBUTE_HEADER_BYTES || |bytes| < n then None
      else Some(Attribute(bytes[..2], bytes[2..4], bytes[4..6], bytes[6..n]))
  }

  lemma ReadsBack(a: Attribute, rest: seq<Byte>)
    requires WellFormed(a)
    ensures ReadAttribute(Encode(a) + rest) == Some(a) && |Encode(a)| == Size(a)
  {
    hide LengthIn;
    LowTenBits(a.head[0], a.head[1]);
    var bytes := Encode(a) + rest;
    assert bytes == a.head + (a.vendor + (a.kind + (a.value + rest)));
    assert bytes[..2] == a.head && bytes[2..4] == a.vendor && bytes[4..6] == a.kind;
    assert bytes[0] == a.head[0] && bytes[1] == a.head[1];
    assert bytes[6..Size(a)] == a.value;
  }

  lemma WritesBack(bytes: seq<Byte>)
    requires ReadAttribute(bytes).Some?
    ensures var a := ReadAttribute(bytes).value; Encode(a) == bytes[..Size(a)]
  {
    hide LengthIn;
    var n := Size(ReadAttribute(bytes).value);
    assert bytes[..n] == bytes[..2] + bytes[2..4] + bytes[4..6] + bytes[6..n];
  }

  /** The attributes that tile `bytes`. */
  function Attributes(bytes: seq<Byte>): Option<seq<Attribute>>
    decreases |bytes|
  {
    if bytes == [] then Some([])
    else
      var first := ReadAttribute(bytes);
      if first.None? then None
      else
        var rest := Attributes(bytes[Size(first.value)..]);
        if rest.None? then None else Some([first.value] + rest.value)
  }

  lemma {:induction false} AttributesAreEncoded(bytes: seq<Byte>)
    requires Attributes(bytes).Some?
    ensures var all := Attributes(bytes).value;
      (forall a <- all :: WellFormed(a)) && EncodeAll(all) == bytes
    decreases |bytes|
  {
    if bytes != [] {
      var n := Size(ReadAttribute(bytes).value);
      WritesBack(bytes);
      hide ReadAttribute, Encode;
      AttributesAreEncoded(bytes[n..]);
      assert bytes == bytes[..n] + bytes[n..];
      assert Attributes(bytes).value[1..] == Attributes(bytes[n..]).value;
    }
  }

  lemma {:induction false} EncodedAreAttributes(all: seq<Attribute>)
    requires forall a <- all :: WellFormed(a)
    ensures Attributes(EncodeAll(all)) == Some(all)
    decreases |all|
  {
    hide ReadAttribute, Encode;
    if all != [] {
      var (first, rest) := (Encode(all[0]), EncodeAll(all[1..]));
      ReadsBack(all[0], rest);
      EncodedAreAttributes(all[1..]);
      assert (first + rest)[|first|..] == rest;
      assert all == [all[0]] + all[1..];
    }
  }

  // ---------- the message ----------

  /** The type, length and sequence bits set, version 2, and a stated length that is the message's. */
  predicate HeaderHolds(payload: seq<Byte>) {
    && |payload| >= 4
    && payload[0] >= 0xC0 && payload[0] / 8 % 2 == 1
    && payload[1] % 16 == 2
    && U16(payload[2], payload[3]) == |payload|
  }

  function KindOf(a: Attribute): nat {
    if |a.kind| == 2 then U16(a.kind[0], a.kind[1]) else 0
  }

  /** Message Type first, proposing a tunnel. */
  predicate ProposesATunnel(attributes: seq<Attribute>) {
    && attributes != [] && KindOf(attributes[0]) == MESSAGE_TYPE
    && |attributes[0].value| >= 2 && U16(attributes[0].value[0], attributes[0].value[1]) == SCCRQ
  }

  predicate Accepts(payload: seq<Byte>) {
    && HeaderHolds(payload) && |payload| >= HEADER_BYTES
    && var attributes := Attributes(payload[HEADER_BYTES..]);
    && attributes.Some? && ProposesATunnel(attributes.value)
  }

  /** The first attribute is there, and too short for the message type the walk takes from it. */
  predicate StopsShort(payload: seq<Byte>) {
    && HeaderHolds(payload) && |payload| >= HEADER_BYTES
    && var first := ReadAttribute(payload[HEADER_BYTES..]);
    && first.Some? && |first.value.value| < 2
  }

  /** The message is over before its header is, and what follows the header is less than nothing. */
  predicate EndsInItsHeader(payload: seq<Byte>) {
    HeaderHolds(payload) && |payload| < HEADER_BYTES
  }

  /**
   * What becomes of a payload. Besides accepting and refusing it the walk may index past the end
   * of an attribute, which ends the build, or subtract the header's length from a shorter
   * message's, which ends a build that checks its arithmetic.
   */
  datatype Outcome = Accepted | Refused | IndexedPastTheEnd | SubtractedBelowZero

  method ValidateL2tpControl(payload: seq<Byte>) returns (outcome: Outcome)
    ensures outcome == Accepted <==> Accepts(payload)
    ensures outcome == IndexedPastTheEnd <==> StopsShort(payload)
    ensures outcome == SubtractedBelowZero <==> EndsInItsHeader(payload)
  {
    if |payload| == 0 || payload[0] < 0xC0 || payload[0] / 8 % 2 == 0
       || |payload| < 2 || payload[1] % 16 != 2 || |payload| < 4 || U16(payload[2], payload[3]) != |payload| {
      return Refused;
    }
    if |payload| < HEADER_BYTES {
      return SubtractedBelowZero;
    }
    var first, short := LeadingAttribute(payload);
    if short {
      return IndexedPastTheEnd;
    }
    if first.Some? && KindOf(first.value) == MESSAGE_TYPE
       && U16(first.value.value[0], first.value.value[1]) == SCCRQ {
      return Accepted;
    }
    outcome := Refused;
  }

  /** The first attribute of a chain that holds to its end, or `short` where it carries no message type. */
  method LeadingAttribute(payload: seq<Byte>) returns (first: Option<Attribute>, short: bool)
    requires |payload| >= HEADER_BYTES
    ensures var leading := ReadAttribute(payload[HEADER_BYTES..]); short <==> leading.Some? && |leading.value.value| < 2
    ensures var all := Attributes(payload[HEADER_BYTES..]);
      && (first.Some? <==> all.Some? && all.value != [] && !short)
      && (first.Some? ==> first.value == all.value[0] && |first.value.value| >= 2)
  {
    hide ReadAttribute, WellFormed;
    ghost var all := Attributes(payload[HEADER_BYTES..]);
    ghost var leading := ReadAttribute(payload[HEADER_BYTES..]);
    var at := HEADER_BYTES;
    first, short := None, false;
    while at + ATTRIBUTE_HEADER_BYTES <= |payload|
      invariant HEADER_BYTES <= at <= |payload|
      invariant first.None? ==> at == HEADER_BYTES
      invariant all.Some? <==> Attributes(payload[at..]).Some?
      invariant first.Some? ==> |first.value.value| >= 2 && leading == first
      invariant first.Some? && all.Some? ==> all.value != [] && all.value[0] == first.value
    {
      var attribute := ReadAttribute(payload[at..]);
      if attribute.None? {
        return None, false;
      }
      if first.None? {
        if |attribute.value.value| < 2 {
          return None, true;
        }
        first := attribute;
      }
      var size := Size(attribute.value);
      assert payload[at..][size..] == payload[at + size..];
      at := at + size;
    }
    if first.None? {
      TooShort(payload[at..]);
    }
    if at != |payload| {
      TooShort(payload[at..]);
      return None, false;
    }
  }

  lemma TooShort(bytes: seq<Byte>)
    requires |bytes| < ATTRIBUTE_HEADER_BYTES
    ensures ReadAttribute(bytes).None? && (bytes != [] ==> Attributes(bytes).None?)
  {
  }

  lemma AProposalAsWritten(all: seq<Attribute>)
    requires forall a <- all :: WellFormed(a)
    ensures ProposesATunnel(all) <==> all != [] && all[0].kind == [0, 0] && [0, 1] <= all[0].value
  {
    hide U16, WellFormed;
    if all != [] {
      var first := all[0];
      KindsAreTwoOctets(first);
      TwoOctets(first.kind, 0);
      if |first.value| >= 2 {
        TwoOctets(first.value[..2], 1);
      }
    }
  }

  lemma KindsAreTwoOctets(a: Attribute)
    requires WellFormed(a)
    ensures |a.kind| == 2
  {
  }

  lemma TwoOctets(bytes: seq<Byte>, n: Byte)
    requires |bytes| == 2
    ensures U16(bytes[0], bytes[1]) == n as int <==> bytes == [0, n]
  {
    assert bytes == [bytes[0], bytes[1]];
  }

  /** A message is accepted exactly where its header holds and attributes proposing a tunnel tile the rest. */
  lemma AcceptedExactlyTheProposals(payload: seq<Byte>)
    ensures Accepts(payload) <==>
      && HeaderHolds(payload) && |payload| >= 12
      && exists all: seq<Attribute> ::
           && (forall a <- all :: WellFormed(a)) && EncodeAll(all) == payload[12..]
           && all != [] && all[0].kind == [0, 0] && [0, 1] <= all[0].value
  {
    hide ReadAttribute, Encode;
    forall all: seq<Attribute> | forall a <- all :: WellFormed(a)
      ensures ProposesATunnel(all) <==> all != [] && all[0].kind == [0, 0] && [0, 1] <= all[0].value
    {
      AProposalAsWritten(all);
    }
    if HeaderHolds(payload) && |payload| >= HEADER_BYTES {
      var chain := payload[HEADER_BYTES..];
      if Attributes(chain).Some? {
        AttributesAreEncoded(chain);
      }
      forall all | (forall a <- all :: WellFormed(a)) && EncodeAll(all) == chain
        ensures Attributes(chain) == Some(all)
      {
        EncodedAreAttributes(all);
      }
    }
  }

  /** No two lists of attributes tile one. */
  lemma OneTiling(all: seq<Attribute>, others: seq<Attribute>)
    requires (forall a <- all :: WellFormed(a)) && (forall a <- others :: WellFormed(a))
    requires EncodeAll(all) == EncodeAll(others)
    ensures all == others
  {
    hide ReadAttribute, Encode;
    EncodedAreAttributes(all);
    EncodedAreAttributes(others);
  }

  /** An attribute that states a length of six or seven, and has it, follows the header. */
  predicate OpensShort(payload: seq<Byte>) {
    && |payload| >= HEADER_BYTES + ATTRIBUTE_HEADER_BYTES
    && var length := LengthIn(payload[12], payload[13]);
       ATTRIBUTE_HEADER_BYTES <= length < ATTRIBUTE_HEADER_BYTES + 2 && HEADER_BYTES + length <= |payload|
  }

  /**
   * The walk stops, and neither accepts nor refuses, exactly where the header holds and either
   * the message is shorter than a header or its first attribute holds fewer than two bytes.
   */
  lemma StopsExactlyWhere(payload: seq<Byte>)
    ensures (StopsShort(payload) || EndsInItsHeader(payload)) <==>
      HeaderHolds(payload) && (|payload| < HEADER_BYTES || OpensShort(payload))
  {
    hide HeaderHolds;
    if |payload| >= HEADER_BYTES {
      var chain := payload[HEADER_BYTES..];
      assert |chain| >= 2 ==> chain[0] == payload[12] && chain[1] == payload[13];
      hide LengthIn;
    }
  }

  /** A message of four bytes that says so. */
  lemma AFourByteMessageStops()
    ensures EndsInItsHeader([0xC8, 0x02, 0x00, 0x04])
  {
  }

  /** A message of a header and one empty attribute. */
  lemma AnEmptyAttributeStops()
    ensures StopsShort([0xC8, 0x02, 0x00, 0x12, 0, 0, 0, 0, 0, 0, 0, 0] + [0x80, 0x06, 0, 0, 0, 0])
  {
    var header := [0xC8, 0x02, 0x00, 0x12, 0, 0, 0, 0, 0, 0, 0, 0];
    var attribute := [0x80, 0x06, 0, 0, 0, 0];
    assert (header + attribute)[HEADER_BYTES..] == attribute;
  }
}
