/**
 * The walk over a Kerberos AS-REQ's DER: an application element around one sequence, whose
 * fields tile it and include those section 5.4.1 of RFC 4120 makes mandatory.
 */
module AsReq {
  import opened Wrappers
  import opened Octets

  const AS_REQ: Byte := 0x6A

  // ---------- elements ----------

  /** A tag, the octets that spell its length, and as many octets of value. */
  datatype Element = Element(tag: Byte, header: seq<Byte>, value: seq<Byte>)

  /** Short form, or long form in at most four octets, padded or not. */
  predicate Spells(header: seq<Byte>, n: nat) {
    || (|header| == 1 && header[0] < 0x80 && n == header[0] as int)
    || (2 <= |header| <= 5 && header[0] as int == 0x80 + |header| - 1 && n == BigEndian(header[1..]))
  }

  predicate WellFormed(e: Element) {
    Spells(e.header, |e.value|)
  }

  function Encode(e: Element): seq<Byte> {
    [e.tag] + e.header + e.value
  }

  function EncodeAll(es: seq<Element>): seq<Byte> {
    if es == [] then [] else Encode(es[0]) + EncodeAll(es[1..])
  }

  /** How many octets spell a length starting with `first`, where this walk covers it. */
  function HeaderSize(first: Byte): Option<nat> {
    if first < 0x80 then Some(1)
    else if first == 0x80 || first > 0x84 then None
    else Some(first as int - 0x80 + 1)
  }

  function LengthOf(header: seq<Byte>): nat
    requires header != []
  {
    if |header| == 1 then header[0] as int else BigEndian(header[1..])
  }

  /** The element at the start of `bytes`. */
  function ReadElement(bytes: seq<Byte>): (e: Option<Element>)
    ensures e.Some? ==> WellFormed(e.value) && Encode(e.value) <= bytes && 2 <= |Encode(e.value)|
  {
    if |bytes| < 2 || HeaderSize(bytes[1]).None? then None
    else
      var end := 1 + HeaderSize(bytes[1]).value;
      if |bytes| < end then None
      else
        var header := bytes[1..end];
        var n := LengthOf(header);
        if |bytes| < end + n then None
        else Some(Element(bytes[0], header, bytes[end..end + n]))
  }

  /** Reading back what was encoded, whatever follows it. */
  lemma ReadsBack(e: Element, rest: seq<Byte>)
    requires WellFormed(e)
    ensures ReadElement(Encode(e) + rest) == Some(e)
  {
    var (bytes, end) := (Encode(e) + rest, 1 + |e.header|);
    assert bytes[0] == e.tag && bytes[1] == e.header[0];
    assert bytes[1..end] == e.header && bytes[end..end + |e.value|] == e.value;
    assert LengthOf(e.header) == |e.value|;
  }

  /** The loop that accumulates a long-form length, one octet at a time. */
  method ElementAt(bytes: seq<Byte>) returns (e: Option<Element>)
    ensures e == ReadElement(bytes)
  {
    if |bytes| < 2 {
      return None;
    }
    var first := bytes[1];
    var length, header := first as int, 2;
    if first >= 0x80 {
      var count := first as int - 0x80;
      if count == 0 || count > 4 {
        return None;
      }
      length := 0;
      for index := 0 to count
        invariant 2 + index <= |bytes| && length == BigEndian(bytes[2..2 + index])
      {
        if |bytes| <= 2 + index {
          return None;
        }
        assert bytes[2..2 + index + 1][..index] == bytes[2..2 + index];
        length := length * 256 + bytes[2 + index] as int;
      }
      header := 2 + count;
      assert bytes[1..header][1..] == bytes[2..header];
    }
    if |bytes| < header + length {
      return None;
    }
    e := Some(Element(bytes[0], bytes[1..header], bytes[header..header + length]));
  }

  // ---------- fields ----------

  /** The elements that tile `bytes`. */
  function Fields(bytes: seq<Byte>): (fields: Option<seq<Element>>)
    decreases |bytes|
  {
    if bytes == [] then Some([])
    else
      var first := ReadElement(bytes);
      if first.None? then None
      else
        var rest := Fields(bytes[|Encode(first.value)|..]);
        if rest.None? then None else Some([first.value] + rest.value)
  }

  lemma {:induction false} FieldsAreEncoded(bytes: seq<Byte>)
    requires Fields(bytes).Some?
    ensures EncodeAll(Fields(bytes).value) == bytes
    ensures forall e <- Fields(bytes).value :: WellFormed(e)
    decreases |bytes|
  {
    hide ReadElement, Encode, WellFormed;
    if bytes != [] {
      var first := ReadElement(bytes).value;
      var size := |Encode(first)|;
      FieldsAreEncoded(bytes[size..]);
      var rest := Fields(bytes[size..]).value;
      assert Fields(bytes) == Some([first] + rest);
      assert ([first] + rest)[1..] == rest;
      assert bytes == bytes[..size] + bytes[size..];
    }
  }

  lemma {:induction false} EncodedAreFields(es: seq<Element>)
    requires forall e <- es :: WellFormed(e)
    ensures Fields(EncodeAll(es)) == Some(es)
    decreases |es|
  {
    if es != [] {
      ReadsBack(es[0], EncodeAll(es[1..]));
      EncodedAreFields(es[1..]);
      var (first, rest) := (Encode(es[0]), EncodeAll(es[1..]));
      assert (first + rest)[|first|..] == rest;
      assert es == [es[0]] + es[1..];
    }
  }

  function Tags(es: seq<Element>): seq<Byte> {
    seq(|es|, i requires 0 <= i < |es| => es[i].tag)
  }

  /** The fields a KDC rejects a request without: pvno, msg-type and the body. */
  predicate Complete(tags: seq<Byte>) {
    0xA1 in tags && 0xA2 in tags && 0xA4 in tags
  }

  // ---------- the request ----------

  predicate Accepts(payload: seq<Byte>) {
    && payload != [] && payload[0] == AS_REQ
    && var outer := ReadElement(payload);
    && outer.Some? && |Encode(outer.value)| == |payload|
    && var inner := ReadElement(outer.value.value);
    && inner.Some? && |Encode(inner.value)| == |outer.value.value|
    && var fields := Fields(inner.value.value);
    && fields.Some? && Complete(Tags(fields.value))
  }

  /** The loop over the fields, keeping each one's tag. */
  method FieldTags(fields: seq<Byte>) returns (tags: Option<seq<Byte>>)
    ensures tags == if Fields(fields).Some? then Some(Tags(Fields(fields).value)) else None
  {
    hide ReadElement, Encode;
    var at: nat := 0;
    var seen: seq<Byte> := [];
    assert fields[0..] == fields;
    while at < |fields|
      invariant at <= |fields|
      invariant Fields(fields).Some? <==> Fields(fields[at..]).Some?
      invariant Fields(fields).Some? ==> Tags(Fields(fields).value) == seen + Tags(Fields(fields[at..]).value)
    {
      var next := ElementAt(fields[at..]);
      if next.None? {
        return None;
      }
      var size := |Encode(next.value)|;
      TagFirst(fields[at..]);
      assert fields[at..][size..] == fields[at + size..];
      seen, at := seen + [fields[at]], at + size;
    }
    assert fields[at..] == [] && Tags([]) == [] && seen + [] == seen;
    return Some(seen);
  }

  lemma TagsOneMore(e: Element, rest: seq<Element>)
    ensures Tags([e] + rest) == [e.tag] + Tags(rest)
  {
    assert ([e] + rest)[1..] == rest;
  }

  lemma TagFirst(bytes: seq<Byte>)
    requires bytes != [] && ReadElement(bytes).Some?
    ensures ReadElement(bytes).value.tag == bytes[0]
    ensures Fields(bytes).Some? ==>
      Tags(Fields(bytes).value) == [bytes[0]] + Tags(Fields(bytes[|Encode(ReadElement(bytes).value)|..]).value)
  {
    var e := ReadElement(bytes).value;
    assert e.tag == bytes[0];
    hide ReadElement, Encode, Tags;
    var rest := Fields(bytes[|Encode(e)|..]);
    if rest.Some? {
      assert Fields(bytes) == Some([e] + rest.value);
      TagsOneMore(e, rest.value);
    }
  }

  method ValidateAsReq(payload: seq<Byte>) returns (ok: bool)
    ensures ok == Accepts(payload)
  {
    if payload == [] || payload[0] != AS_REQ {
      return false;
    }
    var outer := ElementAt(payload);
    if outer.None? || |Encode(outer.value)| != |payload| {
      return false;
    }
    var inner := ElementAt(outer.value.value);
    if inner.None? || |Encode(inner.value)| != |outer.value.value| {
      return false;
    }
    var seen := FieldTags(inner.value.value);
    ok := seen.Some? && Complete(seen.value);
  }

  /** A request: an outer length, a sequence, and its fields. */
  datatype Request = Request(outer: seq<Byte>, tag: Byte, inner: seq<Byte>, fields: seq<Element>)

  function Sequence(r: Request): Element {
    Element(r.tag, r.inner, EncodeAll(r.fields))
  }

  function Message(r: Request): Element {
    Element(0x6A, r.outer, Encode(Sequence(r)))
  }

  ghost predicate Valid(r: Request) {
    && WellFormed(Message(r)) && WellFormed(Sequence(r))
    && (forall e <- r.fields :: WellFormed(e))
    && (exists e <- r.fields :: e.tag == 0xA1) && (exists e <- r.fields :: e.tag == 0xA2)
    && (exists e <- r.fields :: e.tag == 0xA4)
  }

  /** A tag is among the fields' where a field carries it. */
  lemma TagsHold(es: seq<Element>, tag: Byte)
    ensures tag in Tags(es) <==> exists e <- es :: e.tag == tag
  {
    assert forall i | 0 <= i < |es| :: Tags(es)[i] == es[i].tag;
  }

  lemma CompleteIs(es: seq<Element>)
    ensures Complete(Tags(es)) <==>
      (exists e <- es :: e.tag == 0xA1) && (exists e <- es :: e.tag == 0xA2) && (exists e <- es :: e.tag == 0xA4)
  {
    hide Tags;
    TagsHold(es, 0xA1);
    TagsHold(es, 0xA2);
    TagsHold(es, 0xA4);
  }

  lemma EveryRequestIsAccepted(r: Request)
    requires Valid(r)
    ensures Accepts(Encode(Message(r)))
  {
    hide Complete, Tags, ReadElement, Fields, WellFormed, EncodeAll;
    CompleteIs(r.fields);
    var (message, sequence) := (Message(r), Sequence(r));
    assert Encode(message)[0] == 0x6A;
    ReadsBack(message, []);
    ReadsBack(sequence, []);
    EncodedAreFields(r.fields);
    assert Encode(message) + [] == Encode(message) && Encode(sequence) + [] == Encode(sequence);
  }

  lemma WhatIsAcceptedIsARequest(payload: seq<Byte>) returns (r: Request)
    requires Accepts(payload)
    ensures Valid(r) && Encode(Message(r)) == payload
  {
    hide Complete, Tags;
    var outer := ReadElement(payload).value;
    var inner := ReadElement(outer.value).value;
    FieldsAreEncoded(inner.value);
    CompleteIs(Fields(inner.value).value);
    r := Request(outer.header, inner.tag, inner.header, Fields(inner.value).value);
    assert Encode(inner) == outer.value && Sequence(r) == inner;
    assert Encode(outer) == payload && Message(r) == outer;
  }

  /** A payload is accepted exactly where it encodes a valid request, and no two requests share one. */
  lemma AcceptedExactlyTheRequests(payload: seq<Byte>)
    ensures Accepts(payload) <==> exists r :: Valid(r) && Encode(Message(r)) == payload
    ensures forall a, b | Valid(a) && Valid(b) && Encode(Message(a)) == Encode(Message(b)) :: a == b
  {
    if Accepts(payload) {
      var r := WhatIsAcceptedIsARequest(payload);
    }
    forall r | Valid(r) && Encode(Message(r)) == payload
      ensures Accepts(payload)
    {
      EveryRequestIsAccepted(r);
    }
    forall a, b | Valid(a) && Valid(b) && Encode(Message(a)) == Encode(Message(b))
      ensures a == b
    {
      ReadsBack(Message(a), []);
      ReadsBack(Message(b), []);
      ReadsBack(Sequence(a), []);
      ReadsBack(Sequence(b), []);
      EncodedAreFields(a.fields);
      EncodedAreFields(b.fields);
    }
  }
}
