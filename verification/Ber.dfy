/**
 * The BER walk over a probe's payload, against the grammar it is meant to accept: the
 * short-form encodings of tag trees (ITU-T X.690, section 8.1).
 */
module Ber {
  import opened Wrappers
  import opened Octets

  /** SEQUENCE, and the tags with both bits of 0xa0, hold elements of their own. */
  predicate IsConstructed(tag: Byte) {
    tag == 0x30 || (tag >= 0x80 && tag / 0x20 % 2 == 1)
  }

  // ---------- the walk ----------

  /** A sequence, and what of the context's and the private classes is marked constructed. */
  lemma ConstructedTags(tag: Byte)
    ensures IsConstructed(tag) <==> tag == 0x30 || 0xA0 <= tag < 0xC0 || 0xE0 <= tag
  {
  }

  /** How many bytes the element at the start of `bytes` occupies, or [None] where it does not hold. */
  function Walk(bytes: seq<Byte>): (n: Option<nat>)
    ensures n.Some? ==> 2 <= n.value <= |bytes|
    decreases |bytes|, 0
  {
    if |bytes| < 2 || bytes[1] >= 0x80 || 2 + bytes[1] as int > |bytes| then None
    else if IsConstructed(bytes[0]) && !Tiles(bytes[2..2 + bytes[1] as int]) then None
    else Some(2 + bytes[1] as int)
  }

  /** Whether `body` is elements one after another, to its last byte. */
  predicate Tiles(body: seq<Byte>)
    decreases |body|, 1
  {
    body == [] || (Walk(body).Some? && Tiles(body[Walk(body).value..]))
  }

  predicate Accepts(payload: seq<Byte>) {
    Walk(payload) == Some(|payload|)
  }

  method WalkElement(bytes: seq<Byte>) returns (n: Option<nat>)
    ensures n == Walk(bytes)
    decreases |bytes|
  {
    if |bytes| < 2 || bytes[1] >= 0x80 || 2 + bytes[1] as int > |bytes| {
      return None;
    }
    var body := bytes[2..2 + bytes[1] as int];
    if IsConstructed(bytes[0]) {
      var consumed := 0;
      while consumed < |body|
        invariant consumed <= |body| && Tiles(body[consumed..]) == Tiles(body)
      {
        var inner := WalkElement(body[consumed..]);
        if inner.None? {
          return None;
        }
        assert body[consumed..][inner.value..] == body[consumed + inner.value..];
        consumed := consumed + inner.value;
      }
    }
    return Some(2 + |body|);
  }

  method ValidateBer(payload: seq<Byte>) returns (ok: bool)
    ensures ok == Accepts(payload)
  {
    var consumed := WalkElement(payload);
    ok := consumed == Some(|payload|);
  }

  // ---------- the grammar ----------

  datatype Tree =
    | Primitive(tag: Byte, content: seq<Byte>)
    | Constructed(tag: Byte, children: seq<Tree>)

  /** Tag, length and body. The length is one octet, which a well-formed tree's body fits. */
  function Encode(tree: Tree): seq<Byte>
    decreases tree, 1
  {
    [tree.tag, |Body(tree)| % 256] + Body(tree)
  }

  function Body(tree: Tree): seq<Byte>
    decreases tree, 0
  {
    match tree
    case Primitive(_, content) => content
    case Constructed(_, children) => EncodeAll(children)
  }

  function EncodeAll(trees: seq<Tree>): seq<Byte>
    decreases trees
  {
    if trees == [] then [] else Encode(trees[0]) + EncodeAll(trees[1..])
  }

  /** A tree's tags say which of its nodes have children, and every body has a short-form length. */
  predicate WellFormed(tree: Tree)
    decreases tree
  {
    && (tree.Constructed? <==> IsConstructed(tree.tag))
    && |Body(tree)| < 0x80
    && (tree.Constructed? ==> AllWellFormed(tree.children))
  }

  predicate AllWellFormed(trees: seq<Tree>)
    decreases trees
  {
    trees == [] || (WellFormed(trees[0]) && AllWellFormed(trees[1..]))
  }

  // ---------- one direction: every encoding is accepted ----------

  lemma {:induction false} EncodingWalks(tree: Tree, rest: seq<Byte>)
    requires WellFormed(tree)
    ensures Walk(Encode(tree) + rest) == Some(|Encode(tree)|)
    decreases tree
  {
    var (bytes, body) := (Encode(tree) + rest, Body(tree));
    assert bytes[1] == |body| && bytes[2..2 + |body|] == body;
    if tree.Constructed? {
      EncodingsTile(tree.children);
    }
  }

  lemma {:induction false} EncodingsTile(trees: seq<Tree>)
    requires AllWellFormed(trees)
    ensures Tiles(EncodeAll(trees))
    decreases trees
  {
    if trees != [] {
      EncodingWalks(trees[0], EncodeAll(trees[1..]));
      EncodingsTile(trees[1..]);
      var (first, rest) := (Encode(trees[0]), EncodeAll(trees[1..]));
      assert (first + rest)[|first|..] == rest;
    }
  }

  // ---------- the other: everything accepted is an encoding ----------

  lemma {:induction false} WalkedIsEncoded(bytes: seq<Byte>) returns (tree: Tree)
    requires Walk(bytes).Some?
    ensures WellFormed(tree) && Encode(tree) == bytes[..Walk(bytes).value]
    decreases |bytes|, 0
  {
    var n := Walk(bytes).value;
    var body := bytes[2..n];
    if IsConstructed(bytes[0]) {
      var children := TiledIsEncoded(body);
      tree := Constructed(bytes[0], children);
    } else {
      tree := Primitive(bytes[0], body);
    }
    assert Body(tree) == body;
    assert bytes[..n] == [bytes[0], bytes[1]] + body;
  }

  lemma {:induction false} TiledIsEncoded(body: seq<Byte>) returns (trees: seq<Tree>)
    requires Tiles(body)
    ensures AllWellFormed(trees) && EncodeAll(trees) == body
    decreases |body|, 1
  {
    if body == [] {
      trees := [];
    } else {
      var n := Walk(body).value;
      var first := WalkedIsEncoded(body);
      var rest := TiledIsEncoded(body[n..]);
      trees := [first] + rest;
      assert trees[1..] == rest && body == body[..n] + body[n..];
    }
  }

  // ---------- and it encodes one tree only ----------

  lemma {:induction false} PrefixFree(a: Tree, r: seq<Byte>, b: Tree, s: seq<Byte>)
    requires WellFormed(a) && WellFormed(b) && Encode(a) + r == Encode(b) + s
    ensures a == b && r == s
    decreases a
  {
    var (x, y) := (Encode(a) + r, Encode(b) + s);
    assert x[0] == a.tag && y[0] == b.tag && x[1] == |Body(a)| && y[1] == |Body(b)|;
    var n := |Body(a)|;
    assert x[2..2 + n] == Body(a) && y[2..2 + n] == Body(b);
    assert x[2 + n..] == r && y[2 + n..] == s;
    if a.Constructed? {
      OneTiling(a.children, b.children);
    }
  }

  lemma {:induction false} OneTiling(ones: seq<Tree>, others: seq<Tree>)
    requires AllWellFormed(ones) && AllWellFormed(others) && EncodeAll(ones) == EncodeAll(others)
    ensures ones == others
    decreases ones
  {
    if ones != [] && others != [] {
      PrefixFree(ones[0], EncodeAll(ones[1..]), others[0], EncodeAll(others[1..]));
      OneTiling(ones[1..], others[1..]);
      assert ones == [ones[0]] + ones[1..] && others == [others[0]] + others[1..];
    }
  }

  /** A payload is accepted exactly where it encodes a well-formed tree, and no two trees share one. */
  lemma AcceptedExactlyTheEncodings(payload: seq<Byte>)
    ensures Accepts(payload) <==> exists tree :: WellFormed(tree) && Encode(tree) == payload
    ensures forall a, b | WellFormed(a) && WellFormed(b) && Encode(a) == payload && Encode(b) == payload :: a == b
  {
    if Accepts(payload) {
      var tree := WalkedIsEncoded(payload);
      assert payload[..|payload|] == payload;
    }
    forall tree | WellFormed(tree) && Encode(tree) == payload
      ensures Accepts(payload)
    {
      EncodingWalks(tree, []);
      assert payload + [] == payload;
    }
    forall a, b | WellFormed(a) && WellFormed(b) && Encode(a) == payload && Encode(b) == payload
      ensures a == b
    {
      PrefixFree(a, [], b, []);
    }
  }
}
