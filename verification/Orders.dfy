/** Orderings, and what makes a comparison one: it flips with its arguments and chains. */
module Orders {

  datatype Ordering = Less | Equal | Greater

  function Flip(o: Ordering): Ordering {
    match o
    case Less => Greater
    case Equal => Equal
    case Greater => Less
  }

  /** The second ordering, where the first is a tie. */
  function Then(first: Ordering, second: Ordering): Ordering {
    if first == Equal then second else first
  }

  /** What `a` against `b` and `b` against `c` say about `a` against `c` in a total preorder. */
  predicate Chain(ab: Ordering, bc: Ordering, ac: Ordering) {
    && (ab == Equal ==> ac == bc)
    && (bc == Equal ==> ac == ab)
    && (ab == bc ==> ac == ab)
  }

  /** Breaking ties by a second comparison keeps a first that chains chaining. */
  lemma ThenChains(ab: Ordering, bc: Ordering, ac: Ordering, ab': Ordering, bc': Ordering, ac': Ordering)
    requires Chain(ab, bc, ac)
    requires ab == Equal && bc == Equal ==> Chain(ab', bc', ac')
    ensures Chain(Then(ab, ab'), Then(bc, bc'), Then(ac, ac'))
  {
  }

  function CompareInts(a: int, b: int): Ordering {
    if a < b then Less else if a == b then Equal else Greater
  }

  /** Lexicographic order of text, as the library orders strings. */
  function CompareText(a: string, b: string): Ordering {
    if a == [] || b == [] then CompareInts(|a|, |b|)
    else Then(CompareInts(a[0] as int, b[0] as int), CompareText(a[1..], b[1..]))
  }

  lemma {:induction false} TextFlips(a: string, b: string)
    ensures CompareText(b, a) == Flip(CompareText(a, b))
    ensures CompareText(a, b) == Equal <==> a == b
  {
    if a != [] && b != [] {
      TextFlips(a[1..], b[1..]);
      assert a == [a[0]] + a[1..] && b == [b[0]] + b[1..];
    }
  }

  lemma {:induction false} TextChains(a: string, b: string, c: string)
    ensures Chain(CompareText(a, b), CompareText(b, c), CompareText(a, c))
  {
    if a != [] && b != [] && c != [] {
      TextChains(a[1..], b[1..], c[1..]);
      ThenChains(
        CompareInts(a[0] as int, b[0] as int), CompareInts(b[0] as int, c[0] as int),
        CompareInts(a[0] as int, c[0] as int),
        CompareText(a[1..], b[1..]), CompareText(b[1..], c[1..]), CompareText(a[1..], c[1..]));
    }
  }

  /** Texts of one length compare by their fronts and then by their last characters. */
  lemma {:induction false} TextByTheLast(a: string, b: string)
    requires |a| == |b| > 0
    ensures var n := |a| - 1;
      CompareText(a, b) == Then(CompareText(a[..n], b[..n]), CompareInts(a[n] as int, b[n] as int))
  {
    var n := |a| - 1;
    if n > 0 {
      TextByTheLast(a[1..], b[1..]);
      assert a[1..][..n - 1] == a[..n][1..] && b[1..][..n - 1] == b[..n][1..];
    } else {
      assert a[..n] == [] && b[..n] == [] && a[1..] == [] && b[1..] == [];
    }
  }
}
