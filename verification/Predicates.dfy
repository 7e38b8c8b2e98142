/**
 * The small language an entry states its affected versions in: comma-joined clauses of an
 * operator and a bound, all of which must hold, or `*` for any version.
 */
module Predicates {
  import opened Orders
  import opened Texts
  import Versions
  import opened VersionOrder

  datatype Op = AtMost | AtLeast | Exactly | Below | Above | Is | Bare

  function Symbol(op: Op): string {
    match op
    case AtMost => "<="
    case AtLeast => ">="
    case Exactly => "=="
    case Below => "<"
    case Above => ">"
    case Is => "="
    case Bare => ""
  }

  /** The operators in the order they are looked for; a clause with none is an exact match. */
  function OpOf(clause: string): (op: Op)
    ensures Symbol(op) <= clause
  {
    if "<=" <= clause then AtMost
    else if ">=" <= clause then AtLeast
    else if "==" <= clause then Exactly
    else if "<" <= clause then Below
    else if ">" <= clause then Above
    else if "=" <= clause then Is
    else Bare
  }

  /** What an operator and a bound say of a version. */
  predicate Holds(op: Op, version: string, bound: string) {
    var order := Versions.Compare(version, bound);
    match op
    case Below => order == Less
    case AtMost => order != Greater
    case Above => order == Greater
    case AtLeast => order != Less
    case Exactly => order == Equal
    case Is => order == Equal
    case Bare => order == Equal
  }

  predicate ClauseHolds(version: string, clause: string) {
    var op := OpOf(clause);
    Holds(op, version, if op.Bare? then clause else Trim(clause[|Symbol(op)|..]))
  }

  /** A version nobody read: absent, not applicable or any. */
  predicate Unlearned(version: string) {
    version == "" || version == "-" || version == "*"
  }

  predicate Matches(version: string, predicate': string) {
    var text := Trim(predicate');
    text == "*" ||
    (!Unlearned(version) && forall clause <- Split(text, ',') :: ClauseHolds(version, Trim(clause)))
  }

  // ---------- what a printed predicate means ----------

  /** A clause as written: white space, an operator, and a bound with what space it likes about it. */
  datatype Clause = Clause(pad: string, op: Op, rest: string)

  /** No comma, and nothing the operator would be misread with. */
  predicate Written(c: Clause) {
    && AllWhite(c.pad) && ',' !in c.rest
    && (c.op.Below? || c.op.Above? || c.op.Is? ==> c.rest == [] || c.rest[0] != '=')
    && (c.op.Bare? ==> c.rest != [] && !IsWhitespace(c.rest[0]) && c.rest[0] !in {'<', '>', '=', '*'})
  }

  function Print(c: Clause): string {
    c.pad + Symbol(c.op) + c.rest
  }

  function Bound(c: Clause): string {
    Trim(c.rest)
  }

  lemma SymbolsAreSolid(op: Op)
    requires !op.Bare?
    ensures Symbol(op) != [] && !IsWhitespace(Symbol(op)[0]) && !IsWhitespace(Symbol(op)[|Symbol(op)| - 1])
  {
  }

  /** Trimmed, a clause is its operator and what is left of the rest. */
  lemma TrimmedClause(c: Clause)
    requires Written(c)
    ensures Trim(Print(c)) == Symbol(c.op) + TrimEnd(c.rest)
  {
    hide IsWhitespace;
    var core := Symbol(c.op) + c.rest;
    assert Print(c) == c.pad + core;
    if c.op.Bare? {
      assert core == c.rest;
      TrimStartOf(c.pad, core);
      assert [] + TrimEnd(c.rest) == TrimEnd(c.rest);
    } else {
      SymbolsAreSolid(c.op);
      assert core[0] == Symbol(c.op)[0];
      TrimStartOf(c.pad, core);
      TrimEndOf(Symbol(c.op), c.rest);
    }
  }

  lemma TheOperatorIsRead(op: Op, rest: string)
    requires op.Below? || op.Above? || op.Is? ==> rest == [] || rest[0] != '='
    requires op.Bare? ==> rest != [] && rest[0] !in {'<', '>', '=', '*'}
    ensures OpOf(Symbol(op) + rest) == op
  {
    var text := Symbol(op) + rest;
    assert rest != [] ==> text[|Symbol(op)|] == rest[0];
    match op {
      case AtMost => assert text[0] == '<' && text[1] == '=';
      case AtLeast => assert text[0] == '>' && text[1] == '=';
      case Exactly => assert text[0] == '=' && text[1] == '=';
      case Below => assert text[0] == '<' && (|text| > 1 ==> text[1] != '=');
      case Above => assert text[0] == '>' && (|text| > 1 ==> text[1] != '=');
      case Is => assert text[0] == '=' && (|text| > 1 ==> text[1] != '=');
      case Bare => assert text[0] == rest[0];
    }
  }

  /** One clause means what it says. */
  lemma ClauseMeans(version: string, c: Clause)
    requires Written(c)
    ensures ClauseHolds(version, Trim(Print(c))) == Holds(c.op, version, Bound(c))
  {
    hide Holds, IsWhitespace, Trim;
    TrimmedClause(c);
    var rest := TrimEnd(c.rest);
    assert rest != [] ==> rest[0] == c.rest[0];
    if c.op.Bare? {
      TrimEndTwice(c.rest);
      BareBound(c);
    }
    TheOperatorIsRead(c.op, rest);
    assert (Symbol(c.op) + rest)[|Symbol(c.op)|..] == rest;
    TrimAfterTrimEnd(c.rest);
  }

  lemma BareBound(c: Clause)
    requires Written(c) && c.op.Bare?
    ensures Bound(c) == TrimEnd(c.rest) == [] + TrimEnd(c.rest)
  {
    TrimStartOf([], c.rest);
    hide IsWhitespace, TrimStart, TrimEnd;
    assert [] + c.rest == c.rest;
    assert [] + TrimEnd(c.rest) == TrimEnd(c.rest);
  }

  ghost predicate AllHold(version: string, clauses: seq<Clause>) {
    forall c <- clauses :: Holds(c.op, version, Bound(c))
  }

  function PrintAll(clauses: seq<Clause>): seq<string> {
    seq(|clauses|, i requires 0 <= i < |clauses| => Print(clauses[i]))
  }

  /** The clauses with the space about the whole text gone, which changes no bound. */
  function Tidied(clauses: seq<Clause>): (tidied: seq<Clause>)
    requires clauses != []
    ensures |tidied| == |clauses|
  {
    var bare := clauses[0 := clauses[0].(pad := [])];
    var last := |clauses| - 1;
    bare[last := bare[last].(rest := TrimEnd(bare[last].rest))]
  }

  ghost predicate AllWritten(clauses: seq<Clause>) {
    forall c <- clauses :: Written(c)
  }

  lemma TidiedIsWritten(c: Clause)
    requires Written(c)
    ensures var t := c.(rest := TrimEnd(c.rest));
      Written(t) && Written(c.(pad := [])) && Bound(t) == Bound(c)
  {
    TrimAfterTrimEnd(c.rest);
    TrimEndTwice(c.rest);
    hide IsWhitespace, Trim;
    assert TrimEnd(c.rest) != [] ==> TrimEnd(c.rest)[0] == c.rest[0];
  }

  /** A written clause starts, past its padding, in a character that is neither space nor a star. */
  lemma FirstCharacter(c: Clause)
    requires Written(c)
    ensures var core := Symbol(c.op) + c.rest;
      core != [] && !IsWhitespace(core[0]) && core[0] != '*'
  {
    if !c.op.Bare? {
      SymbolsAreSolid(c.op);
    } else {
      assert Symbol(c.op) + c.rest == c.rest;
    }
  }

  lemma LastClauseTrims(front: string, c: Clause)
    requires Written(c)
    ensures TrimEnd(front + Print(c)) == front + Print(c.(rest := TrimEnd(c.rest)))
  {
    var head := front + c.pad + Symbol(c.op);
    assert front + Print(c) == head + c.rest;
    assert front + Print(c.(rest := TrimEnd(c.rest))) == head + TrimEnd(c.rest);
    if c.op.Bare? {
      EndOfTheRest(head, c.rest);
    } else {
      SymbolsAreSolid(c.op);
      assert head[|head| - 1] == Symbol(c.op)[|Symbol(c.op)| - 1];
      TrimEndOf(head, c.rest);
    }
  }

  /** The end of a joined text is the end of its last part. */
  lemma {:induction false} JoinedTrims(clauses: seq<Clause>, front: string)
    requires clauses != [] && AllWritten(clauses)
    ensures var last := |clauses| - 1;
      TrimEnd(front + Join(PrintAll(clauses), ','))
      == front + Join(PrintAll(clauses[last := clauses[last].(rest := TrimEnd(clauses[last].rest))]), ',')
    decreases |clauses|
  {
    hide Print, TrimEnd, Written;
    var last := |clauses| - 1;
    var tidied := clauses[last := clauses[last].(rest := TrimEnd(clauses[last].rest))];
    assert clauses[last] in clauses && clauses[0] in clauses;
    if last == 0 {
      LastClauseTrims(front, clauses[0]);
    } else {
      var first := Print(clauses[0]);
      assert PrintAll(clauses)[1..] == PrintAll(clauses[1..]) && PrintAll(tidied)[1..] == PrintAll(tidied[1..]);
      assert tidied[1..] == clauses[1..][last - 1 := clauses[last].(rest := TrimEnd(clauses[last].rest))];
      JoinedTrims(clauses[1..], front + first + [',']);
      var (rest, left) := (Join(PrintAll(clauses[1..]), ','), Join(PrintAll(tidied[1..]), ','));
      assert front + (first + [','] + rest) == front + first + [','] + rest;
      assert front + (first + [','] + left) == front + first + [','] + left;
    }
  }

  /** The start of a joined text is the start of its first part. */
  lemma JoinedStarts(clauses: seq<Clause>)
    requires clauses != [] && AllWritten(clauses)
    ensures var text := Join(PrintAll(clauses[0 := clauses[0].(pad := [])]), ',');
      && TrimStart(Join(PrintAll(clauses), ','), IsWhitespace) == text
      && text != [] && text[0] != '*'
  {
    hide Written, IsWhitespace, TrimStart, Symbol;
    var c := clauses[0];
    assert c in clauses;
    FirstCharacter(c);
    var bare := clauses[0 := c.(pad := [])];
    PadsTheFront(clauses);
    PadIsWhite(c);
    TrimStartOf(c.pad, Join(PrintAll(bare), ','));
  }

  lemma PadsTheFront(clauses: seq<Clause>)
    requires clauses != []
    ensures var (c, text) := (clauses[0], Join(PrintAll(clauses[0 := clauses[0].(pad := [])]), ','));
      && Join(PrintAll(clauses), ',') == c.pad + text
      && (Symbol(c.op) + c.rest != [] ==> text != [] && text[0] == (Symbol(c.op) + c.rest)[0])
  {
    hide Symbol;
    var c := clauses[0];
    var bare := clauses[0 := c.(pad := [])];
    assert Print(bare[0]) == Symbol(c.op) + c.rest;
    assert Print(c) == c.pad + Print(bare[0]);
    assert PrintAll(clauses)[1..] == PrintAll(bare)[1..];
    hide Print;
    if |clauses| > 1 {
      var rest := [','] + Join(PrintAll(clauses)[1..], ',');
      assert Join(PrintAll(clauses), ',') == c.pad + Print(bare[0]) + rest == c.pad + (Print(bare[0]) + rest);
    }
  }

  lemma PadIsWhite(c: Clause)
    requires Written(c)
    ensures AllWhite(c.pad)
  {
  }

  lemma TidyingIsTrimming(clauses: seq<Clause>)
    requires clauses != [] && AllWritten(clauses)
    ensures Trim(Join(PrintAll(clauses), ',')) == Join(PrintAll(Tidied(clauses)), ',')
    ensures AllWritten(Tidied(clauses))
    ensures forall i | 0 <= i < |clauses| ::
      Tidied(clauses)[i].op == clauses[i].op && Bound(Tidied(clauses)[i]) == Bound(clauses[i])
  {
    hide Written, IsWhitespace, TrimEnd, TrimStart, Bound, Print, Join;
    var last := |clauses| - 1;
    assert clauses[0] in clauses && clauses[last] in clauses;
    TidiedIsWritten(clauses[0]);
    var bare := clauses[0 := clauses[0].(pad := [])];
    forall c <- bare
      ensures Written(c)
    {
    }
    TidiedIsWritten(bare[last]);
    TidiedIsWritten(clauses[last]);
    BoundIgnoresPadding(clauses[0]);
    JoinedStarts(clauses);
    JoinedTrims(bare, []);
    assert [] + Join(PrintAll(bare), ',') == Join(PrintAll(bare), ',');
    assert [] + Join(PrintAll(Tidied(clauses)), ',') == Join(PrintAll(Tidied(clauses)), ',');
  }

  lemma BoundIgnoresPadding(c: Clause)
    ensures Bound(c.(pad := [])) == Bound(c)
  {
  }

  lemma NoCommas(clauses: seq<Clause>)
    requires AllWritten(clauses)
    ensures forall text <- PrintAll(clauses) :: ',' !in text
  {
    forall i | 0 <= i < |clauses|
      ensures ',' !in Print(clauses[i])
    {
      var c := clauses[i];
      assert Written(c);
    }
  }

  /** The clauses read are the clauses meant, one by one. */
  lemma EachMeans(version: string, tidied: seq<Clause>, clauses: seq<Clause>)
    requires |tidied| == |clauses| && AllWritten(tidied)
    requires forall i | 0 <= i < |clauses| :: tidied[i].op == clauses[i].op && Bound(tidied[i]) == Bound(clauses[i])
    ensures (forall text <- PrintAll(tidied) :: ClauseHolds(version, Trim(text))) <==> AllHold(version, clauses)
  {
    hide Trim, Print, ClauseHolds, Holds, Bound, Written;
    forall i | 0 <= i < |clauses|
      ensures ClauseHolds(version, Trim(PrintAll(tidied)[i])) == Holds(clauses[i].op, version, Bound(clauses[i]))
    {
      assert tidied[i] in tidied;
      ClauseMeans(version, tidied[i]);
    }
    if forall text <- PrintAll(tidied) :: ClauseHolds(version, Trim(text)) {
      forall c <- clauses
        ensures Holds(c.op, version, Bound(c))
      {
        var i :| 0 <= i < |clauses| && clauses[i] == c;
        assert PrintAll(tidied)[i] in PrintAll(tidied);
      }
    }
    if AllHold(version, clauses) {
      forall text <- PrintAll(tidied)
        ensures ClauseHolds(version, Trim(text))
      {
        var i :| 0 <= i < |tidied| && PrintAll(tidied)[i] == text;
        assert clauses[i] in clauses;
      }
    }
  }

  /** A printed predicate is the conjunction of its clauses under the version order. */
  lemma APredicateMeansItsClauses(version: string, clauses: seq<Clause>)
    requires clauses != [] && AllWritten(clauses)
    ensures Matches(version, Join(PrintAll(clauses), ',')) <==> !Unlearned(version) && AllHold(version, clauses)
  {
    hide Trim, Join, Print, ClauseHolds, Holds, Bound, Written, Tidied, Split, PrintAll, AllHold, AllWritten, Unlearned;
    TidyingIsTrimming(clauses);
    NotAStar(clauses);
    NoCommas(Tidied(clauses));
    PrintAllLength(Tidied(clauses));
    SplitUndoesJoin(PrintAll(Tidied(clauses)), ',');
    EachMeans(version, Tidied(clauses), clauses);
  }

  lemma PrintAllLength(clauses: seq<Clause>)
    ensures |PrintAll(clauses)| == |clauses|
  {
  }

  lemma NotAStar(clauses: seq<Clause>)
    requires clauses != [] && AllWritten(clauses)
    ensures Trim(Join(PrintAll(clauses), ',')) != "*"
  {
    JoinedStarts(clauses);
    hide TrimStart, TrimEnd, IsWhitespace, Written, Join, Print;
  }

  /** A version nobody read satisfies only the predicate that asks nothing. */
  lemma UnlearnedSatisfiesOnlyAny(version: string, text: string)
    requires version == "" || version == "-" || version == "*"
    ensures Matches(version, text) <==> Trim(text) == "*"
  {
  }

  lemma OneClause(version: string, c: Clause)
    requires Written(c) && version != "" && version != "-" && version != "*"
    ensures Matches(version, c.pad + Symbol(c.op) + c.rest) <==> Holds(c.op, version, Trim(c.rest))
  {
    hide Matches, Holds, Written, Trim;
    APredicateMeansItsClauses(version, [c]);
    assert PrintAll([c]) == [Print(c)];
    assert c in [c];
  }

  /**
   * Where a read version stands to the bound decides a clause, and each operator accepts its own
   * standings: below, not above, above, not below, and level for the two equals signs and for none.
   */
  lemma WhatEachOperatorAccepts(version: string, pad: string, rest: string)
    requires version != "" && version != "-" && version != "*"
    requires AllWhite(pad) && ',' !in rest
    ensures var order := Versions.Compare(version, Trim(rest));
      && (Matches(version, pad + "<=" + rest) <==> order != Greater)
      && (Matches(version, pad + ">=" + rest) <==> order != Less)
      && (Matches(version, pad + "==" + rest) <==> order == Equal)
    ensures rest == [] || rest[0] != '=' ==>
      var order := Versions.Compare(version, Trim(rest));
      && (Matches(version, pad + "<" + rest) <==> order == Less)
      && (Matches(version, pad + ">" + rest) <==> order == Greater)
      && (Matches(version, pad + "=" + rest) <==> order == Equal)
    ensures rest != [] && !IsWhitespace(rest[0]) && rest[0] !in {'<', '>', '=', '*'} ==>
      (Matches(version, pad + rest) <==> Versions.Compare(version, Trim(rest)) == Equal)
  {
    hide Matches, IsWhitespace, Trim, Versions.Compare;
    OneClause(version, Clause(pad, AtMost, rest));
    OneClause(version, Clause(pad, AtLeast, rest));
    OneClause(version, Clause(pad, Exactly, rest));
    if rest == [] || rest[0] != '=' {
      OneClause(version, Clause(pad, Below, rest));
      OneClause(version, Clause(pad, Above, rest));
      OneClause(version, Clause(pad, Is, rest));
    }
    if rest != [] && !IsWhitespace(rest[0]) && rest[0] !in {'<', '>', '=', '*'} {
      OneClause(version, Clause(pad, Bare, rest));
      assert pad + "" == pad;
    }
  }

  /** Clauses joined by commas hold where each holds alone, of any version, read or not. */
  lemma APredicateIsItsClauses(version: string, clauses: seq<Clause>)
    requires clauses != [] && AllWritten(clauses)
    ensures Matches(version, Join(PrintAll(clauses), ',')) <==> forall c <- clauses :: Matches(version, Print(c))
  {
    hide Matches, Holds, Bound, Written, Print, Unlearned;
    APredicateMeansItsClauses(version, clauses);
    forall c <- clauses
      ensures Matches(version, Print(c)) <==> !Unlearned(version) && Holds(c.op, version, Bound(c))
    {
      APredicateMeansItsClauses(version, [c]);
      assert PrintAll([c]) == [Print(c)] && c in [c];
    }
    assert clauses[0] in clauses;
  }

  /** The order clauses are written in does not matter, and another clause only narrows. */
  lemma ClausesOnlyNarrow(version: string, clauses: seq<Clause>, others: seq<Clause>)
    requires clauses != [] && others != [] && AllWritten(clauses) && AllWritten(others)
    ensures (forall c <- others :: c in clauses) && Matches(version, Join(PrintAll(clauses), ','))
      ==> Matches(version, Join(PrintAll(others), ','))
    ensures multiset(clauses) == multiset(others) ==>
      Matches(version, Join(PrintAll(clauses), ',')) == Matches(version, Join(PrintAll(others), ','))
  {
    hide Matches, Holds, Bound;
    APredicateMeansItsClauses(version, clauses);
    APredicateMeansItsClauses(version, others);
    if multiset(clauses) == multiset(others) {
      assert forall c :: c in clauses <==> c in multiset(clauses);
      assert forall c :: c in others <==> c in multiset(others);
    }
  }

  // ---------- ranges ----------

  /** On the versions the order can be trusted with, `<` and `<=` are closed downward, `>` and `>=` upward. */
  lemma ABoundReachesAllTheWay(rest: string, low: string, high: string)
    requires ',' !in rest && (rest == [] || rest[0] != '=') && Tame(Trim(rest)) && Tame(low) && Tame(high)
    requires low != "" && low != "-" && low != "*" && high != "" && high != "-" && high != "*"
    requires Versions.Compare(low, high) != Greater
    ensures Matches(high, "<" + rest) ==> Matches(low, "<" + rest)
    ensures Matches(high, "<=" + rest) ==> Matches(low, "<=" + rest)
    ensures Matches(low, ">" + rest) ==> Matches(high, ">" + rest)
    ensures Matches(low, ">=" + rest) ==> Matches(high, ">=" + rest)
  {
    hide Matches, Tame, Versions.Compare, Trim, IsWhitespace;
    WhatEachOperatorAccepts(low, [], rest);
    WhatEachOperatorAccepts(high, [], rest);
    assert [] + "<" == "<" && [] + "<=" == "<=" && [] + ">" == ">" && [] + ">=" == ">=";
    TameVersionsChain(low, high, Trim(rest));
  }

  lemma OneClauseIsConvex(op: Op, bound: string, low: string, middle: string, high: string)
    requires Tame(bound) && Tame(low) && Tame(middle) && Tame(high)
    requires Versions.Compare(low, middle) != Greater && Versions.Compare(middle, high) != Greater
    requires Holds(op, low, bound) && Holds(op, high, bound)
    ensures Holds(op, middle, bound)
  {
    hide Tame, Versions.Compare;
    TameVersionsChain(low, middle, bound);
    TameVersionsChain(middle, high, bound);
  }

  /**
   * On the versions the order can be trusted with, a predicate covers a range: whatever lies
   * between two versions it covers is covered too.
   */
  lemma APredicateIsARange(clauses: seq<Clause>, low: string, middle: string, high: string)
    requires clauses != [] && AllWritten(clauses) && (forall c <- clauses :: Tame(Bound(c)))
    requires Tame(low) && Tame(middle) && Tame(high) && !Unlearned(middle)
    ensures var text := Join(PrintAll(clauses), ',');
      && Versions.Compare(low, middle) != Greater && Versions.Compare(middle, high) != Greater
      && Matches(low, text) && Matches(high, text)
      ==> Matches(middle, text)
  {
    hide Matches, Tame, Versions.Compare, Bound, Holds, Written, Unlearned;
    APredicateMeansItsClauses(low, clauses);
    APredicateMeansItsClauses(middle, clauses);
    APredicateMeansItsClauses(high, clauses);
    if Versions.Compare(low, middle) != Greater && Versions.Compare(middle, high) != Greater
       && AllHold(low, clauses) && AllHold(high, clauses) {
      forall c <- clauses
        ensures Holds(c.op, middle, Bound(c))
      {
        OneClauseIsConvex(c.op, Bound(c), low, middle, high);
      }
    }
  }
}
