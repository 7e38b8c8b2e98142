/**
 * The string pool a catalogue is held in: every distinct string once, and entries that index
 * into it. The runtime's interner and the build script's are this one.
 */
module Interning {
  import opened Wrappers

  /** Indices are 32-bit, so the position of a string past them wraps. */
  const LIMIT: nat := 0x1_0000_0000
  type Index = i: int | 0 <= i < 0x1_0000_0000

  /** One known vulnerability as a document states it. */
  datatype DocumentEntry = DocumentEntry(
    cve: string, title: string, severity: string, vendor: string, product: string, affected: string,
    cwe: Option<nat>, remediation: Option<string>)

  /** The same, as indices into the pool. */
  datatype Entry = Entry(
    cve: Index, title: Index, severity: Index, vendor: Index, product: Index, affected: Index,
    cwe: Option<nat>, remediation: Option<Index>)

  predicate Distinct(pool: seq<string>) {
    forall i, j | 0 <= i < j < |pool| :: pool[i] != pool[j]
  }

  function PositionOf(pool: seq<string>, value: string): (i: nat)
    requires value in pool
    ensures i < |pool| && pool[i] == value
  {
    if pool[0] == value then 0 else 1 + PositionOf(pool[1..], value)
  }

  function IndexOf(pool: seq<string>, value: string): Index
    requires value in pool
  {
    PositionOf(pool, value) % LIMIT
  }

  /** The pool after `value` was interned, and after each of `values` was. */
  function Grown(pool: seq<string>, value: string): (grown: seq<string>)
    ensures value in grown && pool <= grown && (Distinct(pool) ==> Distinct(grown))
  {
    if value in pool then pool else pool + [value]
  }

  function GrownBy(pool: seq<string>, values: seq<string>): (grown: seq<string>)
    ensures pool <= grown && (Distinct(pool) ==> Distinct(grown))
    ensures forall value <- values :: value in grown
    ensures forall value <- grown :: value in pool || value in values
    decreases |values|
  {
    if values == [] then pool else GrownBy(Grown(pool, values[0]), values[1..])
  }

  /** A string keeps its position as the pool grows. */
  lemma PositionStays(pool: seq<string>, grown: seq<string>, value: string)
    requires value in pool && pool <= grown && Distinct(grown)
    ensures PositionOf(grown, value) == PositionOf(pool, value)
  {
  }

  class Interner {
    var pool: seq<string>
    var seen: map<string, Index>

    /** The pool repeats nothing, and every string in it is seen at its position. */
    ghost predicate Valid()
      reads this
    {
      && Distinct(pool)
      && (forall value :: value in seen <==> value in pool)
      && (forall value <- pool :: seen[value] == IndexOf(pool, value))
    }

    lemma PoolIsDistinct()
      requires Valid()
      ensures Distinct(pool)
    {
    }

    constructor ()
      ensures Valid() && pool == []
    {
      pool, seen := [], map[];
    }

    method Intern(value: string) returns (index: Index)
      requires Valid()
      modifies this
      ensures Valid() && pool == Grown(old(pool), value)
      ensures index == IndexOf(pool, value)
    {
      if value in seen {
        return seen[value];
      }
      index := |pool| % LIMIT;
      forall other <- pool
        ensures PositionOf(pool + [value], other) == PositionOf(pool, other)
      {
        PositionStays(pool, pool + [value], other);
      }
      pool := pool + [value];
      seen := seen[value := index];
      assert PositionOf(pool, value) == |pool| - 1;
    }

    method Maybe(value: Option<string>) returns (index: Option<Index>)
      requires Valid()
      modifies this
      ensures Valid() && pool == GrownBy(old(pool), if value.Some? then [value.value] else [])
      ensures index == if value.Some? then Some(IndexOf(pool, value.value)) else None
    {
      if value.None? {
        return None;
      }
      var i := Intern(value.value);
      return Some(i);
    }
  }

  // ---------- a whole document ----------

  /** The strings of an entry, in the order they are interned. */
  function Strings(e: DocumentEntry): seq<string> {
    [e.cve, e.title, e.severity, e.vendor, e.product, e.affected]
    + (if e.remediation.Some? then [e.remediation.value] else [])
  }

  function AllStrings(entries: seq<DocumentEntry>): seq<string> {
    if entries == [] then [] else Strings(entries[0]) + AllStrings(entries[1..])
  }

  ghost predicate Pooled(pool: seq<string>, e: DocumentEntry) {
    forall value <- Strings(e) :: value in pool
  }

  /** An entry as indices into a pool that holds its strings. */
  function Indexed(pool: seq<string>, e: DocumentEntry): Entry
    requires Pooled(pool, e)
  {
    var n := |Strings(e)|;
    assert forall i | 0 <= i < n :: Strings(e)[i] in Strings(e);
    assert Strings(e)[0] == e.cve && Strings(e)[1] == e.title && Strings(e)[2] == e.severity
      && Strings(e)[3] == e.vendor && Strings(e)[4] == e.product && Strings(e)[5] == e.affected;
    assert e.remediation.Some? ==> Strings(e)[6] == e.remediation.value;
    Entry(IndexOf(pool, e.cve), IndexOf(pool, e.title), IndexOf(pool, e.severity), IndexOf(pool, e.vendor),
          IndexOf(pool, e.product), IndexOf(pool, e.affected), e.cwe,
          if e.remediation.Some? then Some(IndexOf(pool, e.remediation.value)) else None)
  }

  lemma IndexStays(pool: seq<string>, grown: seq<string>, value: string)
    requires value in pool && pool <= grown && Distinct(grown)
    ensures IndexOf(grown, value) == IndexOf(pool, value)
  {
    PositionStays(pool, grown, value);
  }

  lemma IndexedStays(pool: seq<string>, grown: seq<string>, e: DocumentEntry)
    requires Pooled(pool, e) && pool <= grown && Distinct(grown)
    ensures Pooled(grown, e) && Indexed(grown, e) == Indexed(pool, e)
  {
    hide IndexOf, Distinct;
    forall value <- Strings(e)
      ensures value in grown && IndexOf(grown, value) == IndexOf(pool, value)
    {
      IndexStays(pool, grown, value);
    }
    TheStringsOf(e);
  }

  lemma TheStringsOf(e: DocumentEntry)
    ensures e.cve in Strings(e) && e.title in Strings(e) && e.severity in Strings(e)
    ensures e.vendor in Strings(e) && e.product in Strings(e) && e.affected in Strings(e)
    ensures e.remediation.Some? ==> e.remediation.value in Strings(e)
  {
    var s := Strings(e);
    assert s[0] == e.cve && s[1] == e.title && s[2] == e.severity;
    assert s[3] == e.vendor && s[4] == e.product && s[5] == e.affected;
    assert e.remediation.Some? ==> s[6] == e.remediation.value;
  }

  lemma {:induction false} GrownTwice(pool: seq<string>, first: seq<string>, second: seq<string>)
    ensures GrownBy(pool, first + second) == GrownBy(GrownBy(pool, first), second)
    decreases |first|
  {
    if first == [] {
      assert first + second == second;
    } else {
      assert (first + second)[1..] == first[1..] + second;
      GrownTwice(Grown(pool, first[0]), first[1..], second);
    }
  }

  lemma {:induction false} AllStringsOf(entries: seq<DocumentEntry>, more: DocumentEntry)
    ensures AllStrings(entries + [more]) == AllStrings(entries) + Strings(more)
  {
    if entries == [] {
      assert entries + [more] == [more] && [more][1..] == [];
      assert Strings(more) + [] == [] + Strings(more);
    } else {
      assert (entries + [more])[1..] == entries[1..] + [more];
      AllStringsOf(entries[1..], more);
      assert Strings(entries[0]) + (AllStrings(entries[1..]) + Strings(more))
        == Strings(entries[0]) + AllStrings(entries[1..]) + Strings(more);
    }
  }

  /** Each string has its index in `pool`. */
  ghost predicate AreIndices(pool: seq<string>, strings: seq<string>, indices: seq<Index>) {
    && |strings| == |indices|
    && forall i | 0 <= i < |strings| :: strings[i] in pool && indices[i] == IndexOf(pool, strings[i])
  }

  lemma AreIndicesStill(pool: seq<string>, grown: seq<string>, strings: seq<string>, indices: seq<Index>)
    requires AreIndices(pool, strings, indices) && pool <= grown && Distinct(grown)
    ensures AreIndices(grown, strings, indices)
  {
    hide IndexOf, Distinct;
    forall i | 0 <= i < |strings|
      ensures strings[i] in grown && indices[i] == IndexOf(grown, strings[i])
    {
      IndexStays(pool, grown, strings[i]);
    }
  }

  /** One more string interned after those before it. */
  lemma OneMore(before: seq<string>, strings: seq<string>, i: nat, was: seq<string>, pool: seq<string>,
                indices: seq<Index>, index: Index)
    requires i < |strings| && was == GrownBy(before, strings[..i]) && pool == Grown(was, strings[i])
    requires Distinct(pool) && was <= pool && strings[i] in pool && index == IndexOf(pool, strings[i])
    requires AreIndices(was, strings[..i], indices)
    ensures pool == GrownBy(before, strings[..i + 1]) && AreIndices(pool, strings[..i + 1], indices + [index])
  {
    hide IndexOf, Grown, Distinct;
    assert strings[..i + 1] == strings[..i] + [strings[i]];
    assert AreIndices(pool, strings[..i], indices) by { AreIndicesStill(was, pool, strings[..i], indices); }
    GrownTwice(before, strings[..i], [strings[i]]);
    assert GrownBy(was, [strings[i]]) == GrownBy(Grown(was, strings[i]), [strings[i]][1..]);
  }

  /** Strings interned one after another. */
  method InternEach(interner: Interner, strings: seq<string>) returns (indices: seq<Index>)
    requires interner.Valid()
    modifies interner
    ensures interner.Valid() && interner.pool == GrownBy(old(interner.pool), strings)
    ensures AreIndices(interner.pool, strings, indices)
  {
    hide Interner.Valid, IndexOf, GrownBy, Distinct, AreIndices;
    ghost var before := interner.pool;
    indices := [];
    assert strings[..0] == [];
    Nothing(before);
    for i := 0 to |strings|
      invariant interner.Valid()
      invariant interner.pool == GrownBy(before, strings[..i])
      invariant AreIndices(interner.pool, strings[..i], indices)
    {
      ghost var was := interner.pool;
      var index := interner.Intern(strings[i]);
      interner.PoolIsDistinct();
      OneMore(before, strings, i, was, interner.pool, indices, index);
      indices := indices + [index];
    }
    assert strings[..|strings|] == strings;
  }

  /** One entry's strings, and its remediation where it has one. */
  method InternEntry(interner: Interner, e: DocumentEntry) returns (entry: Entry)
    requires interner.Valid()
    modifies interner
    ensures interner.Valid() && interner.pool == GrownBy(old(interner.pool), Strings(e))
    ensures entry == Indexed(interner.pool, e)
  {
    hide Interner.Valid, IndexOf, GrownBy, Distinct;
    ghost var before := interner.pool;
    var strings := [e.cve, e.title, e.severity, e.vendor, e.product, e.affected];
    var indices := InternEach(interner, strings);
    ghost var was := interner.pool;
    var remediation := interner.Maybe(e.remediation);
    interner.PoolIsDistinct();
    AreIndicesStill(was, interner.pool, strings, indices);
    GrownTwice(before, strings, if e.remediation.Some? then [e.remediation.value] else []);
    assert forall i | 0 <= i < 6 :: indices[i] == IndexOf(interner.pool, strings[i]);
    entry := Entry(indices[0], indices[1], indices[2], indices[3], indices[4], indices[5], e.cwe, remediation);
  }

  ghost predicate AreEntries(pool: seq<string>, entries: seq<DocumentEntry>, interned: seq<Entry>) {
    && |entries| == |interned|
    && forall i | 0 <= i < |entries| :: Pooled(pool, entries[i]) && interned[i] == Indexed(pool, entries[i])
  }

  lemma AreEntriesStill(pool: seq<string>, grown: seq<string>, entries: seq<DocumentEntry>, interned: seq<Entry>)
    requires AreEntries(pool, entries, interned) && pool <= grown && Distinct(grown)
    ensures AreEntries(grown, entries, interned)
  {
    hide Indexed, Distinct, Strings;
    forall i | 0 <= i < |entries|
      ensures Pooled(grown, entries[i]) && interned[i] == Indexed(grown, entries[i])
    {
      IndexedStays(pool, grown, entries[i]);
    }
  }

  method InternAll(entries: seq<DocumentEntry>) returns (pool: seq<string>, interned: seq<Entry>)
    ensures pool == GrownBy([], AllStrings(entries)) && AreEntries(pool, entries, interned)
  {
    hide Indexed, IndexOf, GrownBy, Strings, Distinct, Interner.Valid;
    var interner := new Interner();
    interned := [];
    Nothing([]);
    for i := 0 to |entries|
      invariant fresh(interner) && interner.Valid()
      invariant interner.pool == GrownBy([], AllStrings(entries[..i]))
      invariant AreEntries(interner.pool, entries[..i], interned)
    {
      ghost var was := interner.pool;
      var entry := InternEntry(interner, entries[i]);
      interner.PoolIsDistinct();
      AreEntriesStill(was, interner.pool, entries[..i], interned);
      assert entries[..i + 1] == entries[..i] + [entries[i]];
      AllStringsOf(entries[..i], entries[i]);
      GrownTwice([], AllStrings(entries[..i]), Strings(entries[i]));
      interned := interned + [entry];
    }
    assert entries[..|entries|] == entries;
    pool := interner.pool;
  }

  lemma Nothing(pool: seq<string>)
    ensures GrownBy(pool, []) == pool && AreIndices(pool, [], [])
  {
  }

  // ---------- reading it back ----------

  predicate InRange(pool: seq<string>, e: Entry) {
    && e.cve < |pool| && e.title < |pool| && e.severity < |pool| && e.vendor < |pool|
    && e.product < |pool| && e.affected < |pool|
    && (e.remediation.Some? ==> e.remediation.value < |pool|)
  }

  /** One entry with its strings resolved. */
  function View(pool: seq<string>, e: Entry): DocumentEntry
    requires InRange(pool, e)
  {
    DocumentEntry(pool[e.cve], pool[e.title], pool[e.severity], pool[e.vendor], pool[e.product], pool[e.affected],
                  e.cwe, if e.remediation.Some? then Some(pool[e.remediation.value]) else None)
  }

  /** An interned entry can always be viewed, and views as itself where its strings have small positions. */
  lemma ViewsBack(pool: seq<string>, e: DocumentEntry)
    requires Pooled(pool, e)
    ensures InRange(pool, Indexed(pool, e))
    ensures View(pool, Indexed(pool, e)) == e <==> forall value <- Strings(e) :: pool[IndexOf(pool, value)] == value
  {
    TheStringsOf(e);
    hide IndexOf;
    forall value | value in pool
      ensures IndexOf(pool, value) < |pool|
    {
      IndexIsInRange(pool, value);
    }
    if View(pool, Indexed(pool, e)) == e {
      forall value <- Strings(e)
        ensures pool[IndexOf(pool, value)] == value
      {
      }
    }
  }

  lemma IndexIsInRange(pool: seq<string>, value: string)
    requires value in pool
    ensures IndexOf(pool, value) < |pool|
    ensures |pool| <= LIMIT ==> IndexOf(pool, value) == PositionOf(pool, value)
  {
    var i := PositionOf(pool, value);
    assert i % LIMIT <= i;
  }

  lemma {:induction false} StringsCameFromEntries(entries: seq<DocumentEntry>, value: string) returns (k: nat)
    requires value in AllStrings(entries)
    ensures k < |entries| && value in Strings(entries[k])
  {
    if value in Strings(entries[0]) {
      k := 0;
    } else {
      k := StringsCameFromEntries(entries[1..], value);
      k := k + 1;
    }
  }

  /**
   * Interning a document is lossless exactly where its distinct strings number no more than
   * the indices: one more, and the first past them is read back as another string.
   */
  lemma LosslessExactlyWithinTheIndices(entries: seq<DocumentEntry>)
    ensures var pool := GrownBy([], AllStrings(entries));
      && Distinct(pool)
      && (forall e <- entries :: Pooled(pool, e) && InRange(pool, Indexed(pool, e)))
      && ((forall e <- entries :: View(pool, Indexed(pool, e)) == e) <==> |pool| <= 0x1_0000_0000)
  {
    var pool := GrownBy([], AllStrings(entries));
    EveryEntryIsPooled(entries);
    hide IndexOf, Indexed, View, GrownBy, AllStrings, Strings;
    forall e <- entries
      ensures InRange(pool, Indexed(pool, e))
      ensures |pool| <= LIMIT ==> View(pool, Indexed(pool, e)) == e
    {
      ViewsBack(pool, e);
      if |pool| <= LIMIT {
        forall value <- Strings(e)
          ensures IndexOf(pool, value) < |pool| && pool[IndexOf(pool, value)] == value
        {
          IndexIsInRange(pool, value);
        }
      }
    }
    if |pool| > LIMIT {
      var value := pool[LIMIT];
      var k := StringsCameFromEntries(entries, value);
      ViewsBack(pool, entries[k]);
      PastTheIndices(pool);
      assert entries[k] in entries;
    }
  }

  lemma PastTheIndices(pool: seq<string>)
    requires Distinct(pool) && |pool| > LIMIT
    ensures pool[IndexOf(pool, pool[LIMIT])] != pool[LIMIT]
  {
    assert PositionOf(pool, pool[LIMIT]) == LIMIT;
  }

  lemma {:induction false} EveryEntryIsPooled(entries: seq<DocumentEntry>)
    ensures forall e <- entries :: Pooled(GrownBy([], AllStrings(entries)), e)
  {
    forall e <- entries
      ensures forall value <- Strings(e) :: value in AllStrings(entries)
    {
      StringsOfAnEntry(entries, e);
    }
  }

  lemma {:induction false} StringsOfAnEntry(entries: seq<DocumentEntry>, e: DocumentEntry)
    requires e in entries
    ensures forall value <- Strings(e) :: value in AllStrings(entries)
  {
    if e != entries[0] {
      StringsOfAnEntry(entries[1..], e);
    }
  }
}
