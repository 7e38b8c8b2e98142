/** A host's ports joined with a catalogue, writing only the ports where anything can change. */
module Correlate {
  import opened Wrappers
  import opened Records
  import opened Replacement

  /** What a port was identified as. */
  datatype Service = Service(product: Option<string>, cpes: seq<string>, build: Option<string>)

  datatype Port = Port(service: Option<Service>, findings: Findings)

  /** A port's number and its transport. */
  type Key = (nat, string)
  type Ports = map<Key, Port>
  type Services = map<Key, Option<Service>>

  /** What a catalogue draws on a port, and how many matches it withdrew. */
  datatype Judgement = Judgement(findings: seq<Finding>, withdrawn: nat)

  /** A judgement rests on the host's services, all of them, and on nothing recorded. */
  datatype Catalogue = Catalogue(id: string, judge: (Services, Key) -> Judgement)

  ghost predicate DrawsItsOwn(catalogue: Catalogue) {
    forall services, key :: Draws(catalogue.id, catalogue.judge(services, key).findings)
  }

  function ServicesOf(ports: Ports): Services {
    map key | key in ports :: ports[key].service
  }

  predicate Holds(port: Port, id: string) {
    exists claim :: claim in port.findings && DrawnBy(id, port.findings[claim])
  }

  /** A port is listed where the catalogue draws something, withdrew something, or drew something before. */
  predicate Listed(ports: Ports, catalogue: Catalogue, key: Key)
    requires key in ports
  {
    && ports[key].service.Some?
    && var judgement := catalogue.judge(ServicesOf(ports), key);
       judgement.findings != [] || Holds(ports[key], catalogue.id) || judgement.withdrawn > 0
  }

  function Judgements(ports: Ports, catalogue: Catalogue): map<Key, seq<Finding>> {
    map key | key in ports && Listed(ports, catalogue, key) :: catalogue.judge(ServicesOf(ports), key).findings
  }

  function Rewritten(port: Port, id: string, drawn: seq<Finding>): Port {
    port.(findings := Replaced(port.findings, id, drawn))
  }

  /** The ports after the listed ones were written. */
  function Correlated(ports: Ports, catalogue: Catalogue): Ports {
    var judged := Judgements(ports, catalogue);
    map key | key in ports :: if key in judged then Rewritten(ports[key], catalogue.id, judged[key]) else ports[key]
  }

  class Host {
    var ports: Ports

    constructor ()
      ensures ports == map[]
    {
      ports := map[];
    }

    /** Replaces what `id` drew on one port; nothing where the host has no such port. */
    method ReplacePortCorrelations(key: Key, id: string, drawn: seq<Finding>)
      modifies this
      ensures ports ==
        if key in old(ports) then old(ports)[key := Rewritten(old(ports)[key], id, drawn)] else old(ports)
    {
      if key in ports {
        var held := Without(ports[key].findings, id);
        ghost var before := held;
        for i := 0 to |drawn|
          invariant ports == old(ports)
          invariant AddedAll(held, drawn[i..]) == AddedAll(before, drawn)
        {
          assert drawn[i..][1..] == drawn[i + 1..];
          held := Added(held, drawn[i]);
        }
        ports := ports[key := ports[key].(findings := held)];
      }
    }

    /** Everything is judged before anything is written. */
    method Correlate(catalogue: Catalogue)
      modifies this
      ensures ports == Correlated(old(ports), catalogue)
    {
      hide Replaced, Judgements;
      var judged := Judgements(ports, catalogue);
      JudgementsAreOfPorts(ports, catalogue);
      var left := judged.Keys;
      while left != {}
        invariant left <= judged.Keys <= old(ports).Keys
        invariant ports.Keys == old(ports).Keys
        invariant forall key <- ports ::
            ports[key] ==
            if key in judged && key !in left then Rewritten(old(ports)[key], catalogue.id, judged[key])
            else old(ports)[key]
        decreases |left|
      {
        var key :| key in left;
        ReplacePortCorrelations(key, catalogue.id, judged[key]);
        left := left - {key};
      }
    }
  }

  lemma JudgementsAreOfPorts(ports: Ports, catalogue: Catalogue)
    ensures Judgements(ports, catalogue).Keys <= ports.Keys
  {
  }

  // ---------- writing the listed ports is writing every port ----------

  function DrawnOn(ports: Ports, catalogue: Catalogue, key: Key): seq<Finding>
    requires key in ports
  {
    if ports[key].service.Some? then catalogue.judge(ServicesOf(ports), key).findings else []
  }

  /** The ports after every one of them was written, listed or not. */
  function CorrelatedEverywhere(ports: Ports, catalogue: Catalogue): Ports {
    map key | key in ports :: Rewritten(ports[key], catalogue.id, DrawnOn(ports, catalogue, key))
  }

  /** A port nobody identified holds a correlation the catalogue drew when it was. */
  ghost predicate Stale(ports: Ports, id: string, key: Key) {
    key in ports && ports[key].service.None? && Holds(ports[key], id)
  }

  lemma NothingToReplace(held: Findings, id: string)
    ensures Replaced(held, id, []) == held <==> forall claim <- held :: !DrawnBy(id, held[claim])
  {
    var left := Without(held, id);
    assert Replaced(held, id, []) == left;
    if left == held {
      forall claim <- held
        ensures !DrawnBy(id, held[claim])
      {
        assert claim in left;
      }
    }
  }

  lemma OnePortEither(ports: Ports, catalogue: Catalogue, key: Key)
    requires key in ports
    ensures Correlated(ports, catalogue)[key] == CorrelatedEverywhere(ports, catalogue)[key]
      <==> !Stale(ports, catalogue.id, key)
  {
    hide Replaced;
    NothingToReplace(ports[key].findings, catalogue.id);
  }

  /** The listed ports are enough exactly where no port that lost its service still holds a correlation. */
  lemma ListedAreEnoughExactlyWhen(ports: Ports, catalogue: Catalogue)
    ensures Correlated(ports, catalogue) == CorrelatedEverywhere(ports, catalogue)
      <==> forall key :: !Stale(ports, catalogue.id, key)
  {
    var some, all := Correlated(ports, catalogue), CorrelatedEverywhere(ports, catalogue);
    assert some.Keys == ports.Keys == all.Keys;
    forall key <- ports
      ensures some[key] == all[key] <==> !Stale(ports, catalogue.id, key)
    {
      OnePortEither(ports, catalogue, key);
    }
    hide Correlated, CorrelatedEverywhere;
    assert (forall key <- ports :: some[key] == all[key]) ==> some == all;
  }

  /** A port that was correlated and lost its service keeps what was drawn, and replacing would take it. */
  lemma AStalePortIsKept(key: Key, f: Finding, catalogue: Catalogue)
    requires DrawnBy(catalogue.id, f)
    ensures var ports: Ports := map[key := Port(None, map[ClaimOf(f) := f])];
      && Stale(ports, catalogue.id, key)
      && Correlated(ports, catalogue) == ports
      && CorrelatedEverywhere(ports, catalogue) == map[key := Port(None, map[])]
  {
    hide ClaimOf;
    var held := map[ClaimOf(f) := f];
    var ports: Ports := map[key := Port(None, held)];
    assert ClaimOf(f) in held && held[ClaimOf(f)] == f;
    assert Without(held, catalogue.id) == map[];
  }

  // ---------- correlating again, and with two catalogues ----------

  ghost predicate AllKeyed(ports: Ports) {
    forall key <- ports :: Keyed(ports[key].findings)
  }

  /** Correlating writes findings and nothing else, so what is drawn next is what was drawn. */
  lemma ServicesStay(ports: Ports, catalogue: Catalogue)
    requires AllKeyed(ports) && DrawsItsOwn(catalogue)
    ensures Correlated(ports, catalogue).Keys == ports.Keys
    ensures ServicesOf(Correlated(ports, catalogue)) == ServicesOf(ports)
    ensures AllKeyed(Correlated(ports, catalogue))
  {
    var after := Correlated(ports, catalogue);
    hide Replaced, Keyed;
    forall key <- ports
      ensures Keyed(after[key].findings)
    {
      var judgement := catalogue.judge(ServicesOf(ports), key);
      assert Draws(catalogue.id, judgement.findings);
      ReplacedIsKeyed(ports[key].findings, catalogue.id, judgement.findings);
    }
  }

  /** On a port with a service, listed or not, the outcome is what replacing would make it. */
  lemma AServiceIsReplaced(ports: Ports, catalogue: Catalogue, key: Key)
    requires key in ports
    ensures Correlated(ports, catalogue)[key] ==
      if ports[key].service.Some?
      then Rewritten(ports[key], catalogue.id, catalogue.judge(ServicesOf(ports), key).findings)
      else ports[key]
  {
    hide Replaced;
    NothingToReplace(ports[key].findings, catalogue.id);
  }

  lemma OnePortAgain(ports: Ports, catalogue: Catalogue, key: Key)
    requires AllKeyed(ports) && DrawsItsOwn(catalogue) && key in ports
    requires forall claim :: !Collides(ports[key].findings, catalogue.id, DrawnOn(ports, catalogue, key), claim)
    ensures var once := Correlated(ports, catalogue);
      key in once && key in Correlated(once, catalogue) && Correlated(once, catalogue)[key] == once[key]
  {
    hide Correlated, Replaced, Collides;
    var once := Correlated(ports, catalogue);
    var drawn := catalogue.judge(ServicesOf(ports), key).findings;
    assert Draws(catalogue.id, drawn);
    ServicesStay(ports, catalogue);
    ServicesStay(once, catalogue);
    AServiceIsReplaced(ports, catalogue, key);
    AServiceIsReplaced(once, catalogue, key);
    if ports[key].service.Some? {
      assert DrawnOn(ports, catalogue, key) == drawn;
      AgainChangesNothing(ports[key].findings, catalogue.id, DrawnOn(ports, catalogue, key));
    }
  }

  /** A second correlation changes nothing where no drawn claim is one an observation holds. */
  lemma CorrelatingAgainChangesNothing(ports: Ports, catalogue: Catalogue)
    requires AllKeyed(ports) && DrawsItsOwn(catalogue)
    requires forall key <- ports, claim ::
      !Collides(ports[key].findings, catalogue.id, DrawnOn(ports, catalogue, key), claim)
    ensures Correlated(Correlated(ports, catalogue), catalogue) == Correlated(ports, catalogue)
  {
    hide Correlated, Collides, DrawnOn;
    var once := Correlated(ports, catalogue);
    var twice := Correlated(once, catalogue);
    ServicesStay(ports, catalogue);
    ServicesStay(once, catalogue);
    forall key <- ports
      ensures twice[key] == once[key]
    {
      OnePortAgain(ports, catalogue, key);
    }
    assert twice.Keys == once.Keys;
  }

  /** On every host whatever, correlating twice is settled. */
  lemma CorrelatingTwiceSettles(ports: Ports, catalogue: Catalogue)
    requires AllKeyed(ports) && DrawsItsOwn(catalogue)
    ensures var twice := Correlated(Correlated(ports, catalogue), catalogue);
      Correlated(twice, catalogue) == twice
  {
    var once := Correlated(ports, catalogue);
    ServicesStay(ports, catalogue);
    hide Replaced;
    forall key <- once, claim
      ensures !Collides(once[key].findings, catalogue.id, DrawnOn(once, catalogue, key), claim)
    {
      var drawn := catalogue.judge(ServicesOf(ports), key).findings;
      assert Draws(catalogue.id, drawn);
      AServiceIsReplaced(ports, catalogue, key);
      hide Correlated;
      if ports[key].service.Some? {
        NothingCollidesAfter(ports[key].findings, catalogue.id, drawn, claim);
      } else {
        assert DrawnOn(once, catalogue, key) == [];
      }
    }
    hide Correlated, Collides, DrawnOn;
    CorrelatingAgainChangesNothing(once, catalogue);
  }

  lemma OnePortCommutes(ports: Ports, a: Catalogue, b: Catalogue, key: Key)
    requires AllKeyed(ports) && DrawsItsOwn(a) && DrawsItsOwn(b) && a.id != b.id && key in ports
    requires FitsBoth(ports[key].findings, DrawnOn(ports, a, key), DrawnOn(ports, b, key))
    ensures var (ab, ba) := (Correlated(Correlated(ports, a), b), Correlated(Correlated(ports, b), a));
      key in ab && key in ba && ab[key] == ba[key]
  {
    hide Correlated, Replaced, FitsBoth;
    var afterA, afterB := Correlated(ports, a), Correlated(ports, b);
    ServicesStay(ports, a);
    ServicesStay(ports, b);
    ServicesStay(afterA, b);
    ServicesStay(afterB, a);
    assert Draws(a.id, a.judge(ServicesOf(ports), key).findings);
    assert Draws(b.id, b.judge(ServicesOf(ports), key).findings);
    AServiceIsReplaced(ports, a, key);
    AServiceIsReplaced(ports, b, key);
    AServiceIsReplaced(afterA, b, key);
    AServiceIsReplaced(afterB, a, key);
    if ports[key].service.Some? {
      CataloguesCommute(ports[key].findings, a.id, DrawnOn(ports, a, key), b.id, DrawnOn(ports, b, key));
    }
  }

  /** A report joined against two datasets shows both, in whichever order, below the ceiling. */
  lemma TwoCataloguesCommute(ports: Ports, a: Catalogue, b: Catalogue)
    requires AllKeyed(ports) && DrawsItsOwn(a) && DrawsItsOwn(b) && a.id != b.id
    requires forall key <- ports :: FitsBoth(ports[key].findings, DrawnOn(ports, a, key), DrawnOn(ports, b, key))
    ensures Correlated(Correlated(ports, a), b) == Correlated(Correlated(ports, b), a)
  {
    hide Correlated, FitsBoth, DrawnOn;
    var afterA, afterB := Correlated(ports, a), Correlated(ports, b);
    var ab, ba := Correlated(afterA, b), Correlated(afterB, a);
    ServicesStay(ports, a);
    ServicesStay(ports, b);
    ServicesStay(afterA, b);
    ServicesStay(afterB, a);
    forall key <- ports
      ensures ab[key] == ba[key]
    {
      OnePortCommutes(ports, a, b, key);
    }
    assert ab.Keys == ports.Keys == ba.Keys;
  }
}
