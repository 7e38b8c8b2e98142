/**
 * One bounded read of a port: the loop that collects whatever a peer sends, however it
 * trickles it. All times are milliseconds.
 */
module Reading {
  import opened Octets

  /** Upper bound on how much of a single response is kept. */
  const MAX_RESPONSE_BYTES: nat := 4096
  /** How long a response may go on arriving, measured from its first byte. */
  const MAX_CONTINUATION: nat := 2000

  /** What one successful read call returns: at least a byte, at most the buffer. */
  type Piece = p: seq<Byte> | 0 < |p| <= MAX_RESPONSE_BYTES witness [0]

  /** What the next read call meets, and how long after the previous one. */
  datatype Event =
    | Bytes(after: nat, piece: Piece)
    | Ended(after: nat)                // a close or an error
    | Quiet                            // nothing, ever

  /** A peer's side of one read, call by call. It never runs out: a trickle may be endless. */
  type Wire = nat -> Event

  /** What the path adds to every wait, and the round trip a reply spends crossing it. */
  datatype Path = Path(allowance: nat, roundTrip: nat)

  datatype Heard = Heard(bytes: seq<Byte>, took: nat, ranOut: bool, late: bool)

  function Min(a: nat, b: nat): nat {
    if a <= b then a else b
  }

  /** Whether the event is bytes within the budget. */
  predicate Arrives(event: Event, budget: nat) {
    event.Bytes? && event.after <= budget
  }

  /** Whether the event shows nothing within the budget: no byte and no close. */
  predicate NothingBy(event: Event, budget: nat) {
    event.Quiet? || budget < event.after
  }

  /** How long a read call that draws nothing takes. */
  function Spent(event: Event, budget: nat): nat {
    if event.Ended? && event.after <= budget then event.after else budget
  }

  /** The bytes of the first `k` events. */
  function Joined(wire: Wire, k: nat): seq<Byte> {
    if k == 0 then []
    else Joined(wire, k - 1) + (if wire(k - 1).Bytes? then wire(k - 1).piece else [])
  }

  /** As much of them as is kept. */
  function Kept(wire: Wire, k: nat): (kept: seq<Byte>)
    ensures |kept| == Min(|Joined(wire, k)|, MAX_RESPONSE_BYTES) && kept <= Joined(wire, k)
  {
    Joined(wire, k)[..Min(|Joined(wire, k)|, MAX_RESPONSE_BYTES)]
  }

  /** The time between the first byte and the end of the first `k` events. */
  function Since(wire: Wire, k: nat): nat {
    if k <= 1 then 0
    else Since(wire, k - 1) + (if wire(k - 1).Bytes? then wire(k - 1).after else 0)
  }

  /** How long the read after `k` pieces may take: the grace, within the continuation. */
  function Budget(wire: Wire, grace: nat, k: nat): nat {
    if Since(wire, k) < MAX_CONTINUATION then Min(grace, MAX_CONTINUATION - Since(wire, k)) else 0
  }

  /** Whether another read is made after `k` pieces. */
  predicate ReadsOn(wire: Wire, grace: nat, k: nat) {
    0 < grace && |Joined(wire, k)| < MAX_RESPONSE_BYTES && Since(wire, k) < MAX_CONTINUATION
  }

  /** Whether that read draws one piece more. */
  predicate Continues(wire: Wire, grace: nat, k: nat) {
    ReadsOn(wire, grace, k) && Arrives(wire(k), Budget(wire, grace, k))
  }

  /** The number of pieces taken in all, given that `k` have been. */
  function Pieces(wire: Wire, grace: nat, k: nat): (n: nat)
    ensures k <= n && !Continues(wire, grace, n)
    ensures forall i | k <= i < n :: Continues(wire, grace, i)
    decreases MAX_RESPONSE_BYTES - |Joined(wire, k)|
  {
    if Continues(wire, grace, k) then Pieces(wire, grace, k + 1) else k
  }

  /** A read waiting `wait` for the first byte, the path allowed for, and `grace` after it. */
  function Read(wire: Wire, wait: nat, grace: nat, path: Path): (heard: Heard) {
    var first := wait + path.allowance;
    if !Arrives(wire(0), first) then
      Heard([], Spent(wire(0), first), !(wire(0).Ended? && wire(0).after <= first), false)
    else
      var n := Pieces(wire, grace, 1);
      Heard(
        Kept(wire, n),
        wire(0).after + Since(wire, n)
        + if ReadsOn(wire, grace, n) then Spent(wire(n), Budget(wire, grace, n)) else 0,
        false,
        ServiceTime(wire(0).after, path) > wait / 2)
  }

  /** How much of a reply's time was the service's own. */
  function ServiceTime(elapsed: nat, path: Path): nat {
    if elapsed <= path.roundTrip then 0 else elapsed - path.roundTrip
  }

  lemma KeptStep(wire: Wire, k: nat)
    requires wire(k).Bytes? && |Kept(wire, k)| < MAX_RESPONSE_BYTES
    ensures Kept(wire, k + 1) ==
      Kept(wire, k) + wire(k).piece[..Min(|wire(k).piece|, MAX_RESPONSE_BYTES - |Kept(wire, k)|)]
  {
  }

  /** The loop: `collected`, `budget` and the deadline as the source keeps them. */
  method ReadBytes(wire: Wire, wait: nat, grace: nat, path: Path) returns (heard: Heard)
    ensures heard == Read(wire, wait, grace, path)
  {
    hide Kept;
    var collected: seq<Byte> := [];
    var budget := wait + path.allowance;
    var now := 0;
    var deadline := 0;
    var ranOut, late := false, false;
    var k := 0;
    while |collected| < MAX_RESPONSE_BYTES
      invariant k == 0 <==> collected == []
      invariant k == 0 ==> collected == Kept(wire, 0) && now == 0 && budget == wait + path.allowance && !late
      invariant 0 < k ==>
        && Arrives(wire(0), wait + path.allowance)
        && 0 < grace
        && collected == Kept(wire, k)
        && now == wire(0).after + Since(wire, k)
        && deadline == wire(0).after + MAX_CONTINUATION
        && Since(wire, k) < MAX_CONTINUATION
        && budget == Budget(wire, grace, k)
        && Pieces(wire, grace, k) == Pieces(wire, grace, 1)
        && late == (ServiceTime(wire(0).after, path) > wait / 2)
      invariant !ranOut
      decreases MAX_RESPONSE_BYTES - |collected|
    {
      var first := collected == [];
      var event := wire(k);
      if Arrives(event, budget) {
        now := now + event.after;
        if first && ServiceTime(now, path) > wait / 2 {
          late := true;
        }
        var room := MAX_RESPONSE_BYTES - |collected|;
        collected := collected + event.piece[..Min(|event.piece|, room)];
        if first {
          deadline := now + MAX_CONTINUATION;
        }
        KeptStep(wire, k);
        k := k + 1;
        if grace == 0 || deadline <= now {
          break;
        }
        budget := Min(grace, deadline - now);
      } else {
        now := now + Spent(event, budget);
        ranOut := first && !(event.Ended? && event.after <= budget);
        break;
      }
    }
    heard := Heard(collected, now, ranOut, late);
  }

  /** Nothing longer than `k` pieces is ever shorter: the joined bytes only grow. */
  lemma {:induction false} JoinedGrows(wire: Wire, grace: nat, k: nat, n: nat)
    requires 1 <= k <= n && wire(0).Bytes?
    requires forall i | k <= i < n :: Continues(wire, grace, i)
    ensures Joined(wire, k) <= Joined(wire, n)
    ensures |Joined(wire, k)| + (n - k) <= |Joined(wire, n)|
    decreases n - k
  {
    if k < n {
      JoinedGrows(wire, grace, k, n - 1);
      assert Continues(wire, grace, n - 1);
    }
  }

  /** The continuation never outlasts `MAX_CONTINUATION`, however the peer trickles. */
  lemma {:induction false} SinceBounded(wire: Wire, grace: nat, k: nat, n: nat)
    requires 1 <= k <= n
    requires Since(wire, k) <= MAX_CONTINUATION
    requires forall i | k <= i < n :: Continues(wire, grace, i)
    ensures Since(wire, n) <= MAX_CONTINUATION
    decreases n - k
  {
    if k < n {
      SinceBounded(wire, grace, k, n - 1);
      assert Continues(wire, grace, n - 1);
    }
  }

  /** Every piece holds a byte, so no read takes more pieces than it keeps bytes. */
  lemma AtMostThatManyPieces(wire: Wire, grace: nat, n: nat)
    requires 1 <= n && wire(0).Bytes?
    requires forall i | 1 <= i < n :: Continues(wire, grace, i)
    ensures n <= |Kept(wire, n)| <= MAX_RESPONSE_BYTES
  {
    assert |Joined(wire, 1)| >= 1 by {
      assert Joined(wire, 1) == [] + wire(0).piece;
    }
    JoinedGrows(wire, grace, 1, n);
    if n > 1 {
      JoinedGrows(wire, grace, 1, n - 1);
      assert Continues(wire, grace, n - 1);
    }
  }

  /**
   * What a read promises of every peer: at most 4096 bytes and a prefix of what was sent,
   * one wait for the first byte and one continuation after it, and an expired clock
   * reported exactly where that wait showed nothing at all, not a byte and not a close.
   */
  lemma ReadIsBounded(wire: Wire, wait: nat, grace: nat, path: Path)
    ensures var heard := Read(wire, wait, grace, path);
      && |heard.bytes| <= 4096
      && (exists n :: heard.bytes <= Joined(wire, n))
      && heard.took <= wait + path.allowance + 2000
      && (heard.bytes == [] || grace == 0 ==> heard.took <= wait + path.allowance)
      && (heard.ranOut <==> NothingBy(wire(0), wait + path.allowance))
      && (heard.ranOut ==> heard.bytes == [] && heard.took == wait + path.allowance)
      && (heard.bytes == [] <==> !Arrives(wire(0), wait + path.allowance))
  {
    var heard := Read(wire, wait, grace, path);
    if Arrives(wire(0), wait + path.allowance) {
      var n := Pieces(wire, grace, 1);
      JoinedGrows(wire, grace, 1, n);
      SinceBounded(wire, grace, 1, n);
      assert |Joined(wire, 1)| > 0 by {
        assert Joined(wire, 1) == [] + wire(0).piece;
      }
      assert heard.bytes <= Joined(wire, n);
      if grace == 0 {
        assert n == 1;
      }
    } else {
      assert heard.bytes <= Joined(wire, 0);
    }
  }

  /**
   * And it stops no sooner than it has to: short of the cap, the continuation's end and a
   * zero grace, the read that came next drew nothing within its budget.
   */
  lemma ReadStopsForAReason(wire: Wire, wait: nat, grace: nat, path: Path) returns (n: nat)
    requires Arrives(wire(0), wait + path.allowance)
    ensures 1 <= n <= 4096
    ensures Read(wire, wait, grace, path).bytes == Kept(wire, n)
    ensures forall i | 1 <= i < n :: Arrives(wire(i), Budget(wire, grace, i))
    ensures
      || |Joined(wire, n)| >= 4096
      || Since(wire, n) == 2000
      || grace == 0
      || !Arrives(wire(n), Budget(wire, grace, n))
  {
    n := Pieces(wire, grace, 1);
    SinceBounded(wire, grace, 1, n);
    AtMostThatManyPieces(wire, grace, n);
    forall i | 1 <= i < n
      ensures Arrives(wire(i), Budget(wire, grace, i))
    {
      assert Continues(wire, grace, i);
    }
  }
}
