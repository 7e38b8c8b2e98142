/**
 * What the bound comes to for the shipped corpus, and which redirects a collection follows.
 */
module Walks {
  import opened Wrappers
  import opened Network
  import opened Http
  import opened Collect
  import opened Bounds
  import opened Runs

  const COLLECTION_BUDGET: nat := 40000
  const COLLECTION_WAITS: nat := 20

  /**
   * The shape of every port in the shipped corpus: two services and two probes at most, and a
   * port numbered for TLS is unclaimed, or named by its one service, or by services all of which
   * wait to be asked.
   */
  predicate Shipped(env: Env) {
    && Services(env) <= 2 && Probes(env) <= 2 && env.generic <= 1 && env.universal <= 5
    && (env.tlsPort ==> env.conversations == [] || (env.named && (Services(env) == 1 || env.askedFirst)))
  }

  /** No run on the shipped corpus is longer than 32 seconds, or waits on the path more than seventeen times. */
  lemma ShippedWalks(env: Env)
    requires Shipped(env)
    ensures LongestMs(env) <= 32000
    ensures MostWaits(env) <= 17
  {
    hide Shipped, SpokenMs, RefusedMs, SilentMs, TunnelMs, SpokenWaits, RefusedWaits, SilentWaits, TunnelWaits;
    ShippedStages(env);
    ShippedWaits(env);
    assert Guesses(env) <= env.universal;
  }

  lemma ShippedStages(env: Env)
    requires Shipped(env)
    ensures SpokenMs(env) <= 17000 && RefusedMs(env) <= 13500 && SilentMs(env) <= 7000 && TunnelMs(env) <= 16500
    ensures env.universal <= 5
  {
  }

  lemma ShippedWaits(env: Env)
    requires Shipped(env)
    ensures SpokenWaits(env) <= 9 && RefusedWaits(env) <= 7 && TunnelWaits(env) <= 8
    ensures SilentWaits(env) <= if env.tlsPort then 3 else 5
  {
  }

  /** So the ceiling on one port's collection, path and all, never cuts a run short. */
  lemma TheCeilingCutsNothingShort(env: Env)
    requires Shipped(env)
    ensures Gathered(env, OPENED).session.clock <= COLLECTION_BUDGET + COLLECTION_WAITS * env.path.allowance
  {
    hide Gathered, LongestMs, MostWaits;
    CollectionIsBounded(env);
    ShippedWalks(env);
    var waits := Gathered(env, OPENED).session.waits;
    assert waits * env.path.allowance <= COLLECTION_WAITS * env.path.allowance by {
      assert (COLLECTION_WAITS - waits) * env.path.allowance >= 0;
    }
  }

  // ---------- redirects ----------

  /** The redirect the generic question follows, on a port where it is what is asked first. */
  function GenericRedirect(env: Env, s: Session): Option<string> {
    if AsksItsOwn(env) || GenericText(env, s).None? then None else Leads(env, GenericText(env, s).value)
  }

  /** The replies a redirect is followed for once every service was asked. */
  function SetReplies(env: Env, s: Session): seq<string> {
    var opening := OpenedWith(env, s, true);
    if opening.what.SpokeTls? then []
    else
      var theirs := OthersAsked(env, opening.session, opening.what.rest, opening.what.held, true);
      SetOf(env.named, opening.what.banners, theirs.what)
  }

  function SetRedirect(env: Env, s: Session): Option<string> {
    Redirect(env, SetReplies(env, s), false)
  }

  lemma TheOpeningFollows(env: Env, s: Session)
    requires s.open == 1
    ensures OpenedWith(env, s, true).session.followed == s.followed + Items(GenericRedirect(env, s))
  {
    hide Collected, AskedGenerically, Leads, GenericText, Sound;
    if AsksItsOwn(env) {
      CollectedSpends(env, s, env.conversations[0], !env.askedFirst);
    } else {
      GenericFollows(env, s, true);
    }
  }

  /** On every port, what the clear follows is the generic question's redirect and then the set's. */
  lemma WhatIsFollowed(env: Env, s: Session)
    requires s.open == 1
    ensures InTheClear(env, s, true).session.followed
      == s.followed + Items(GenericRedirect(env, s)) + Items(SetRedirect(env, s))
  {
    hide InTheClear, OpenedWith, OthersAsked, WithRedirect, Redirect, GenericRedirect, Sound, Refuses;
    TheClearIs(env, s, true);
    TheOpeningFollows(env, s);
    OpenedWithSpends(env, s, true);
    var opening := OpenedWith(env, s, true);
    if opening.what.Opening? {
      OthersAskedSpends(env, opening.session, opening.what.rest, opening.what.held, true);
      var theirs := OthersAsked(env, opening.session, opening.what.rest, opening.what.held, true);
      WithRedirectSpends(env, theirs.session, SetReplies(env, s), true, false);
    } else {
      NothingLeads(env);
    }
  }

  ghost predicate Repeats(paths: seq<string>) {
    exists i, j :: 0 <= i < j < |paths| && paths[i] == paths[j]
  }

  /**
   * So on every port the clear fetches a page twice exactly where the generic question is what is
   * asked first, its reply redirects, and the set redirects to the same path.
   */
  lemma APageTwiceExactlyWhere(env: Env, s: Session)
    requires s.open == 1 && s.followed == []
    ensures Repeats(InTheClear(env, s, true).session.followed) <==>
      !AsksItsOwn(env) && GenericRedirect(env, s).Some? && SetRedirect(env, s) == GenericRedirect(env, s)
  {
    hide InTheClear, SetRedirect, GenericText, Leads;
    WhatIsFollowed(env, s);
    var (first, second) := (GenericRedirect(env, s), SetRedirect(env, s));
    var paths := InTheClear(env, s, true).session.followed;
    assert paths == Items(first) + Items(second);
    if first.Some? && second == first {
      assert paths[0] == paths[1];
    }
  }

  /** On a port a service probes under its own name, what its set follows is the set's redirect. */
  lemma OwnFollows(env: Env, s: Session, addressed: bool)
    requires s.open == 1 && AsksItsOwn(env)
    ensures var r := InTheClear(env, s, addressed); RefusedInTheClear(r.what) ==> r.session.followed == s.followed
  {
    hide OpenedWith, OthersAsked, WithRedirect, Refuses, Sound;
    OpenedWithSpends(env, s, addressed);
    var opening := OpenedWith(env, s, addressed);
    if opening.what.Opening? {
      OthersAskedSpends(env, opening.session, opening.what.rest, opening.what.held, addressed);
      var theirs := OthersAsked(env, opening.session, opening.what.rest, opening.what.held, addressed);
      WithRedirectSpends(env, theirs.session, opening.what.banners + theirs.what, addressed, false);
    }
  }

  /**
   * On a port named and not probed the generic reply leads the set. Its redirect is followed by
   * the generic question, and then the set's is: the same one where the reply opens as HTTP.
   */
  lemma UnprobedFollows(env: Env, s: Session, addressed: bool) returns (second: Option<string>)
    requires s.open == 1 && env.named && env.conversations == []
    ensures var (r, text) := (InTheClear(env, s, addressed), GenericText(env, s));
      if text.None? then r.what == [] && r.session.followed == s.followed
      else
        && r.what != [] && r.what[0] == text.value
        && r.session.followed == s.followed + (if addressed then Items(Leads(env, text.value)) + Items(second) else [])
        && (SpeaksHttp(text.value) ==> second == Leads(env, text.value))
  {
    hide InTheClear, AskedGenerically, WithRedirect, Redirect, Leads, SpeaksHttp, Sound, GenericText;
    second := None;
    UnprobedIsTheGeneric(env, s, addressed);
    GenericSpends(env, s, addressed);
    GenericFollows(env, s, addressed);
    var asked := AskedGenerically(env, s, addressed);
    if asked.what.Spoke? {
      var banners := asked.what.banners;
      WithRedirectSpends(env, asked.session, banners, addressed, false);
      AnHttpReplyLeads(env, banners);
      second := Redirect(env, banners, false);
      var leads := Items(Leads(env, banners[0]));
      assert s.followed + (leads + Items(second)) == s.followed + leads + Items(second);
    }
  }

  /** There the clear is the generic question, and the redirect of what it drew. */
  lemma UnprobedIsTheGeneric(env: Env, s: Session, addressed: bool)
    requires s.open == 1 && env.named && env.conversations == []
    ensures var (asked, r) := (AskedGenerically(env, s, addressed), InTheClear(env, s, addressed));
      r == if asked.what.Spoke? then WithRedirect(env, asked.session, asked.what.banners, addressed, false)
           else Drew([], asked.session)
  {
    hide AskedGenerically, Redirect, Fetched;
    var asked := AskedGenerically(env, s, addressed);
    assert OthersAsked(env, asked.session, [], false, addressed) == Drew([], asked.session);
    var none: seq<string> := [];
    assert none + none == none;
    assert Redirect(env, [], false).None? by { NothingLeads(env); }
    assert asked.what.Spoke? ==> asked.what.banners + [] == asked.what.banners;
  }

  lemma NothingLeads(env: Env)
    ensures Redirect(env, [], false).None?
  {
  }

  lemma AnHttpReplyLeads(env: Env, banners: seq<string>)
    requires banners != []
    ensures SpeaksHttp(banners[0]) ==> Redirect(env, banners, false) == Leads(env, banners[0])
  {
    hide RedirectPath, SpeaksHttp;
  }

  /** On a port a service names, a set that opens with a refusal never had a redirect followed for it. */
  lemma ARefusalIsNotFollowed(env: Env, s: Session, addressed: bool)
    requires s.open == 1 && env.named
    ensures var r := InTheClear(env, s, addressed); RefusedInTheClear(r.what) ==> r.session.followed == s.followed
  {
    hide InTheClear, RedirectPath, GenericText;
    if AsksItsOwn(env) {
      OwnFollows(env, s, addressed);
    } else {
      var second := UnprobedFollows(env, s, addressed);
      var text := GenericText(env, s);
      if text.Some? {
        ARefusalLeadsNowhere(env, text.value);
      }
    }
  }

  /** Off the ports numbered for TLS, a refusal in the clear ends the climb at its first rung, through TLS. */
  lemma ARefusalEndsTheClimb(env: Env)
    requires Collects(env) && !env.tlsPort
    ensures var clear := InTheClear(env, OPENED.(rungs := 1), true);
      RefusedInTheClear(clear.what) ==>
        Gathered(env, OPENED) == AskedThroughTls(env, clear.session, ResponseSet(clear.what, None))
  {
    hide InTheClear, AskedThroughTls, Refuses;
    var clear := InTheClear(env, OPENED.(rungs := 1), true);
    if RefusedInTheClear(clear.what) {
      assert Settled(env, PlaintextRung, None, Asked(env, OPENED, PlaintextRung))
        == Stop(AskedThroughTls(env, clear.session, ResponseSet(clear.what, None)));
      assert Ladder(env)[0] == PlaintextRung;
    }
  }

  /**
   * A port a service names and no service probes, that answers the generic question in HTTP, is
   * asked for a redirect's page twice over: by the generic question, and again, at the same path,
   * with the set its reply leads. Exactly where that reply redirects back to the port.
   */
  lemma TheSamePageTwice(env: Env, s: Session)
    requires s.open == 1 && env.named && env.conversations == []
    requires GenericText(env, s).Some? && SpeaksHttp(GenericText(env, s).value)
    ensures var target := Leads(env, GenericText(env, s).value);
      InTheClear(env, s, true).session.followed == s.followed + Items(target) + Items(target)
  {
    hide InTheClear, RedirectPath, GenericText, SpeaksHttp;
    var second := UnprobedFollows(env, s, true);
    var target := Items(Leads(env, GenericText(env, s).value));
    assert s.followed + (target + target) == s.followed + target + target;
  }
}
