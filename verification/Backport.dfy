/**
 * What a distributor's own data says of a vulnerability in one build: withdrawn, carried, or
 * not settled.
 */
module Backport {
  import opened Wrappers
  import opened Orders
  import Dpkg

  /** Which machines a status applies to; the archive comes first. */
  datatype Channel = Archive | Esm

  datatype OpenKind = Needed | Deferred | Ignored | NeedsTriage

  datatype Standing =
    | NotAffected(reason: Option<string>)
    | Fixed(version: string)
    | Open(kind: OpenKind, note: Option<string>)

  datatype Status = Status(channel: Channel, standing: Standing, advisory: Option<string>)

  /** The first package version carrying a fix, and the notice that announced it. */
  datatype Fix = Fix(version: string, advisory: Option<string>)

  datatype Ruling =
    | WithdrawnFixed(version: string)
    | WithdrawnNotAffected(reason: Option<string>)
    | FixAvailable(fix: Fix)
    | EsmOnly(fix: Fix)
    | NoFix(kind: OpenKind, note: Option<string>)
    | PatchLevelHidden(fix: Fix)
    | Untriaged
    | NotTracked

  predicate Withdraws(ruling: Ruling) {
    ruling.WithdrawnFixed? || ruling.WithdrawnNotAffected?
  }

  /** The first status of the kind wanted. */
  function FirstOf(statuses: seq<Status>, wanted: Status -> bool): (found: Option<Status>)
    ensures found.Some? ==> found.value in statuses && wanted(found.value)
    ensures found.None? ==> forall status <- statuses :: !wanted(status)
  {
    if statuses == [] then None
    else if wanted(statuses[0]) then Some(statuses[0])
    else FirstOf(statuses[1..], wanted)
  }

  predicate IsFix(status: Status, channel: Channel) {
    status.channel == channel && status.standing.Fixed?
  }

  predicate IsOpen(status: Status, channel: Channel) {
    status.channel == channel && status.standing.Open?
  }

  /** A fix against the build installed, where that is known. */
  function Judged(installed: Option<string>, fix: Fix, esm: bool): Ruling {
    if installed.None? then PatchLevelHidden(fix)
    else if Dpkg.Compare(installed.value, fix.version) != Less then WithdrawnFixed(fix.version)
    else if esm then EsmOnly(fix)
    else FixAvailable(fix)
  }

  function StillOpen(statuses: seq<Status>): Ruling {
    var archive := FirstOf(statuses, status => IsOpen(status, Archive));
    var stands := if archive.Some? then archive else FirstOf(statuses, status => IsOpen(status, Esm));
    if stands.None? then NotTracked
    else if stands.value.standing.kind == NeedsTriage then Untriaged
    else NoFix(stands.value.standing.kind, stands.value.standing.note)
  }

  function Rule(installed: Option<string>, statuses: seq<Status>): Ruling {
    var never := FirstOf(statuses, (status: Status) => status.standing.NotAffected?);
    var archive := FirstOf(statuses, status => IsFix(status, Archive));
    var esm := FirstOf(statuses, status => IsFix(status, Esm));
    if statuses == [] then NotTracked
    else if never.Some? then WithdrawnNotAffected(never.value.standing.reason)
    else if archive.Some? then Judged(installed, FixOf(archive.value), false)
    else if esm.Some? then Judged(installed, FixOf(esm.value), true)
    else StillOpen(statuses)
  }

  function FixOf(status: Status): Fix
    requires status.standing.Fixed?
  {
    Fix(status.standing.version, status.advisory)
  }

  // ---------- what a ruling means ----------

  /** The fix a build is held against: the archive's first, or ESM's first where the archive has none. */
  ghost predicate Governs(statuses: seq<Status>, i: nat) {
    && i < |statuses| && statuses[i].standing.Fixed?
    && (forall j | 0 <= j < i :: statuses[j].standing.Fixed? ==> statuses[j].channel != statuses[i].channel)
    && (statuses[i].channel.Esm? ==> forall status <- statuses :: status.standing.Fixed? ==> status.channel.Esm?)
  }

  ghost function GoverningVersion(statuses: seq<Status>, i: nat): string
    requires Governs(statuses, i)
  {
    statuses[i].standing.version
  }

  /** The build is at or past the governing fix. */
  ghost predicate Covers(build: string, statuses: seq<Status>) {
    exists i: nat :: Governs(statuses, i) && Dpkg.Compare(build, GoverningVersion(statuses, i)) != Less
  }

  ghost predicate NeverAffected(statuses: seq<Status>) {
    exists status <- statuses :: status.standing.NotAffected?
  }

  lemma {:induction false} FirstIsAt(statuses: seq<Status>, wanted: Status -> bool) returns (i: nat)
    requires FirstOf(statuses, wanted).Some?
    ensures i < |statuses| && FirstOf(statuses, wanted) == Some(statuses[i])
    ensures forall j | 0 <= j < i :: !wanted(statuses[j])
  {
    if wanted(statuses[0]) {
      i := 0;
    } else {
      var k := FirstIsAt(statuses[1..], wanted);
      i := k + 1;
    }
  }

  lemma OneGoverns(statuses: seq<Status>, i: nat, j: nat)
    requires Governs(statuses, i) && Governs(statuses, j)
    ensures i == j
  {
    assert statuses[i] in statuses && statuses[j] in statuses;
    assert statuses[i].channel == statuses[j].channel;
  }

  /** Where a fix governs and the release was affected, the ruling is that fix against the build. */
  lemma RuledByTheGoverningFix(installed: Option<string>, statuses: seq<Status>, i: nat)
    requires Governs(statuses, i) && !NeverAffected(statuses)
    ensures Rule(installed, statuses) == Judged(installed, FixOf(statuses[i]), statuses[i].channel.Esm?)
  {
    hide Judged;
    assert statuses[i] in statuses;
    var channel := statuses[i].channel;
    var k := FirstIsAt(statuses, status => IsFix(status, channel));
    assert IsFix(statuses[k], channel);
    assert k == i;
  }

  lemma NoFixNoJudgement(installed: Option<string>, statuses: seq<Status>)
    requires !NeverAffected(statuses) && forall i: nat :: !Governs(statuses, i)
    ensures forall status <- statuses :: !status.standing.Fixed?
    ensures Rule(installed, statuses) == StillOpen(statuses)
  {
    forall status <- statuses
      ensures !status.standing.Fixed?
    {
      if status.standing.Fixed? {
        var i := SomeFixGoverns(statuses, status);
        assert false;
      }
    }
  }

  lemma SomeFixGoverns(statuses: seq<Status>, status: Status) returns (i: nat)
    requires status in statuses && status.standing.Fixed?
    ensures Governs(statuses, i)
  {
    if FirstOf(statuses, s => IsFix(s, Archive)).Some? {
      i := FirstIsAt(statuses, s => IsFix(s, Archive));
    } else {
      assert IsFix(status, Esm) by { assert !IsFix(status, Archive); }
      i := FirstIsAt(statuses, s => IsFix(s, Esm));
    }
  }

  /**
   * A vulnerability is withdrawn for a build exactly where some channel says the release never
   * had it, or the build is known and is at or past the governing fix.
   */
  lemma WithdrawnExactlyWhen(installed: Option<string>, statuses: seq<Status>)
    ensures Withdraws(Rule(installed, statuses)) <==>
      NeverAffected(statuses) || (installed.Some? && Covers(installed.value, statuses))
  {
    hide Dpkg.Compare;
    if !NeverAffected(statuses) {
      if i: nat :| Governs(statuses, i) {
        RuledByTheGoverningFix(installed, statuses, i);
        forall j: nat | Governs(statuses, j)
          ensures i == j
        {
          OneGoverns(statuses, i, j);
        }
      } else {
        NoFixNoJudgement(installed, statuses);
      }
    }
  }

  /** Upgrading never brings a withdrawn vulnerability back. */
  lemma ANewerBuildStaysWithdrawn(older: string, newer: string, statuses: seq<Status>)
    ensures Dpkg.Compare(older, newer) != Greater && Withdraws(Rule(Some(older), statuses))
      ==> Withdraws(Rule(Some(newer), statuses))
  {
    hide Dpkg.Compare, Governs, NeverAffected, Rule;
    WithdrawnExactlyWhen(Some(older), statuses);
    WithdrawnExactlyWhen(Some(newer), statuses);
    if Covers(older, statuses) {
      var i: nat :| Governs(statuses, i) && Dpkg.Compare(older, GoverningVersion(statuses, i)) != Less;
      var fix := GoverningVersion(statuses, i);
      Dpkg.Chains(newer, older, fix);
      Dpkg.Flips(older, newer);
    }
  }

  // ---------- every ruling by the statuses ----------

  /** The governing fix is this one, of this channel. */
  ghost predicate Governing(statuses: seq<Status>, channel: Channel, fix: Fix) {
    exists i: nat ::
      && Governs(statuses, i) && statuses[i].channel == channel
      && statuses[i].standing.version == fix.version && statuses[i].advisory == fix.advisory
  }

  /** What a build is held to be open as: the archive's first open status, or ESM's where it has none. */
  ghost predicate Stands(statuses: seq<Status>, i: nat) {
    && i < |statuses| && statuses[i].standing.Open?
    && (forall j | 0 <= j < i :: statuses[j].standing.Open? ==> statuses[j].channel != statuses[i].channel)
    && (statuses[i].channel.Esm? ==> forall status <- statuses :: status.standing.Open? ==> status.channel.Esm?)
  }

  ghost predicate StandsAs(statuses: seq<Status>, kind: OpenKind, note: Option<string>) {
    exists i: nat ::
      Stands(statuses, i) && statuses[i].standing.kind == kind && statuses[i].standing.note == note
  }

  ghost predicate NeverFixed(statuses: seq<Status>) {
    forall status <- statuses :: !status.standing.Fixed?
  }

  lemma OneFixGoverns(statuses: seq<Status>, i: nat, channel: Channel, fix: Fix)
    requires Governs(statuses, i)
    ensures Governing(statuses, channel, fix) <==> channel == statuses[i].channel && fix == FixOf(statuses[i])
  {
    forall j: nat | Governs(statuses, j)
      ensures i == j
    {
      OneGoverns(statuses, i, j);
    }
  }

  lemma FixedOrNever(installed: Option<string>, statuses: seq<Status>) returns (governing: Option<nat>)
    requires !NeverAffected(statuses)
    ensures governing.None? ==> NeverFixed(statuses) && Rule(installed, statuses) == StillOpen(statuses)
    ensures governing.None? ==> forall i: nat :: !Governs(statuses, i)
    ensures governing.Some? ==> Governs(statuses, governing.value) && !NeverFixed(statuses)
    ensures governing.Some? ==>
      var status := statuses[governing.value];
      Rule(installed, statuses) == Judged(installed, FixOf(status), status.channel.Esm?)
  {
    hide Judged, StillOpen, Rule, Governs, NeverAffected;
    if i: nat :| Governs(statuses, i) {
      governing := Some(i);
      RuledByTheGoverningFix(installed, statuses, i);
      GoverningIsAFix(statuses, i);
    } else {
      governing := None;
      NoFixNoJudgement(installed, statuses);
    }
  }

  lemma GoverningIsAFix(statuses: seq<Status>, i: nat)
    requires Governs(statuses, i)
    ensures statuses[i].standing.Fixed? && !NeverFixed(statuses)
  {
    assert statuses[i] in statuses;
  }

  /**
   * A build held against a fix: known and before it, the archive's or ESM's according to the
   * channel; unknown, undecided; and known and at or past it, withdrawn.
   */
  lemma RuledByAFixExactlyWhere(installed: Option<string>, statuses: seq<Status>, fix: Fix)
    ensures Rule(installed, statuses) == FixAvailable(fix) <==>
      && !NeverAffected(statuses) && Governing(statuses, Archive, fix)
      && installed.Some? && Dpkg.Compare(installed.value, fix.version) == Less
    ensures Rule(installed, statuses) == EsmOnly(fix) <==>
      && !NeverAffected(statuses) && Governing(statuses, Esm, fix)
      && installed.Some? && Dpkg.Compare(installed.value, fix.version) == Less
    ensures Rule(installed, statuses) == PatchLevelHidden(fix) <==>
      && !NeverAffected(statuses) && (Governing(statuses, Archive, fix) || Governing(statuses, Esm, fix))
      && installed.None?
  {
    hide Dpkg.Compare, Rule, Governs, Governing, NeverAffected, StillOpen;
    if NeverAffected(statuses) {
      NeverIsWithdrawn(installed, statuses);
    } else {
      var governing := FixedOrNever(installed, statuses);
      if governing.Some? {
        OneFixGoverns(statuses, governing.value, Archive, fix);
        OneFixGoverns(statuses, governing.value, Esm, fix);
      } else {
        NothingGoverning(statuses, Archive, fix);
        NothingGoverning(statuses, Esm, fix);
        OpenNamesNoFix(statuses);
      }
    }
  }

  lemma NeverIsWithdrawn(installed: Option<string>, statuses: seq<Status>)
    requires NeverAffected(statuses)
    ensures Rule(installed, statuses).WithdrawnNotAffected?
  {
  }

  /** And the reason given is the first such status's. */
  lemma TheReasonIsTheFirst(installed: Option<string>, statuses: seq<Status>, i: nat)
    requires i < |statuses| && statuses[i].standing.NotAffected?
    requires forall j | 0 <= j < i :: !statuses[j].standing.NotAffected?
    ensures Rule(installed, statuses) == WithdrawnNotAffected(statuses[i].standing.reason)
  {
    assert statuses[i] in statuses;
    var k := FirstIsAt(statuses, (status: Status) => status.standing.NotAffected?);
    assert k == i;
  }

  lemma NothingGoverning(statuses: seq<Status>, channel: Channel, fix: Fix)
    requires forall i: nat :: !Governs(statuses, i)
    ensures !Governing(statuses, channel, fix)
  {
  }

  lemma OpenNamesNoFix(statuses: seq<Status>)
    ensures var r := StillOpen(statuses); r.NoFix? || r.Untriaged? || r.NotTracked?
  {
  }

  /** Withdrawn, by which of the two: the release never had it, or else the build has the fix. */
  lemma WithdrawnByWhich(installed: Option<string>, statuses: seq<Status>)
    ensures Rule(installed, statuses).WithdrawnNotAffected? <==> NeverAffected(statuses)
    ensures Rule(installed, statuses).WithdrawnFixed? <==>
      !NeverAffected(statuses) && installed.Some? && Covers(installed.value, statuses)
  {
    hide Dpkg.Compare, Rule, Governs, NeverAffected, StillOpen, Covers;
    WithdrawnExactlyWhen(installed, statuses);
    if NeverAffected(statuses) {
      NeverIsWithdrawn(installed, statuses);
    } else {
      var governing := FixedOrNever(installed, statuses);
      OpenNamesNoFix(statuses);
    }
  }

  lemma OneStands(statuses: seq<Status>, i: nat, kind: OpenKind, note: Option<string>)
    requires Stands(statuses, i)
    ensures StandsAs(statuses, kind, note) <==>
      kind == statuses[i].standing.kind && note == statuses[i].standing.note
  {
    forall j: nat | Stands(statuses, j)
      ensures i == j
    {
      assert statuses[i] in statuses && statuses[j] in statuses;
      assert statuses[i].channel == statuses[j].channel;
    }
  }

  lemma WhatStands(statuses: seq<Status>) returns (standing: Option<nat>)
    ensures standing.None? ==> StillOpen(statuses) == NotTracked && forall i: nat :: !Stands(statuses, i)
    ensures standing.None? ==> forall status <- statuses :: !status.standing.Open?
    ensures standing.Some? ==> Stands(statuses, standing.value)
    ensures standing.Some? ==>
      var open := statuses[standing.value].standing;
      StillOpen(statuses) == if open.kind == NeedsTriage then Untriaged else NoFix(open.kind, open.note)
  {
    var archive := FirstOf(statuses, status => IsOpen(status, Archive));
    var esm := FirstOf(statuses, status => IsOpen(status, Esm));
    if archive.Some? {
      var i := FirstIsAt(statuses, status => IsOpen(status, Archive));
      standing := Some(i);
      assert forall j | 0 <= j < i :: !IsOpen(statuses[j], Archive);
    } else if esm.Some? {
      var i := FirstIsAt(statuses, status => IsOpen(status, Esm));
      standing := Some(i);
      assert forall j | 0 <= j < i :: !IsOpen(statuses[j], Esm);
      assert forall status <- statuses :: !IsOpen(status, Archive);
    } else {
      standing := None;
      forall status <- statuses
        ensures !status.standing.Open?
      {
        assert !IsOpen(status, Archive) && !IsOpen(status, Esm);
      }
      forall i: nat
        ensures !Stands(statuses, i)
      {
        assert i < |statuses| ==> statuses[i] in statuses;
      }
    }
  }

  /** A build nothing is fixed in: open as the standing status says, or waiting where nobody has looked. */
  lemma RuledOpenExactlyWhere(installed: Option<string>, statuses: seq<Status>, kind: OpenKind, note: Option<string>)
    ensures Rule(installed, statuses) == NoFix(kind, note) <==>
      !NeverAffected(statuses) && NeverFixed(statuses) && kind != NeedsTriage && StandsAs(statuses, kind, note)
    ensures Rule(installed, statuses) == Untriaged <==>
      !NeverAffected(statuses) && NeverFixed(statuses) && exists said :: StandsAs(statuses, NeedsTriage, said)
    ensures Rule(installed, statuses) == NotTracked <==> statuses == []
  {
    hide Dpkg.Compare, Rule, Governs, NeverAffected, StillOpen, Stands, StandsAs, NeverFixed;
    SilenceIsNotTracked(installed, statuses);
    if NeverAffected(statuses) {
      NeverIsWithdrawn(installed, statuses);
    } else {
      var governing := FixedOrNever(installed, statuses);
      if governing.None? {
        var standing := WhatStands(statuses);
        if standing.Some? {
          forall k, n
            ensures StandsAs(statuses, k, n) <==>
              k == statuses[standing.value].standing.kind && n == statuses[standing.value].standing.note
          {
            OneStands(statuses, standing.value, k, n);
          }
          var open := statuses[standing.value].standing;
          assert StandsAs(statuses, open.kind, open.note);
        } else {
          forall k, n
            ensures !StandsAs(statuses, k, n)
          {
            NothingStands(statuses, k, n);
          }
        }
      }
    }
  }

  lemma NothingStands(statuses: seq<Status>, kind: OpenKind, note: Option<string>)
    requires forall i: nat :: !Stands(statuses, i)
    ensures !StandsAs(statuses, kind, note)
  {
  }

  lemma SilenceIsNotTracked(installed: Option<string>, statuses: seq<Status>)
    ensures statuses == [] ==> Rule(installed, statuses) == NotTracked
    ensures Rule(installed, statuses) == NotTracked ==> statuses == []
  {
    hide Dpkg.Compare;
    if statuses != [] {
      var first := statuses[0];
      assert first in statuses;
      match first.standing
      case NotAffected(_) =>
      case Fixed(_) =>
        assert IsFix(first, first.channel);
      case Open(_, _) =>
        assert IsOpen(first, first.channel);
    }
  }

  /** The fix a ruling names, where it names one. */
  function NamedFix(ruling: Ruling): Option<Fix> {
    match ruling
    case FixAvailable(fix) => Some(fix)
    case EsmOnly(fix) => Some(fix)
    case PatchLevelHidden(fix) => Some(fix)
    case _ => None
  }

  /** A build at or past the fix a ruling names is one the same data withdraws it for. */
  lemma TheFixWithdraws(installed: Option<string>, build: string, statuses: seq<Status>)
    ensures var fix := NamedFix(Rule(installed, statuses));
      fix.Some? && Dpkg.Compare(build, fix.value.version) != Less ==>
        Rule(Some(build), statuses) == WithdrawnFixed(fix.value.version)
  {
    hide Dpkg.Compare;
  }
}
