/** Which package of a version Latest ends at, by version and place in the family. */
module LatestOrder {
  import opened Wrappers
  import opened SemVer
  import opened ReleasePolicy
  import opened Forge
  import opened Finalization
  import opened FinalizationResume
  import opened FinalizationQuiet
  import opened FinalizationConvergence

  /** Latest is at this version's package of that place, at a later one, or at a higher version. */
  ghost predicate Reached(service: Service, latest: Option<Latest>, version: Version, ordinal: nat)
    requires latest.Some? ==> service.rank(latest.value.tagName).Some?
  {
    && latest.Some?
    && var rank := service.rank(latest.value.tagName).value;
    Less(version, rank.version) || (rank.version == version && ordinal <= rank.ordinal)
  }

  /** Main's packages of one stable version, in the family's order. */
  ghost predicate StableFamily(service: Service, targets: seq<Target>, version: Version) {
    && targets != [] && version.pre == ""
    && (forall t :: t in targets ==>
          t.line.Main? && service.rank(t.tag).Some? && service.rank(t.tag).value.version == version)
    && forall i, j :: 0 <= i < j < |targets| ==>
         service.rank(targets[i].tag).value.ordinal < service.rank(targets[j].tag).value.ordinal
  }

  ghost predicate EndsAt(service: Service, last: Target, before: Option<Latest>, after: Option<Latest>)
    requires service.rank(last.tag).Some?
    requires before.Some? ==> service.rank(before.value.tagName).Some?
  {
    var rank := service.rank(last.tag).value;
    if Reached(service, before, rank.version, rank.ordinal) then after == before
    else after.Some? && after.value.tagName == last.tag
  }

  lemma AdvancesUnlessReached(service: Service, t: Target, before: Option<Latest>)
    requires service.rank(t.tag).Some? && service.rank(t.tag).value.version.pre == "" && t.line.Main?
    requires before.Some? ==> service.rank(before.value.tagName).Some?
    ensures var rank := service.rank(t.tag).value;
      Advances(service, t, before) <==> !Reached(service, before, rank.version, rank.ordinal)
  {
    hide SemVer.Compare;
    if before.Some? {
      var a, b := service.rank(before.value.tagName).value, service.rank(t.tag).value;
      OrderSymmetry(a.version, b.version);
    }
  }

  /** After an earlier package has settled, the last one finds Latest reached exactly if it was before. */
  lemma EarlierThenLast(
    service: Service, t: Target, last: Target, before: Option<Latest>, middle: Option<Latest>, after: Option<Latest>)
    requires service.rank(t.tag).Some? && service.rank(last.tag).Some?
    requires StableFamily(service, [t, last], service.rank(last.tag).value.version)
    requires before.Some? ==> service.rank(before.value.tagName).Some?
    requires LatestSettles(service, t, before, middle) && (middle.Some? ==> service.rank(middle.value.tagName).Some?)
    requires EndsAt(service, last, middle, after)
    ensures EndsAt(service, last, before, after)
  {
    hide Advances, SemVer.Compare;
    var targets := [t, last];
    assert targets[0] in targets && targets[1] in targets;
    var a, b := service.rank(targets[0].tag).value, service.rank(targets[1].tag).value;
    AdvancesUnlessReached(service, t, before);
    OrderSymmetry(a.version, b.version);
  }

  lemma StableParts(service: Service, rest: seq<Target>, version: Version)
    requires StableFamily(service, rest, version)
    ensures rest != []
    ensures var first, last := rest[0], rest[|rest| - 1];
      && service.rank(first.tag).Some? && service.rank(first.tag).value.version == version
      && service.rank(last.tag).Some? && service.rank(last.tag).value.version == version
      && (if |rest| == 1 then StableFamily(service, [last], version)
          else StableFamily(service, rest[1..], version) && StableFamily(service, [first, last], version))
  {
    assert rest[0] in rest && rest[|rest| - 1] in rest;
  }

  lemma {:induction false} FamilyTakesLatest(
    targets: seq<Target>, w: World, rest: seq<Target>, authority: Authority, version: Version)
    requires Quiet(targets, w) && forall t :: t in rest ==> t in targets
    requires forall t :: t in rest ==> AuthorityHolds(w.store, t.source, authority)
    requires StableFamily(w.service, rest, version)
    ensures var r := FinalizeAll(w, rest, authority);
      r.Done? ==> EndsAt(w.service, rest[|rest| - 1], w.store.latest, r.world.store.latest)
    decreases |rest|
  {
    hide FinalizePackage, VerifyBound, Reads, Evolves, Follows, AuthorityHolds, TargetOk, Missed, Steady;
    hide EndsAt, LatestSettles, Advances, StableFamily, ExactTag;
    StableParts(w.service, rest, version);
    var bound := VerifyBound(w, rest[0].source, authority);
    VerifyQuiet(w, rest[0].source, authority);
    if bound.Done? {
      PackageQuiet(targets, bound.world, rest[0], authority);
      var done := FinalizePackage(bound.world, rest[0], authority);
      if done.Done? {
        var last := rest[|rest| - 1];
        var middle := done.world.store.latest;
        if |rest| == 1 {
          SettledIsEnd(w.service, last, w.store.latest, middle);
          assert rest[1..] == [];
        } else {
          AuthorityLasts(bound.world, done.world, rest[1..], authority);
          FamilyTakesLatest(targets, done.world, rest[1..], authority, version);
          var after := FinalizeAll(done.world, rest[1..], authority);
          if after.Done? {
            EarlierThenLast(w.service, rest[0], last, w.store.latest, middle, after.world.store.latest);
          }
        }
      }
    }
  }

  lemma SettledIsEnd(service: Service, t: Target, before: Option<Latest>, after: Option<Latest>)
    requires service.rank(t.tag).Some? && StableFamily(service, [t], service.rank(t.tag).value.version)
    requires before.Some? ==> service.rank(before.value.tagName).Some?
    requires LatestSettles(service, t, before, after)
    ensures EndsAt(service, t, before, after)
  {
    hide Advances, Reached;
    var targets := [t];
    assert targets[0] in targets;
    AdvancesUnlessReached(service, t, before);
  }

  /**
   A successful attempt for a stable version of main leaves Latest at the version's last package,
   unless Latest was already there or further on; then it leaves Latest alone.
   */
  lemma AttemptTakesLatest(
    targets: seq<Target>, w: World, published: seq<bool>, source: Sha, binding: Option<Binding>, version: Version)
    requires Quiet(targets, w) && AllPublished(published) && Permitted(w.store, targets, source, binding)
    requires StableFamily(w.service, targets, version)
    ensures var r := Finalize(w, published, targets, source, binding);
      var last := targets[|targets| - 1];
      && (r.Done? || Missed(w, r.world))
      && (r.Done? ==>
            if Reached(w.service, w.store.latest, version, w.service.rank(last.tag).value.ordinal)
            then r.world.store.latest == w.store.latest
            else r.world.store.latest.Some? && r.world.store.latest.value.tagName == last.tag)
  {
    hide Preflight, FinalizeAll, Reads, TargetOk, AuthorityHolds, Missed, Steady, Reached;
    AttemptSucceeds(targets, w, published, source, binding);
    PreflightQuiet(w, published, targets, source, binding);
    var ready := Preflight(w, published, source, binding);
    if ready.Done? {
      FamilyTakesLatest(targets, ready.world, targets, ready.value, version);
    }
    assert targets[|targets| - 1] in targets;
  }

  /** Whatever happened on the way, once the family is complete Latest is at its last package or further on. */
  lemma CompleteIsReached(service: Service, s: Store, targets: seq<Target>, version: Version)
    requires Resumable(service, targets, s) && Complete(targets, s) && StableFamily(service, targets, version)
    ensures Reached(service, s.latest, version, service.rank(targets[|targets| - 1].tag).value.ordinal)
  {
    hide Advances, Reached, ExactTag, ValidRelease, ValidTag;
    var last := targets[|targets| - 1];
    assert last in targets && TargetOk(service, s, last);
    AdvancesUnlessReached(service, last, s.latest);
  }

  /** Support lines and pre-releases never touch Latest. */
  lemma {:induction false} FamilyLeavesLatest(
    targets: seq<Target>, w: World, rest: seq<Target>, authority: Authority)
    requires Quiet(targets, w) && forall t :: t in rest ==> t in targets
    requires forall t :: t in rest ==> AuthorityHolds(w.store, t.source, authority)
    requires forall t :: t in rest ==>
      w.service.rank(t.tag).Some? && (t.line.Support? || w.service.rank(t.tag).value.version.pre != "")
    ensures var r := FinalizeAll(w, rest, authority);
      r.Done? ==> r.world.store.latest == w.store.latest
    decreases |rest|
  {
    hide FinalizePackage, VerifyBound, Reads, Evolves, Follows, AuthorityHolds, TargetOk, Missed, Steady;
    if rest != [] {
      var bound := VerifyBound(w, rest[0].source, authority);
      VerifyQuiet(w, rest[0].source, authority);
      if bound.Done? {
        PackageQuiet(targets, bound.world, rest[0], authority);
        var done := FinalizePackage(bound.world, rest[0], authority);
        if done.Done? {
          AuthorityLasts(bound.world, done.world, rest[1..], authority);
          FamilyLeavesLatest(targets, done.world, rest[1..], authority);
        }
      }
    }
  }

  /**
   Whatever interrupts the attempts and however others move Latest forward between them, once
   Latest is at a package it never names an earlier package of the same version, or a lower version.
   */
  lemma EarlierNeverDisplaces(
    service: Service, s: Store, targets: seq<Target>, published: seq<bool>, source: Sha,
    attempts: seq<Attempt>, tag: string)
    requires Resumable(service, targets, s) && BenignAttempts(service, targets, attempts)
    requires s.latest.Some? && service.rank(tag).Some?
    requires var latest, rank := service.rank(s.latest.value.tagName).value, service.rank(tag).value;
      Less(rank.version, latest.version) || (rank.version == latest.version && rank.ordinal < latest.ordinal)
    ensures var after := AfterAttempts(service, s, targets, published, source, attempts);
      after.latest.Some? && after.latest.value.tagName != tag
  {
    hide AfterAttempts, TargetOk, BenignAttempts, SemVer.Compare;
    AttemptsProgress(service, s, targets, published, source, attempts);
    OrderSymmetry(service.rank(s.latest.value.tagName).value.version, service.rank(tag).value.version);
  }
}
