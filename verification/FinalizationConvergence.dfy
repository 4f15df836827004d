/** From every resumable state one undisturbed run completes the family, and later runs post nothing. */
module FinalizationConvergence {
  import opened Wrappers
  import opened ReleasePolicy
  import opened Forge
  import opened Finalization
  import opened FinalizationResume
  import opened FinalizationQuiet

  // Nothing is left to post.

  lemma CompletePackageReads(targets: seq<Target>, w: World, t: Target, authority: Authority)
    requires Calm(targets, w) && t in targets && HasTag(w.store, t) && HasRelease(w.store, t)
    ensures Reads(w, FinalizePackage(w, t, authority).world)
  {
    hide InspectTag, CreateTagObject, CreateTagRef, Capture, InspectRelease, CreateRelease, Confirm;
    hide Reads, Resumable, LatestRises, Benign;
    var found := InspectTag(w, t);
    InspectTagSees(targets, w, t);
    if found.Done? {
      var sha := found.value.value;
      var captured := Capture(found.world, t);
      CaptureGuards(targets, found.world, t);
      ReadsThen(w, found.world, captured.world);
      if captured.Done? {
        var release := InspectRelease(captured.world, t);
        InspectReleaseSees(targets, captured.world, t);
        ReadsThen(w, captured.world, release.world);
        if release.Done? {
          ReadsThen(w, release.world, Confirm(release.world, t, sha, captured.value).world);
        }
      }
    }
  }

  /** Once the family is complete, no run posts anything, whatever faults and benign changes it meets. */
  lemma {:induction false} CompleteFamilyReads(
    targets: seq<Target>, w: World, rest: seq<Target>, authority: Authority)
    requires Calm(targets, w) && Complete(targets, w.store) && forall t :: t in rest ==> t in targets
    ensures Reads(w, FinalizeAll(w, rest, authority).world)
    decreases |rest|
  {
    hide VerifyBound, FinalizePackage, Reads, Resumable, LatestRises, Benign;
    if rest == [] {
      SelfReads(w);
    } else {
      var bound := VerifyBound(w, rest[0].source, authority);
      ReadsAdvance(targets, w, bound.world);
      if bound.Done? {
        var done := FinalizePackage(bound.world, rest[0], authority);
        CompletePackageReads(targets, bound.world, rest[0], authority);
        ReadsAdvance(targets, bound.world, done.world);
        ReadsThen(w, bound.world, done.world);
        if done.Done? {
          CompleteFamilyReads(targets, done.world, rest[1..], authority);
          ReadsThen(w, done.world, FinalizeAll(done.world, rest[1..], authority).world);
        }
      }
    }
  }

  lemma SelfReads(w: World)
    ensures Reads(w, w)
  {
  }

  // Whole attempts, from reading main to the last package.

  lemma AttemptAdvances(
    targets: seq<Target>, w: World, published: seq<bool>, source: Sha, binding: Option<Binding>)
    requires Calm(targets, w)
    ensures var r := Finalize(w, published, targets, source, binding);
      && Advanced(targets, w, r.world)
      && (r.Done? ==> Complete(targets, r.world.store) && AllPublished(published))
      && (!AllPublished(published) ==> Reads(w, r.world) && !r.Done?)
  {
    hide Preflight, FinalizeAll, Reads, Resumable, Progress, Benign;
    var ready := Preflight(w, published, source, binding);
    ReadsAdvance(targets, w, ready.world);
    if ready.Done? {
      FamilyAdvances(targets, ready.world, targets, ready.value);
      Then(targets, w, ready.world, FinalizeAll(ready.world, targets, ready.value).world);
    }
  }

  lemma CompleteAttemptReads(
    targets: seq<Target>, w: World, published: seq<bool>, source: Sha, binding: Option<Binding>)
    requires Calm(targets, w) && Complete(targets, w.store)
    ensures Reads(w, Finalize(w, published, targets, source, binding).world)
  {
    hide Preflight, FinalizeAll, Reads, Resumable, LatestRises, Benign;
    var ready := Preflight(w, published, source, binding);
    ReadsAdvance(targets, w, ready.world);
    if ready.Done? {
      CompleteFamilyReads(targets, ready.world, targets, ready.value);
      ReadsThen(w, ready.world, FinalizeAll(ready.world, targets, ready.value).world);
    }
  }

  /**
   From a resumable store, an attempt whose authority holds and that nobody interferes with
   completes the family, whichever replies to its creations of refs and Releases are lost: it can
   only fail by missing the reply to a read or to the creation of a tag object.
   */
  lemma AttemptSucceeds(
    targets: seq<Target>, w: World, published: seq<bool>, source: Sha, binding: Option<Binding>)
    requires Quiet(targets, w) && AllPublished(published) && Permitted(w.store, targets, source, binding)
    ensures var r := Finalize(w, published, targets, source, binding);
      && (r.Done? || Missed(w, r.world))
      && (r.Done? ==> Resumable(w.service, targets, r.world.store) && Complete(targets, r.world.store))
  {
    hide Preflight, FinalizeAll, Reads, Resumable, Progress, Benign, AuthorityHolds, Missed, Steady;
    PreflightQuiet(w, published, targets, source, binding);
    var ready := Preflight(w, published, source, binding);
    if ready.Done? {
      FamilyQuiet(targets, ready.world, targets, ready.value);
    }
    CalmWhenQuiet(targets, w);
    AttemptAdvances(targets, w, published, source, binding);
  }

  /** One attempt's script: what others did since the last one, what they and the network do during it,
      and its binding. */
  datatype Attempt = Attempt(before: Store -> Store, turns: seq<Turn>, binding: Option<Binding>)

  ghost predicate BenignAttempts(service: Service, targets: seq<Target>, attempts: seq<Attempt>) {
    forall a :: a in attempts ==>
      Friendly(service, targets, a.before) && forall turn :: turn in a.turns ==> Benign(service, targets, turn)
  }

  function WorldOf(service: Service, s: Store, a: Attempt): World {
    World(service, a.before(s), a.turns, [])
  }

  /** The store after all attempts, each starting where the previous one stopped for whatever reason. */
  function AfterAttempts(
    service: Service, s: Store, targets: seq<Target>, published: seq<bool>, source: Sha, attempts: seq<Attempt>): Store
    decreases |attempts|
  {
    hide Finalize;
    if attempts == [] then s
    else
      var after := Finalize(WorldOf(service, s, attempts[0]), published, targets, source, attempts[0].binding);
      AfterAttempts(service, after.world.store, targets, published, source, attempts[1..])
  }

  lemma StartsCalm(service: Service, s: Store, targets: seq<Target>, attempts: seq<Attempt>, a: Attempt)
    requires Resumable(service, targets, s) && BenignAttempts(service, targets, attempts) && a in attempts
    ensures Calm(targets, WorldOf(service, s, a)) && Progress(service, targets, s, a.before(s))
  {
    hide Progress, Resumable, Benign;
  }

  lemma {:induction false} AttemptsProgress(
    service: Service, s: Store, targets: seq<Target>, published: seq<bool>, source: Sha, attempts: seq<Attempt>)
    requires Resumable(service, targets, s) && BenignAttempts(service, targets, attempts)
    ensures var after := AfterAttempts(service, s, targets, published, source, attempts);
      Resumable(service, targets, after) && Progress(service, targets, s, after)
    decreases |attempts|
  {
    hide Finalize, Reads, TargetOk, LatestRises, Complete, Friendly, Benign;
    if attempts == [] {
      SelfAdvanced(targets, World(service, s, [], []));
    } else {
      var w := WorldOf(service, s, attempts[0]);
      StartsCalm(service, s, targets, attempts, attempts[0]);
      AttemptAdvances(targets, w, published, source, attempts[0].binding);
      var next := Finalize(w, published, targets, source, attempts[0].binding).world.store;
      ProgressTransitive(service, targets, s, w.store, next);
      AttemptsProgress(service, next, targets, published, source, attempts[1..]);
      var after := AfterAttempts(service, next, targets, published, source, attempts[1..]);
      ProgressTransitive(service, targets, s, next, after);
    }
  }

  lemma ProgressKeepsComplete(service: Service, targets: seq<Target>, s: Store, after: Store)
    requires RanksLatest(service, s) && RanksLatest(service, after)
    requires Complete(targets, s) && Progress(service, targets, s, after)
    ensures Complete(targets, after)
  {
  }

  /** However many attempts follow a complete family, the one after them posts nothing either. */
  lemma LaterAttemptsRead(
    service: Service, s: Store, targets: seq<Target>, published: seq<bool>, source: Sha,
    laters: seq<Attempt>, last: Attempt)
    requires Resumable(service, targets, s) && Complete(targets, s)
    requires BenignAttempts(service, targets, laters) && BenignAttempts(service, targets, [last])
    ensures var w := WorldOf(service, AfterAttempts(service, s, targets, published, source, laters), last);
      forall e :: e in Finalize(w, published, targets, source, last.binding).world.trace ==> !e.call.IsPost()
  {
    hide Finalize, TargetOk, Progress, LatestRises, Complete, Friendly, Benign;
    AttemptsProgress(service, s, targets, published, source, laters);
    var after := AfterAttempts(service, s, targets, published, source, laters);
    ProgressKeepsComplete(service, targets, s, after);
    StartsCalm(service, after, targets, [last], last);
    ProgressKeepsComplete(service, targets, after, last.before(after));
    CompleteAttemptReads(targets, WorldOf(service, after, last), published, source, last.binding);
  }

  /**
   Crash-resume convergence. After any number of attempts, each failed or cut off anywhere
   and with any replies lost, one undisturbed attempt succeeds: every package has its exact
   tag and Release, and everything that existed before is unchanged. After any number of
   further attempts, again disturbed in any way, still none of them posts anything.
   */
  lemma Converges(
    service: Service, s: Store, targets: seq<Target>, published: seq<bool>, source: Sha,
    attempts: seq<Attempt>, binding: Option<Binding>, laters: seq<Attempt>, last: Attempt)
    requires Resumable(service, targets, s) && AllPublished(published)
    requires BenignAttempts(service, targets, attempts)
    requires BenignAttempts(service, targets, laters) && BenignAttempts(service, targets, [last])
    requires Permitted(AfterAttempts(service, s, targets, published, source, attempts), targets, source, binding)
    ensures var resumed := AfterAttempts(service, s, targets, published, source, attempts);
      var r := Finalize(World(service, resumed, [], []), published, targets, source, binding);
      && r.Done? && Complete(targets, r.world.store) && Resumable(service, targets, r.world.store)
      && Progress(service, targets, s, r.world.store)
      && var w := WorldOf(service, AfterAttempts(service, r.world.store, targets, published, source, laters), last);
         forall e :: e in Finalize(w, published, targets, source, last.binding).world.trace ==> !e.call.IsPost()
  {
    hide Finalize, TargetOk, Progress, LatestRises, Complete, AuthorityHolds, BenignAttempts;
    AttemptsProgress(service, s, targets, published, source, attempts);
    var resumed := AfterAttempts(service, s, targets, published, source, attempts);
    var w := World(service, resumed, [], []);
    AttemptSucceeds(targets, w, published, source, binding);
    CalmWhenQuiet(targets, w);
    AttemptAdvances(targets, w, published, source, binding);
    var done := Finalize(w, published, targets, source, binding).world.store;
    ProgressTransitive(service, targets, s, resumed, done);
    LaterAttemptsRead(service, done, targets, published, source, laters, last);
  }

  // Crashes alone.

  ghost predicate CrashesOnly(attempts: seq<Attempt>) {
    forall a :: a in attempts ==> (forall s: Store :: a.before(s) == s) && FaultsOnly(a.turns)
  }

  lemma CrashesAreBenign(service: Service, targets: seq<Target>, attempts: seq<Attempt>)
    requires CrashesOnly(attempts)
    ensures BenignAttempts(service, targets, attempts)
  {
    hide TargetOk;
  }

  /** Nothing a finalization does takes its own permission away. */
  lemma ServedKeepsPermitted(service: Service, targets: seq<Target>, source: Sha, binding: Option<Binding>)
    ensures Served((s: Store) => Permitted(s, targets, source, binding), service)
  {
    forall s, call | Permitted(s, targets, source, binding)
      ensures Permitted(Serve(service, s, call).0, targets, source, binding)
    {
      var after := Serve(service, s, call).0;
      var authority := Authority(s.refs[MAIN_REF].sha, binding);
      ServeKeepsAuthority(service, s, call, source, authority);
      forall t | t in targets
        ensures AuthorityHolds(after, t.source, authority)
      {
        ServeKeepsAuthority(service, s, call, t.source, authority);
      }
    }
  }

  lemma CrashKeepsPermitted(
    w: World, published: seq<bool>, targets: seq<Target>, source: Sha,
    during: Option<Binding>, binding: Option<Binding>)
    requires Permitted(w.store, targets, source, binding)
    requires FaultsOnly(w.turns)
    ensures Permitted(Finalize(w, published, targets, source, during).world.store, targets, source, binding)
  {
    hide Permitted, Preflight, FinalizeAll, Serve;
    var invariant_ := (s: Store) => Permitted(s, targets, source, binding);
    ServedKeepsPermitted(w.service, targets, source, binding);
    var ready := Preflight(w, published, source, during);
    assert Kept(invariant_, w.turns);
    ReadsKeep(w, ready.world, invariant_);
    if ready.Done? {
      assert Kept(invariant_, ready.world.turns);
      assert invariant_(FinalizeAll(ready.world, targets, ready.value).world.store);
    }
  }

  lemma {:induction false} CrashesKeepPermitted(
    service: Service, s: Store, targets: seq<Target>, published: seq<bool>, source: Sha,
    attempts: seq<Attempt>, binding: Option<Binding>)
    requires Permitted(s, targets, source, binding) && CrashesOnly(attempts)
    ensures Permitted(AfterAttempts(service, s, targets, published, source, attempts), targets, source, binding)
    decreases |attempts|
  {
    hide Permitted, Finalize;
    if attempts != [] {
      var w := WorldOf(service, s, attempts[0]);
      assert attempts[0] in attempts;
      CrashKeepsPermitted(w, published, targets, source, attempts[0].binding, binding);
      var next := Finalize(w, published, targets, source, attempts[0].binding).world.store;
      CrashesKeepPermitted(service, next, targets, published, source, attempts[1..], binding);
    }
  }

  /** Against crashes alone, a permission that held before the first attempt is all that convergence needs. */
  lemma CrashesConverge(
    service: Service, s: Store, targets: seq<Target>, published: seq<bool>, source: Sha,
    attempts: seq<Attempt>, binding: Option<Binding>)
    requires Resumable(service, targets, s) && AllPublished(published)
    requires CrashesOnly(attempts) && Permitted(s, targets, source, binding)
    ensures var resumed := AfterAttempts(service, s, targets, published, source, attempts);
      var r := Finalize(World(service, resumed, [], []), published, targets, source, binding);
      && r.Done? && Complete(targets, r.world.store) && Resumable(service, targets, r.world.store)
      && Progress(service, targets, s, r.world.store)
  {
    hide Finalize, Resumable, Progress, Complete, Permitted, BenignAttempts;
    CrashesAreBenign(service, targets, attempts);
    CrashesKeepPermitted(service, s, targets, published, source, attempts, binding);
    var last := Attempt(s => s, [], binding);
    CrashesAreBenign(service, targets, []);
    CrashesAreBenign(service, targets, [last]);
    Converges(service, s, targets, published, source, attempts, binding, [], last);
  }

  /** Tags, tag objects and Releases only accumulate. */
  ghost predicate Grows(s: Store, after: Store) {
    && (forall name :: name in s.refs && "refs/tags/" <= name ==>
          name in after.refs && after.refs[name] == s.refs[name])
    && (forall sha :: sha in s.objects ==> sha in after.objects && after.objects[sha] == s.objects[sha])
    && (forall tag :: tag in s.releases ==> tag in after.releases && after.releases[tag] == s.releases[tag])
  }

  /** Finalization itself never replaces or removes any tag, tag object or Release, exact or not. */
  lemma NothingReplaced(w: World, targets: seq<Target>, authority: Authority)
    requires forall turn, s :: turn in w.turns ==> Grows(s, turn.foreign(s))
    ensures Grows(w.store, FinalizeAll(w, targets, authority).world.store)
  {
    hide FinalizeAll;
    var after := FinalizeAll(w, targets, authority).world;
    var invariant_ := (s: Store) => Grows(w.store, s);
    forall turn, s | turn in w.turns && invariant_(s)
      ensures invariant_(turn.foreign(s))
    {
      assert Grows(s, turn.foreign(s));
    }
    assert Served(invariant_, w.service);
    assert invariant_(w.store);
    assert Kept(invariant_, w.turns);
    assert invariant_(after.store);
  }
}
