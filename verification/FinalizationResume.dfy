/**
 Interrupted finalization resumes: what every cut-off, failed or complete run keeps, and what
 one undisturbed run then reaches.
 */
module FinalizationResume {
  import opened Wrappers
  import opened SemVer
  import opened ReleasePolicy
  import opened Forge
  import opened Finalization

  // The states between runs.

  /** Addresses of the family's payloads that do not collide, the App's identity, immutable Releases, readable tags. */
  ghost predicate Dependable(service: Service, targets: seq<Target>) {
    && (forall t :: t in targets ==> IsSha(service.address(t.Payload())))
    && (forall t, u :: t in targets && u in targets && service.address(t.Payload()) == service.address(u.Payload()) ==>
          t.Payload() == u.Payload())
    && (forall tag :: service.rank(tag).Some? ==> service.rank(tag).value.version.build == "")
    && service.author == APP
    && service.immutable
    && (forall t :: t in targets ==> service.rank(t.tag).Some?)
    && (forall t, u :: t in targets && u in targets && t.tag == u.tag ==> t == u)
  }

  ghost predicate HasTag(s: Store, t: Target) {
    t.RefName() in s.refs
  }

  ghost predicate HasRelease(s: Store, t: Target) {
    t.tag in s.releases
  }

  ghost predicate ExactTag(s: Store, t: Target)
    requires HasTag(s, t)
  {
    var reference := s.refs[t.RefName()];
    ValidTagRef(reference, t) && reference.sha in s.objects && ValidTag(s.objects[reference.sha], t, reference.sha)
  }

  ghost predicate RanksLatest(service: Service, s: Store) {
    s.latest.Some? ==> CanonicalLatest(service, s.latest.value)
  }

  /** Whatever exists of the target is exact, a Release has its tag, and Latest is not behind it. */
  ghost predicate TargetOk(service: Service, s: Store, t: Target)
    requires service.rank(t.tag).Some? && RanksLatest(service, s)
  {
    && (HasTag(s, t) ==> ExactTag(s, t))
    && (var sha := service.address(t.Payload()); sha in s.objects ==> ValidTag(s.objects[sha], t, sha))
    && (HasRelease(s, t) ==>
          HasTag(s, t) && ValidRelease(s.releases[t.tag], t) && !Advances(service, t, s.latest))
    && (!t.line.Main? ==> s.latest.None? || s.latest.value.tagName != t.tag)
  }

  ghost predicate Resumable(service: Service, targets: seq<Target>, s: Store) {
    && Dependable(service, targets)
    && RanksLatest(service, s)
    && forall t :: t in targets ==> TargetOk(service, s, t)
  }

  ghost predicate LatestRises(service: Service, s: Store, after: Store)
    requires RanksLatest(service, s) && RanksLatest(service, after)
  {
    || after.latest == s.latest
    || (after.latest.Some? && (s.latest.Some? ==>
          RankLess(service.rank(s.latest.value.tagName).value, service.rank(after.latest.value.tagName).value)))
  }

  /** Existing tags and Releases of the family are kept as they are, and Latest never moves back. */
  ghost predicate Progress(service: Service, targets: seq<Target>, s: Store, after: Store)
    requires RanksLatest(service, s) && RanksLatest(service, after)
  {
    && (forall t :: t in targets && HasTag(s, t) ==> HasTag(after, t) && after.refs[t.RefName()] == s.refs[t.RefName()])
    && (forall t :: t in targets && HasRelease(s, t) ==>
          HasRelease(after, t) && after.releases[t.tag] == s.releases[t.tag])
    && LatestRises(service, s, after)
  }

  /** Other actors may do anything that keeps the family resumable, replaces nothing of it
      and never moves Latest back. */
  ghost predicate Friendly(service: Service, targets: seq<Target>, foreign: Store -> Store) {
    forall s :: Resumable(service, targets, s) ==>
      Resumable(service, targets, foreign(s)) && Progress(service, targets, s, foreign(s))
  }

  /** During an attempt they also leave Latest alone. */
  ghost predicate Benign(service: Service, targets: seq<Target>, turn: Turn) {
    && Friendly(service, targets, turn.foreign)
    && forall s :: Resumable(service, targets, s) ==> turn.foreign(s).latest == s.latest
  }

  /** A resumable store and a script of benign turns with any faults. */
  ghost predicate Calm(targets: seq<Target>, w: World) {
    Resumable(w.service, targets, w.store) && forall turn :: turn in w.turns ==> Benign(w.service, targets, turn)
  }

  /** A run keeps the family resumable and makes only progress. */
  ghost predicate Advanced(targets: seq<Target>, w: World, after: World) {
    Calm(targets, w) && Calm(targets, after) && after.service == w.service
    && Progress(w.service, targets, w.store, after.store)
  }

  // Ranks.

  lemma RankTransitive(a: Rank, b: Rank, c: Rank)
    requires RankLess(a, b) && RankLess(b, c)
    ensures RankLess(a, c)
  {
    if Less(a.version, b.version) && Less(b.version, c.version) {
      OrderTransitive(a.version, b.version, c.version);
    }
  }

  lemma RankIrreflexive(a: Rank)
    ensures !RankLess(a, a)
  {
    OrderSymmetry(a.version, a.version);
  }

  lemma ProgressTransitive(service: Service, targets: seq<Target>, a: Store, b: Store, c: Store)
    requires RanksLatest(service, a) && RanksLatest(service, b) && RanksLatest(service, c)
    requires Progress(service, targets, a, b) && Progress(service, targets, b, c)
    ensures Progress(service, targets, a, c)
  {
    hide RankLess;
    if a.latest != b.latest && b.latest != c.latest && a.latest.Some? {
      RankTransitive(service.rank(a.latest.value.tagName).value, service.rank(b.latest.value.tagName).value,
                     service.rank(c.latest.value.tagName).value);
    }
  }

  lemma Then(targets: seq<Target>, w: World, middle: World, after: World)
    requires Advanced(targets, w, middle) && Advanced(targets, middle, after)
    ensures Advanced(targets, w, after)
  {
    hide Progress;
    ProgressTransitive(w.service, targets, w.store, middle.store, after.store);
  }

  // Reads.

  /** What reads leave: benign changes by others, none to Latest. */
  lemma ReadsAdvance(targets: seq<Target>, w: World, after: World)
    requires Calm(targets, w) && Reads(w, after)
    ensures Advanced(targets, w, after) && after.store.latest == w.store.latest
  {
    hide TargetOk, Progress, RanksLatest;
    var invariant_ := (s: Store) => Near(w.service, targets, w.store, s);
    SelfNear(w.service, targets, w.store);
    forall turn, s | turn in w.turns && invariant_(s)
      ensures invariant_(turn.foreign(s))
    {
      NearStep(w.service, targets, w.store, s, turn);
    }
    assert Kept(invariant_, w.turns);
    assert invariant_(after.store);
  }

  ghost predicate Near(service: Service, targets: seq<Target>, start: Store, s: Store) {
    && Resumable(service, targets, start) && Resumable(service, targets, s)
    && Progress(service, targets, start, s)
    && s.latest == start.latest
  }

  lemma SelfNear(service: Service, targets: seq<Target>, s: Store)
    requires Resumable(service, targets, s)
    ensures Near(service, targets, s, s)
  {
  }

  lemma NearStep(service: Service, targets: seq<Target>, start: Store, s: Store, turn: Turn)
    requires Near(service, targets, start, s) && Benign(service, targets, turn)
    ensures Near(service, targets, start, turn.foreign(s))
  {
    hide TargetOk, Progress;
    ProgressTransitive(service, targets, start, s, turn.foreign(s));
  }

  // Creations.

  /** The store as a call finds it. */
  ghost function Arrival(w: World): Store {
    if w.turns == [] then w.store else w.turns[0].foreign(w.store)
  }

  ghost predicate Harmless(service: Service, targets: seq<Target>, s: Store, call: Call) {
    var after := Serve(service, s, call).0;
    Resumable(service, targets, s) && Resumable(service, targets, after) && Progress(service, targets, s, after)
  }

  lemma ArrivalNear(targets: seq<Target>, w: World)
    requires Calm(targets, w)
    ensures Near(w.service, targets, w.store, Arrival(w))
  {
    hide TargetOk, Progress;
    SelfNear(w.service, targets, w.store);
    if w.turns != [] {
      NearStep(w.service, targets, w.store, w.store, w.turns[0]);
    }
  }

  /** A harmless call makes progress, whether it fails, loses its reply, is cut off or succeeds. */
  lemma ExchangeAdvances(targets: seq<Target>, w: World, call: Call)
    requires Calm(targets, w) && Harmless(w.service, targets, Arrival(w), call)
    ensures Advanced(targets, w, Exchange(w, call).world)
    ensures Exchange(w, call).Done? ==>
      (Exchange(w, call).world.store, Exchange(w, call).value) == Serve(w.service, Arrival(w), call)
  {
    hide Resumable, Progress, Serve;
    ArrivalNear(targets, w);
    var after := Serve(w.service, Arrival(w), call).0;
    ProgressTransitive(w.service, targets, w.store, Arrival(w), after) by {
      RankedWhenResumable(w.service, targets, w.store);
      RankedWhenResumable(w.service, targets, Arrival(w));
      RankedWhenResumable(w.service, targets, after);
    }
  }

  lemma RankedWhenResumable(service: Service, targets: seq<Target>, s: Store)
    requires Resumable(service, targets, s)
    ensures RanksLatest(service, s)
  {
  }

  lemma TagObjectHarmless(service: Service, targets: seq<Target>, s: Store, t: Target)
    requires Resumable(service, targets, s) && t in targets
    ensures Harmless(service, targets, s, PostTagObject(t.Payload()))
  {
    hide Advances, ValidRelease, CanonicalLatest;
    var after := Serve(service, s, PostTagObject(t.Payload())).0;
    forall u | u in targets
      ensures TargetOk(service, after, u)
    {
      assert TargetOk(service, s, u);
      assert service.address(u.Payload()) == service.address(t.Payload()) ==> u.Payload() == t.Payload();
    }
  }

  lemma RefNamesDiffer(t: Target, u: Target)
    requires t.RefName() == u.RefName()
    ensures t.tag == u.tag
  {
    assert t.RefName()[10..] == t.tag;
    assert u.RefName()[10..] == u.tag;
  }

  lemma TagRefHarmless(service: Service, targets: seq<Target>, s: Store, t: Target)
    requires Resumable(service, targets, s) && t in targets
    ensures Harmless(service, targets, s, PostTagRef(t.RefName(), service.address(t.Payload())))
  {
    hide Advances, ValidRelease, CanonicalLatest;
    var after := Serve(service, s, PostTagRef(t.RefName(), service.address(t.Payload()))).0;
    forall u | u in targets
      ensures TargetOk(service, after, u)
    {
      assert TargetOk(service, s, u);
      assert TargetOk(service, s, t);
      if u.RefName() == t.RefName() {
        RefNamesDiffer(t, u);
      }
    }
  }

  /** A guard taken when Latest was what it still is. */
  ghost predicate GuardHolds(service: Service, s: Store, t: Target, guard: Guard)
    requires service.rank(t.tag).Some? && RanksLatest(service, s)
  {
    guard == Guard(s.latest, t.tag, Advances(service, t, s.latest))
  }

  lemma LatestStaysAhead(service: Service, s: Store, t: Target, u: Target, id: nat)
    requires RanksLatest(service, s) && service.rank(t.tag).Some? && service.rank(u.tag).Some?
    requires Advances(service, t, s.latest) && !Advances(service, u, s.latest)
    ensures !Advances(service, u, Some(Latest(id, t.tag)))
  {
    hide RankLess;
    var new_, other := service.rank(t.tag).value, service.rank(u.tag).value;
    if s.latest.Some? && RankLess(new_, other) {
      RankTransitive(service.rank(s.latest.value.tagName).value, new_, other);
    }
  }

  lemma ReleaseHarmless(service: Service, targets: seq<Target>, s: Store, t: Target, guard: Guard)
    requires Resumable(service, targets, s) && t in targets && HasTag(s, t) && GuardHolds(service, s, t, guard)
    ensures Harmless(service, targets, s, PostRelease(ReleaseRequest(t, guard)))
  {
    hide RankLess, ValidTag, ValidTagRef;
    var after := Serve(service, s, PostRelease(ReleaseRequest(t, guard))).0;
    RankIrreflexive(service.rank(t.tag).value);
    assert TargetOk(service, s, t);
    forall u | u in targets
      ensures TargetOk(service, after, u)
    {
      assert TargetOk(service, s, u);
      if guard.advance && u.tag != t.tag && !Advances(service, u, s.latest) {
        LatestStaysAhead(service, s, t, u, s.lastId + 1);
      }
    }
  }

  // Runs under any faults and benign interference.

  lemma InspectTagSees(targets: seq<Target>, w: World, t: Target)
    requires Calm(targets, w) && t in targets
    ensures var r := InspectTag(w, t);
      && Advanced(targets, w, r.world) && r.world.store.latest == w.store.latest
      && (r.Done? && r.value.Some? ==> HasTag(r.world.store, t))
      && (r.Done? && r.value.None? ==> !HasTag(w.store, t))
  {
    hide Resumable, Reads, GetTagObject, ValidTag, ValidTagRef, LatestRises, Benign;
    var found := GetRef(w, t.RefName());
    ArrivalNear(targets, w);
    ReadsAdvance(targets, w, InspectTag(w, t).world);
    if found.Done? {
      ReadsAdvance(targets, w, found.world);
      if found.value.Some? {
        var read := GetTagObject(found.world, found.value.value.sha);
        ReadsAdvance(targets, found.world, read.world);
      }
    }
  }

  lemma RequireTagSees(targets: seq<Target>, w: World, t: Target, sha: Sha)
    requires Calm(targets, w) && t in targets
    ensures var r := RequireExactTagObject(w, t, sha);
      && Advanced(targets, w, r.world) && r.world.store.latest == w.store.latest
      && (r.Done? ==> HasTag(r.world.store, t))
  {
    hide InspectTag, Reads, Calm, Advanced;
    InspectTagSees(targets, w, t);
    ReadsAdvance(targets, w, RequireExactTagObject(w, t, sha).world);
  }

  lemma InspectReleaseSees(targets: seq<Target>, w: World, t: Target)
    requires Calm(targets, w) && t in targets
    ensures var r := InspectRelease(w, t);
      && Advanced(targets, w, r.world) && r.world.store.latest == w.store.latest
      && (r.Done? && r.value ==> HasRelease(r.world.store, t) && HasTag(r.world.store, t))
      && (r.Done? && !r.value ==> !HasRelease(w.store, t))
  {
    hide Reads, ValidTag, ValidTagRef, LatestRises, Benign, Advances;
    ArrivalNear(targets, w);
    ReadsAdvance(targets, w, InspectRelease(w, t).world);
    assert TargetOk(w.service, Arrival(w), t);
  }

  lemma CreateTagObjectAdvances(targets: seq<Target>, w: World, t: Target, authority: Authority)
    requires Calm(targets, w) && t in targets
    ensures var r := CreateTagObject(w, t, authority);
      Advanced(targets, w, r.world) && (r.Done? ==> r.value == w.service.address(t.Payload()))
  {
    hide Rebind, Reads, ReadBack, Exchange, Progress, Near, Benign, Follows, Evolves;
    var bound := Rebind(w, t, authority);
    ReadsAdvance(targets, w, bound.world);
    if bound.Done? {
      var call := PostTagObject(t.Payload());
      ArrivalResumable(targets, bound.world);
      TagObjectHarmless(w.service, targets, Arrival(bound.world), t);
      ExchangeAdvances(targets, bound.world, call);
      var posted := Exchange(bound.world, call);
      Then(targets, w, bound.world, posted.world);
      if posted.Done? {
        assert TargetOk(w.service, Arrival(bound.world), t);
        var read := ReadBack(posted.world, t, posted.value.annotated);
        ReadsAdvance(targets, posted.world, read.world);
        Then(targets, w, posted.world, read.world);
      }
    }
  }

  lemma ArrivalResumable(targets: seq<Target>, w: World)
    requires Calm(targets, w)
    ensures Resumable(w.service, targets, Arrival(w)) && Arrival(w).latest == w.store.latest
    ensures forall t :: t in targets && HasTag(w.store, t) ==> HasTag(Arrival(w), t)
  {
    ArrivalNear(targets, w);
  }

  lemma CreateTagRefAdvances(targets: seq<Target>, w: World, t: Target, authority: Authority)
    requires Calm(targets, w) && t in targets
    ensures Advanced(targets, w, CreateTagRef(w, t, authority, w.service.address(t.Payload())).world)
  {
    hide Rebind, Reads, RequireExactTagObject, Exchange, Progress, Near, Benign, Follows, Evolves, Resumable;
    var sha := w.service.address(t.Payload());
    var bound := Rebind(w, t, authority);
    ReadsAdvance(targets, w, bound.world);
    if bound.Done? {
      ArrivalResumable(targets, bound.world);
      TagRefHarmless(w.service, targets, Arrival(bound.world), t);
      ExchangeAdvances(targets, bound.world, PostTagRef(t.RefName(), sha));
      var posted := Exchange(bound.world, PostTagRef(t.RefName(), sha));
      Then(targets, w, bound.world, posted.world);
      var check := RequireExactTagObject(posted.world, t, sha);
      ReadsAdvance(targets, posted.world, check.world);
      Then(targets, w, posted.world, check.world);
    }
  }

  lemma ReconcileTagAdvances(targets: seq<Target>, w: World, t: Target, authority: Authority)
    requires Calm(targets, w) && t in targets
    ensures var r := ReconcileTag(w, t, authority);
      Advanced(targets, w, r.world) && (r.Done? ==> HasTag(r.world.store, t))
  {
    hide InspectTag, CreateTagObject, CreateTagRef, RequireExactTagObject, Reads, Progress, Resumable, HasTag;
    var found := InspectTag(w, t);
    InspectTagSees(targets, w, t);
    if found.Done? && found.value.None? {
      var created := CreateTagObject(found.world, t, authority);
      CreateTagObjectAdvances(targets, found.world, t, authority);
      Then(targets, w, found.world, created.world);
      if created.Done? {
        var ref := CreateTagRef(created.world, t, authority, created.value);
        CreateTagRefAdvances(targets, created.world, t, authority);
        Then(targets, w, created.world, ref.world);
        var check := RequireExactTagObject(ref.world, t, created.value);
        RequireTagSees(targets, ref.world, t, created.value);
        Then(targets, w, ref.world, check.world);
      }
    }
  }

  lemma CaptureGuards(targets: seq<Target>, w: World, t: Target)
    requires Calm(targets, w) && t in targets
    ensures var r := Capture(w, t);
      && Advanced(targets, w, r.world) && r.world.store.latest == w.store.latest
      && (r.Done? ==> GuardHolds(w.service, w.store, t, r.value))
  {
    hide Reads, TargetOk, Progress, Benign;
    ReadsAdvance(targets, w, Capture(w, t).world);
    ArrivalNear(targets, w);
  }

  lemma CreateReleaseAdvances(
    targets: seq<Target>, w: World, t: Target, authority: Authority, sha: Sha, guard: Guard)
    requires Calm(targets, w) && t in targets && GuardHolds(w.service, w.store, t, guard)
    ensures Advanced(targets, w, CreateRelease(w, t, authority, sha, guard).world)
  {
    hide Rebind, Reads, RequireExactTagObject, RequireUnchanged, AfterFailedRelease, Exchange;
    hide Progress, Near, Benign, Follows, Evolves, TargetOk, Advances, HasTag, ValidRelease;
    var bound := Rebind(w, t, authority);
    ReadsAdvance(targets, w, bound.world);
    if bound.Done? {
      var tagged := RequireExactTagObject(bound.world, t, sha);
      RequireTagSees(targets, bound.world, t, sha);
      Then(targets, w, bound.world, tagged.world);
      if tagged.Done? {
        var latest := RequireUnchanged(tagged.world, guard);
        ReadsKeepTag(targets, tagged.world, latest.world, t);
        Then(targets, w, tagged.world, latest.world);
        if latest.Done? {
          ReleasePostAdvances(targets, latest.world, t, guard);
          var posted := Exchange(latest.world, PostRelease(ReleaseRequest(t, guard)));
          Then(targets, w, latest.world, posted.world);
          if posted.Failed? {
            var recovery := AfterFailedRelease(posted.world, t, sha, posted.error);
            ReadsAdvance(targets, posted.world, recovery.world);
            Then(targets, w, posted.world, recovery.world);
          }
        }
      }
    }
  }

  lemma ReadsKeepTag(targets: seq<Target>, w: World, after: World, t: Target)
    requires Calm(targets, w) && Reads(w, after) && t in targets && HasTag(w.store, t)
    ensures Advanced(targets, w, after) && after.store.latest == w.store.latest && HasTag(after.store, t)
  {
    hide Reads, Calm;
    ReadsAdvance(targets, w, after);
  }

  lemma ReleasePostAdvances(targets: seq<Target>, w: World, t: Target, guard: Guard)
    requires Calm(targets, w) && t in targets && HasTag(w.store, t) && GuardHolds(w.service, w.store, t, guard)
    ensures Advanced(targets, w, Exchange(w, PostRelease(ReleaseRequest(t, guard))).world)
  {
    hide Exchange, Serve, Progress, Benign, TargetOk, Advances;
    ArrivalResumable(targets, w);
    ReleaseHarmless(w.service, targets, Arrival(w), t, guard);
    ExchangeAdvances(targets, w, PostRelease(ReleaseRequest(t, guard)));
  }

  lemma ConfirmSees(targets: seq<Target>, w: World, t: Target, sha: Sha, guard: Guard)
    requires Calm(targets, w) && t in targets && HasTag(w.store, t) && HasRelease(w.store, t)
    ensures var r := Confirm(w, t, sha, guard);
      Advanced(targets, w, r.world) && HasTag(r.world.store, t) && HasRelease(r.world.store, t)
  {
    hide Reads, Calm, Confirm;
    ReadsAdvance(targets, w, Confirm(w, t, sha, guard).world);
  }

  lemma ReconcileReleaseAdvances(targets: seq<Target>, w: World, t: Target, authority: Authority, sha: Sha)
    requires Calm(targets, w) && t in targets
    ensures var r := ReconcileRelease(w, t, authority, sha);
      && Advanced(targets, w, r.world)
      && (r.Done? ==> HasTag(r.world.store, t) && HasRelease(r.world.store, t))
  {
    hide Capture, InspectRelease, CreateRelease, Confirm, Reads, Progress, Benign, TargetOk,
         Advances, HasTag, HasRelease;
    var captured := Capture(w, t);
    CaptureGuards(targets, w, t);
    if captured.Done? {
      var found := InspectRelease(captured.world, t);
      InspectReleaseSees(targets, captured.world, t);
      Then(targets, w, captured.world, found.world);
      if found.Done? && found.value {
        ConfirmSees(targets, found.world, t, sha, captured.value);
        Then(targets, w, found.world, Confirm(found.world, t, sha, captured.value).world);
      } else if found.Done? {
        var created := CreateRelease(found.world, t, authority, sha, captured.value);
        CreateReleaseAdvances(targets, found.world, t, authority, sha, captured.value);
        Then(targets, w, found.world, created.world);
        if created.Done? {
          var retained := InspectRelease(created.world, t);
          InspectReleaseSees(targets, created.world, t);
          Then(targets, w, created.world, retained.world);
          if retained.Done? && retained.value {
            ConfirmSees(targets, retained.world, t, sha, captured.value);
            Then(targets, w, retained.world, Confirm(retained.world, t, sha, captured.value).world);
          }
        }
      }
    }
  }

  lemma PackageAdvances(targets: seq<Target>, w: World, t: Target, authority: Authority)
    requires Calm(targets, w) && t in targets
    ensures var r := FinalizePackage(w, t, authority);
      && Advanced(targets, w, r.world)
      && (r.Done? ==> HasTag(r.world.store, t) && HasRelease(r.world.store, t))
  {
    hide ReconcileTag, ReconcileRelease, Progress, Resumable, HasTag, HasRelease;
    var tagged := ReconcileTag(w, t, authority);
    ReconcileTagAdvances(targets, w, t, authority);
    if tagged.Done? {
      ReconcileReleaseAdvances(targets, tagged.world, t, authority, tagged.value);
      Then(targets, w, tagged.world, ReconcileRelease(tagged.world, t, authority, tagged.value).world);
    }
  }

  ghost predicate Complete(targets: seq<Target>, s: Store) {
    forall t :: t in targets ==> HasTag(s, t) && HasRelease(s, t)
  }

  /**
   However a family's finalization fails, is cut off or loses replies, and whatever benign
   actors do meanwhile, the family stays resumable, nothing of it is replaced, Latest never
   moves back, and success means that every tag and Release exists.
   */
  lemma {:induction false} FamilyAdvances(
    targets: seq<Target>, w: World, rest: seq<Target>, authority: Authority)
    requires Calm(targets, w) && forall t :: t in rest ==> t in targets
    ensures var r := FinalizeAll(w, rest, authority);
      Advanced(targets, w, r.world) && (r.Done? ==> Complete(rest, r.world.store))
    decreases |rest|
  {
    hide VerifyBound, FinalizePackage, Reads, LatestRises, Resumable, Benign;
    if rest == [] {
      hide Progress;
      SelfAdvanced(targets, w);
    } else {
      var bound := VerifyBound(w, rest[0].source, authority);
      ReadsAdvance(targets, w, bound.world);
      if bound.Done? {
        var done := FinalizePackage(bound.world, rest[0], authority);
        PackageAdvances(targets, bound.world, rest[0], authority);
        Then(targets, w, bound.world, done.world);
        if done.Done? {
          FamilyAdvances(targets, done.world, rest[1..], authority);
          Then(targets, w, done.world, FinalizeAll(done.world, rest[1..], authority).world);
        }
      }
    }
  }

  lemma SelfAdvanced(targets: seq<Target>, w: World)
    requires Calm(targets, w)
    ensures Advanced(targets, w, w)
  {
    SelfNear(w.service, targets, w.store);
  }
}
