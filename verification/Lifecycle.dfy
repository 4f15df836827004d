/** A release over all its runs: qualification, in-order publication, and finalization, interrupted anywhere. */
module Lifecycle {
  import opened Wrappers
  import opened SemVer
  import opened ReleasePolicy
  import opened Forge
  import opened Finalization
  import opened FinalizationResume
  import opened FinalizationQuiet
  import opened FinalizationConvergence
  import opened LatestOrder
  import opened Registry

  // The family of one version.

  function TargetsFor(
    family: seq<PackagePolicy>, version: Version, line: ReleaseLine, source: Sha, date: string):
    (r: Result<seq<Target>, Error>)
    ensures r.Ok? ==> |r.value| == |family|
    ensures r.Ok? ==> forall i :: 0 <= i < |family| ==>
      Ok(r.value[i]) == TargetFor(family[i], version, line, source, date)
  {
    if family == [] then Ok([])
    else
      var first :- TargetFor(family[0], version, line, source, date);
      var rest :- TargetsFor(family[1..], version, line, source, date);
      Ok([first] + rest)
  }

  lemma TaggedHasNoBuild(package: PackagePolicy, version: Version, line: ReleaseLine, source: Sha, date: string)
    requires TargetFor(package, version, line, source, date).Ok?
    ensures version.build == ""
  {
    hide Version.Text;
    BuildShown(version);
    var tag := package.tagPrefix + version.Text();
    assert version.build != "" ==> '+' in tag;
  }

  /** A tag determines its package and its version, and the target is a pre-release exactly for pre-releases. */
  lemma TagsDetermine(
    i: nat, a: Version, line: ReleaseLine, source: Sha, date: string,
    j: nat, b: Version, other: ReleaseLine, otherSource: Sha, otherDate: string)
    requires i < |ALL_PACKAGES| && j < |ALL_PACKAGES|
    requires TargetFor(ALL_PACKAGES[i], a, line, source, date).Ok?
    requires TargetFor(ALL_PACKAGES[j], b, other, otherSource, otherDate).Ok?
    ensures var t := TargetFor(ALL_PACKAGES[i], a, line, source, date).value;
      var u := TargetFor(ALL_PACKAGES[j], b, other, otherSource, otherDate).value;
      && (t.tag == u.tag ==> i == j && a == b)
      && (t.prerelease <==> !a.Stable())
  {
    hide Version.Text, TagByte;
    TaggedHasNoBuild(ALL_PACKAGES[i], a, line, source, date);
    TaggedHasNoBuild(ALL_PACKAGES[j], b, other, otherSource, otherDate);
    if ALL_PACKAGES[i].tagPrefix + a.Text() == ALL_PACKAGES[j].tagPrefix + b.Text() {
      PrefixesDiffer(i, j, a.Text(), b.Text());
      TextInjective(a, b);
    }
  }

  /** No two packages of a version share a tag. */
  lemma FamilyTagsDiffer(version: Version, line: ReleaseLine, source: Sha, date: string, i: nat, j: nat)
    requires TargetsFor(ForVersion(version), version, line, source, date).Ok?
    requires i < j < |ForVersion(version)|
    ensures var targets := TargetsFor(ForVersion(version), version, line, source, date).value;
      targets[i].tag != targets[j].tag
  {
    hide TargetsFor, TargetFor;
    assert ForVersion(version)[i] == ALL_PACKAGES[i] && ForVersion(version)[j] == ALL_PACKAGES[j];
    TagsDetermine(i, version, line, source, date, j, version, line, source, date);
  }

  // Qualification.

  /** No forge object beside an incomplete publication, and no Release without its tag. */
  function RequireConsistent(w: World, targets: seq<Target>, states: seq<bool>): (r: Run<()>)
    ensures Reads(w, r.world)
    decreases |targets|
  {
    hide InspectTag, InspectRelease;
    if targets == [] then Done((), w)
    else
      var (tag, w) :- InspectTag(w, targets[0]);
      var (release, w) :- InspectRelease(w, targets[0]);
      if (tag.Some? || release) && !AllPublished(states) then Failed(ObjectsTooEarly, w)
      else if release && tag.None? then Failed(ReleaseWithoutTag, w)
      else RequireConsistent(w, targets[1..], states)
  }

  // The states of one release.

  datatype State = State(published: seq<bool>, store: Store, permit: Decision)

  const NOTHING := Decision(false, false)

  datatype Action =
    | Qualify(line: ReleaseLine, operation: Operation, confirmation: bool, turns: seq<Turn>)
    | Publish
    | Finish(turns: seq<Turn>, source: Sha, binding: Option<Binding>)

  /** Publication, one crate at a time in dependency order, and finalization each proceed only under a permit. */
  function Next(service: Service, targets: seq<Target>, s: State, action: Action): State {
    hide Finalize, RequireConsistent;
    match action
    case Qualify(line, operation, confirmation, turns) =>
      var run := RequireConsistent(World(service, s.store, turns, []), targets, s.published);
      var decision := RegistryDecision(operation, s.published, confirmation, |targets|);
      s.(store := run.world.store,
         permit := if Fits(operation, line) && run.Done? && decision.Ok? then decision.value else NOTHING)
    case Publish =>
      var k := Count(s.published);
      if s.permit.publish && k < |s.published| then s.(published := s.published[k := true]) else s
    case Finish(turns, source, binding) =>
      if !s.permit.finalize then s
      else s.(
        store := Finalize(World(service, s.store, turns, []), s.published, targets, source, binding).world.store,
        permit := NOTHING)
  }

  function After(service: Service, targets: seq<Target>, s: State, actions: seq<Action>): State
    decreases |actions|
  {
    hide Next;
    if actions == [] then s else After(service, targets, Next(service, targets, s, actions[0]), actions[1..])
  }

  /** Benign actors that create nothing of this family themselves. */
  ghost predicate Outsider(service: Service, targets: seq<Target>, turn: Turn) {
    && Benign(service, targets, turn)
    && forall s, t :: t in targets && Resumable(service, targets, s) ==>
         && (HasTag(turn.foreign(s), t) ==> HasTag(s, t))
         && (HasRelease(turn.foreign(s), t) ==> HasRelease(s, t))
  }

  ghost predicate Outsiders(service: Service, targets: seq<Target>, action: Action) {
    !action.Publish? ==> forall turn :: turn in action.turns ==> Outsider(service, targets, turn)
  }

  ghost predicate NoObjects(targets: seq<Target>, s: Store) {
    forall t :: t in targets ==> !HasTag(s, t) && !HasRelease(s, t)
  }

  /**
   The published crates are a dependency-order prefix; tags and Releases are exact, a Release
   has its tag, and none exists before every crate is published.
   */
  ghost predicate Sound(service: Service, targets: seq<Target>, s: State) {
    && |s.published| == |targets|
    && IsPrefix(s.published)
    && Resumable(service, targets, s.store)
    && (!AllPublished(s.published) ==> NoObjects(targets, s.store))
  }

  lemma ReadsCreateNothing(targets: seq<Target>, w: World, after: World)
    requires Calm(targets, w) && Reads(w, after) && NoObjects(targets, w.store)
    requires forall turn :: turn in w.turns ==> Outsider(w.service, targets, turn)
    ensures NoObjects(targets, after.store)
  {
    hide Resumable, Progress, HasTag, HasRelease, Reads;
    var invariant_ := (s: Store) => Resumable(w.service, targets, s) && NoObjects(targets, s);
    forall turn, s | turn in w.turns && invariant_(s)
      ensures invariant_(turn.foreign(s))
    {
      assert Outsider(w.service, targets, turn);
    }
    ReadsKeep(w, after, invariant_);
  }

  lemma {:induction false} CountAdds(states: seq<bool>, k: nat)
    requires IsPrefix(states) && k == Count(states) < |states|
    ensures IsPrefix(states[k := true]) && Count(states[k := true]) == k + 1
  {
    CountPrefix(states[k := true], k + 1);
  }

  lemma CountAll(states: seq<bool>)
    requires IsPrefix(states)
    ensures AllPublished(states) <==> Count(states) == |states|
  {
    if AllPublished(states) {
      CountPrefix(states, |states|);
    }
  }

  /** What one step keeps and how far it moves. */
  lemma StepSound(service: Service, targets: seq<Target>, s: State, action: Action)
    requires Sound(service, targets, s) && Outsiders(service, targets, action)
    ensures var next := Next(service, targets, s, action);
      && Sound(service, targets, next)
      && Progress(service, targets, s.store, next.store)
      && Count(s.published) <= Count(next.published) <= Count(s.published) + 1
      && (next.published != s.published ==>
            action.Publish? && s.permit.publish && Count(next.published) == Count(s.published) + 1)
  {
    hide Finalize, RequireConsistent, Reads, TargetOk, Progress, RanksLatest, Benign, HasTag, HasRelease, Complete;
    var w := World(service, s.store, if action.Publish? then [] else action.turns, []);
    assert Calm(targets, w);
    match action
    case Qualify(line, operation, confirmation, turns) =>
      var after := RequireConsistent(w, targets, s.published).world;
      ReadsAdvance(targets, w, after);
      if !AllPublished(s.published) {
        ReadsCreateNothing(targets, w, after);
      }
    case Publish =>
      SelfAdvanced(targets, w);
      CountAll(s.published);
      if Count(s.published) < |s.published| {
        CountAdds(s.published, Count(s.published));
      }
    case Finish(turns, source, binding) =>
      SelfAdvanced(targets, w);
      AttemptAdvances(targets, w, s.published, source, binding);
      if !AllPublished(s.published) {
        ReadsCreateNothing(targets, w, Finalize(w, s.published, targets, source, binding).world);
      }
  }

  /** Every state of every run is sound, publication only moves forward, and nothing is replaced. */
  lemma {:induction false} RunsSound(service: Service, targets: seq<Target>, s: State, actions: seq<Action>)
    requires Sound(service, targets, s)
    requires forall action :: action in actions ==> Outsiders(service, targets, action)
    ensures var after := After(service, targets, s, actions);
      && Sound(service, targets, after)
      && Progress(service, targets, s.store, after.store)
      && Count(s.published) <= Count(after.published)
    decreases |actions|
  {
    hide Next, TargetOk, Outsider, NoObjects, IsPrefix, LatestRises;
    if actions == [] {
      SelfAdvanced(targets, World(service, s.store, [], []));
    } else {
      assert actions[0] in actions;
      StepSound(service, targets, s, actions[0]);
      var next := Next(service, targets, s, actions[0]);
      RunsSound(service, targets, next, actions[1..]);
      ProgressTransitive(service, targets, s.store, next.store, After(service, targets, next, actions[1..]).store);
    }
  }

  /** A release that has not begun. */
  ghost predicate Unstarted(service: Service, targets: seq<Target>, s: State) {
    Dependable(service, targets) && Untouched(service, targets, s)
  }

  ghost predicate Untouched(service: Service, targets: seq<Target>, s: State) {
    && RanksLatest(service, s.store)
    && NoObjects(targets, s.store)
    && (forall t :: t in targets ==> service.address(t.Payload()) !in s.store.objects)
    && (forall t :: t in targets && !t.line.Main? ==> s.store.latest.None? || s.store.latest.value.tagName != t.tag)
    && |s.published| == |targets|
    && forall k :: 0 <= k < |s.published| ==> !s.published[k]
  }

  lemma UnstartedIsSound(service: Service, targets: seq<Target>, s: State)
    requires Unstarted(service, targets, s)
    ensures Sound(service, targets, s)
  {
    CountPrefix(s.published, 0);
  }

  /** In every run of a release, what is published never lacks an internal dependency. */
  lemma PublishedClosed(
    service: Service, targets: seq<Target>, family: seq<PackagePolicy>, s: State, actions: seq<Action>,
    i: nat, d: string)
    requires Unstarted(service, targets, s) && |family| == |targets| && DependencyOrdered(family)
    requires forall action :: action in actions ==> Outsiders(service, targets, action)
    requires i < |targets| && |After(service, targets, s, actions).published| == |targets|
    requires After(service, targets, s, actions).published[i] && d in family[i].internalDependencies
    ensures exists j :: 0 <= j < |targets| && family[j].package == d && After(service, targets, s, actions).published[j]
  {
    hide After, Progress, Resumable, Unstarted, Outsiders;
    UnstartedIsSound(service, targets, s);
    RunsSound(service, targets, s, actions);
    var j :| 0 <= j < i && family[j].package == d;
    assert After(service, targets, s, actions).published[j];
  }

  // No state is stuck.

  /** What exists of each package is exact, a Release has its tag, and nothing exists before all crates are out. */
  ghost predicate Consistent(s: Store, targets: seq<Target>, states: seq<bool>) {
    forall t :: t in targets ==>
      && (HasTag(s, t) ==> ExactTag(s, t))
      && (HasRelease(s, t) ==> HasTag(s, t) && ValidRelease(s.releases[t.tag], t))
      && (!AllPublished(states) ==> !HasTag(s, t) && !HasRelease(s, t))
  }

  /** Qualification accepts exactly consistent forge objects, whatever the store holds, unless a reply is lost. */
  lemma {:induction false} ConsistentExactly(w: World, targets: seq<Target>, states: seq<bool>)
    requires Steady(w.turns)
    ensures var r := RequireConsistent(w, targets, states);
      && Unmoved(w, r.world)
      && (r.Done? ==> Consistent(w.store, targets, states))
      && (Consistent(w.store, targets, states) ==> r.Done? || Missed(w, r.world))
    decreases |targets|
  {
    hide InspectTag, InspectRelease, Reads, ValidRelease, ExactTag, AllPublished, HasTag, HasRelease, Missed, Steady;
    if targets != [] {
      ExactTagQuiet(w, targets[0]);
      var w1 := InspectTag(w, targets[0]).world;
      ExactReleaseQuiet(w1, targets[0]);
      var w2 := InspectRelease(w1, targets[0]).world;
      ConsistentExactly(w2, targets[1..], states);
    }
  }

  /** The operation that takes a release of a line on from here. */
  function Resume(line: ReleaseLine, s: State): Operation {
    if Count(s.published) > 0 then Recover else if line.Main? then Auto else Operation.Release
  }

  lemma SoundIsConsistent(service: Service, targets: seq<Target>, s: State)
    requires Sound(service, targets, s)
    ensures Consistent(s.store, targets, s.published)
  {
    hide IsPrefix, AllPublished, ExactTag, ValidRelease, Advances;
    forall t | t in targets
      ensures TargetOk(service, s.store, t)
    {
    }
  }

  lemma QualifyQuiet(service: Service, targets: seq<Target>, line: ReleaseLine, s: State)
    requires Sound(service, targets, s)
    ensures var next := Next(service, targets, s, Qualify(line, Resume(line, s), false, []));
      && next.published == s.published && next.store == s.store
      && next.permit.finalize && (Count(s.published) < |targets| ==> next.permit.publish)
  {
    hide RequireConsistent, Resumable, IsPrefix, Count, NoObjects, AllPublished;
    ConsistentExactly(World(service, s.store, [], []), targets, s.published);
    SoundIsConsistent(service, targets, s);
  }

  function Publications(n: nat): seq<Action> {
    if n == 0 then [] else [Publish] + Publications(n - 1)
  }

  function AllTrue(n: nat): seq<bool> {
    seq(n, _ => true)
  }

  lemma PublishStep(service: Service, targets: seq<Target>, s: State)
    requires s.permit.publish && Count(s.published) < |s.published|
    ensures Next(service, targets, s, Publish) == s.(published := s.published[Count(s.published) := true])
  {
    hide Finalize, RequireConsistent, Count;
  }

  lemma {:induction false} PublishesRest(service: Service, targets: seq<Target>, s: State, n: nat, tail: seq<Action>)
    requires IsPrefix(s.published) && Count(s.published) + n == |s.published| && (n > 0 ==> s.permit.publish)
    ensures After(service, targets, s, Publications(n) + tail)
      == After(service, targets, s.(published := AllTrue(|s.published|)), tail)
    decreases n
  {
    hide Next;
    if n == 0 {
      CountAll(s.published);
      assert Publications(0) + tail == tail;
      assert s.published == AllTrue(|s.published|);
    } else {
      CountAdds(s.published, Count(s.published));
      PublishStep(service, targets, s);
      var next := Next(service, targets, s, Publish);
      PublishesRest(service, targets, next, n - 1, tail);
      assert (Publications(n) + tail)[1..] == Publications(n - 1) + tail;
    }
  }

  /**
   From every reachable state, requalifying, publishing what is missing and finalizing once
   without disturbance completes the release, provided main and the binding still permit it.
   */
  lemma ReleaseCompletes(
    service: Service, targets: seq<Target>, line: ReleaseLine, s: State, source: Sha, binding: Option<Binding>)
    requires Sound(service, targets, s) && Permitted(s.store, targets, source, binding)
    ensures var missing := |targets| - Count(s.published);
      var plan := [Qualify(line, Resume(line, s), false, [])] + Publications(missing) + [Finish([], source, binding)];
      var after := After(service, targets, s, plan);
      AllPublished(after.published) && Complete(targets, after.store)
  {
    hide Finalize, Next, Resumable, Permitted, NoObjects, IsPrefix, Complete;
    var missing := |targets| - Count(s.published);
    var finish := [Finish([], source, binding)];
    var plan := [Qualify(line, Resume(line, s), false, [])] + Publications(missing) + finish;
    assert plan[1..] == Publications(missing) + finish;
    QualifyQuiet(service, targets, line, s);
    var qualified := Next(service, targets, s, Qualify(line, Resume(line, s), false, []));
    PublishesRest(service, targets, qualified, missing, finish);
    var ready := qualified.(published := AllTrue(|s.published|));
    AttemptSucceeds(targets, World(service, s.store, [], []), ready.published, source, binding);
    FinishEnds(service, targets, ready, source, binding);
  }

  lemma FinishEnds(service: Service, targets: seq<Target>, s: State, source: Sha, binding: Option<Binding>)
    requires s.permit.finalize
    ensures var after := After(service, targets, s, [Finish([], source, binding)]);
      && after.published == s.published
      && after.store == Finalize(World(service, s.store, [], []), s.published, targets, source, binding).world.store
  {
    hide Finalize, RequireConsistent;
    var finish := [Finish([], source, binding)];
    assert finish[1..] == [];
    assert After(service, targets, s, finish) == Next(service, targets, s, finish[0]);
  }

  // The family of a version.

  /** Addresses of the family's payloads that do not collide, the App's identity, immutable Releases, readable tags. */
  ghost predicate Trustworthy(service: Service, targets: seq<Target>) {
    && (forall t :: t in targets ==> IsSha(service.address(t.Payload())) && service.rank(t.tag).Some?)
    && (forall t, u :: t in targets && u in targets && service.address(t.Payload()) == service.address(u.Payload()) ==>
          t.Payload() == u.Payload())
    && (forall tag :: service.rank(tag).Some? ==> service.rank(tag).value.version.build == "")
    && service.author == APP && service.immutable
  }

  lemma TagsIdentify(targets: seq<Target>)
    requires forall i: nat, j: nat :: i < j < |targets| ==> targets[i].tag != targets[j].tag
    ensures forall t, u :: t in targets && u in targets && t.tag == u.tag ==> t == u
  {
  }

  /** What the service promises is all it takes: the family's own tags never clash. */
  lemma FamilyDependable(service: Service, version: Version, line: ReleaseLine, source: Sha, date: string)
    requires TargetsFor(ForVersion(version), version, line, source, date).Ok?
    requires Trustworthy(service, TargetsFor(ForVersion(version), version, line, source, date).value)
    ensures Dependable(service, TargetsFor(ForVersion(version), version, line, source, date).value)
  {
    hide TargetsFor, ForVersion, IsSha;
    var targets := TargetsFor(ForVersion(version), version, line, source, date).value;
    forall i: nat, j: nat | i < j < |targets|
      ensures targets[i].tag != targets[j].tag
    {
      FamilyTagsDiffer(version, line, source, date, i, j);
    }
    TagsIdentify(targets);
  }

  /**
   The release of a whole version: after any actions, and whatever outsiders did meanwhile, what is
   published lacks no internal dependency of the compiled family, and the release can be completed.
   */
  lemma VersionCompletes(
    service: Service, version: Version, line: ReleaseLine, source: Sha, date: string, s: State, actions: seq<Action>,
    binding: Option<Binding>)
    requires TargetsFor(ForVersion(version), version, line, source, date).Ok?
    requires var targets := TargetsFor(ForVersion(version), version, line, source, date).value;
      && Trustworthy(service, targets) && Untouched(service, targets, s)
      && (forall action :: action in actions ==> Outsiders(service, targets, action))
      && Permitted(After(service, targets, s, actions).store, targets, source, binding)
    ensures var family := ForVersion(version);
      var targets := TargetsFor(family, version, line, source, date).value;
      var reached := After(service, targets, s, actions);
      && |reached.published| == |family|
      && (forall i, d :: 0 <= i < |family| && reached.published[i] && d in family[i].internalDependencies ==>
            exists j :: 0 <= j < |family| && family[j].package == d && reached.published[j])
      && var plan := [Qualify(line, Resume(line, reached), false, [])]
           + Publications(|targets| - Count(reached.published)) + [Finish([], source, binding)];
      && var after := After(service, targets, reached, plan);
      && AllPublished(after.published) && Complete(targets, after.store)
  {
    hide TargetsFor, ForVersion, After, Permitted, Resumable, Untouched, Outsiders, Progress, Trustworthy;
    hide Complete, NoObjects, IsPrefix, Dependable;
    var family := ForVersion(version);
    var targets := TargetsFor(family, version, line, source, date).value;
    FamilyDependable(service, version, line, source, date);
    FamilyOrdered(version);
    UnstartedIsSound(service, targets, s);
    RunsSound(service, targets, s, actions);
    var reached := After(service, targets, s, actions);
    forall i, d | 0 <= i < |family| && reached.published[i] && d in family[i].internalDependencies
      ensures exists j :: 0 <= j < |family| && family[j].package == d && reached.published[j]
    {
      PublishedClosed(service, targets, family, s, actions, i, d);
    }
    ReleaseCompletes(service, targets, line, reached, source, binding);
  }

  /** The service ranks each tag of the version by the version and the package's place in the compiled family. */
  ghost predicate RanksFamily(service: Service, targets: seq<Target>, version: Version) {
    forall i :: 0 <= i < |targets| ==> service.rank(targets[i].tag) == Some(Rank(version, i))
  }

  /**
   A stable version released from main over an empty or lower Latest ends with Latest at the last
   package of its compiled family.
   */
  lemma VersionTakesLatest(
    service: Service, version: Version, source: Sha, date: string, w: World, published: seq<bool>,
    binding: Option<Binding>)
    requires version.pre == "" && TargetsFor(ForVersion(version), version, Main, source, date).Ok?
    requires var targets := TargetsFor(ForVersion(version), version, Main, source, date).value;
      && Quiet(targets, w) && RanksFamily(w.service, targets, version)
      && AllPublished(published) && Permitted(w.store, targets, source, binding)
    requires w.store.latest.Some? ==>
      Less(w.service.rank(w.store.latest.value.tagName).value.version, version)
    ensures var family := ForVersion(version);
      var targets := TargetsFor(family, version, Main, source, date).value;
      var r := Finalize(w, published, targets, source, binding);
      && (r.Done? || Missed(w, r.world))
      && (r.Done? ==>
            && r.world.store.latest.Some?
            && r.world.store.latest.value.tagName == family[|family| - 1].tagPrefix + version.Text())
  {
    hide TargetsFor, ForVersion, Finalize, Permitted, TargetOk, Dependable, Missed, Steady, Version.Text;
    var family := ForVersion(version);
    var targets := TargetsFor(family, version, Main, source, date).value;
    FamilyOrdered(version);
    var n := |family| - 1;
    assert Ok(targets[n]) == TargetFor(family[n], version, Main, source, date);
    FamilyIsStable(w.service, targets, version, source, date);
    AttemptTakesLatest(targets, w, published, source, binding, version);
    if w.store.latest.Some? {
      OrderSymmetry(w.service.rank(w.store.latest.value.tagName).value.version, version);
    }
  }

  lemma FamilyIsStable(service: Service, targets: seq<Target>, version: Version, source: Sha, date: string)
    requires version.pre == "" && TargetsFor(ForVersion(version), version, Main, source, date) == Ok(targets)
    requires RanksFamily(service, targets, version)
    ensures StableFamily(service, targets, version)
  {
    hide TargetsFor, ForVersion;
    FamilyOrdered(version);
    forall t | t in targets
      ensures t.line.Main? && service.rank(t.tag).Some? && service.rank(t.tag).value.version == version
    {
      var i :| 0 <= i < |targets| && targets[i] == t;
      assert Ok(targets[i]) == TargetFor(ForVersion(version)[i], version, Main, source, date);
    }
  }
}
