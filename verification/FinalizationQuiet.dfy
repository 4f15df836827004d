/** Runs without interference, whose only fault is a lost reply. */
module FinalizationQuiet {
  import opened Wrappers
  import opened ReleasePolicy
  import opened Forge
  import opened Finalization
  import opened FinalizationResume

  // What permits a run.

  ghost predicate HeadIs(s: Store, name: string, sha: Sha) {
    name in s.refs && ExactHead(s.refs[name], name) && s.refs[name].sha == sha
  }

  ghost predicate DescendsTo(s: Store, source: Sha, head: Sha) {
    (source, head) in s.comparisons && Descends(s.comparisons[(source, head)], source)
  }

  ghost predicate Anchored(s: Store, commit: Sha, main: Sha, anchor: Sha) {
    && (commit, main) in s.comparisons
    && s.comparisons[(commit, main)].base == commit
    && s.comparisons[(commit, main)].mergeBase == anchor
  }

  /** Main is at the policy commit and the source descends as the authority demands. */
  ghost predicate AuthorityHolds(s: Store, source: Sha, authority: Authority) {
    && HeadIs(s, MAIN_REF, authority.main)
    && match authority.binding
       case None => DescendsTo(s, source, authority.main)
       case Some(binding) =>
         && binding.base in s.refs
         && var tip := s.refs[binding.base].sha;
         && HeadIs(s, binding.base, tip)
         && (binding.atTip ==> tip == source)
         && DescendsTo(s, source, tip)
         && (binding.anchor.Some? ==>
               && Anchored(s, source, authority.main, binding.anchor.value)
               && Anchored(s, tip, authority.main, binding.anchor.value))
  }

  lemma ServeKeepsAuthority(service: Service, s: Store, call: Call, source: Sha, authority: Authority)
    requires AuthorityHolds(s, source, authority)
    ensures AuthorityHolds(Serve(service, s, call).0, source, authority)
    ensures MAIN_REF in Serve(service, s, call).0.refs && Serve(service, s, call).0.refs[MAIN_REF] == s.refs[MAIN_REF]
  {
  }

  // What can still go wrong.

  /** No actor interferes; any call may still fail, lose its reply or be the last. */
  ghost predicate FaultsOnly(turns: seq<Turn>) {
    forall turn, s: Store :: turn in turns ==> turn.foreign(s) == s
  }

  /** No actor interferes and every call takes effect, but replies may be lost. */
  ghost predicate Steady(turns: seq<Turn>) {
    FaultsOnly(turns) && forall turn :: turn in turns ==> turn.fault.Deliver? || turn.fault.LoseReply?
  }

  /** Between the two worlds a reply was lost to a call other than the creation of a ref or a Release. */
  ghost predicate Missed(w: World, after: World) {
    && w.turns != []
    && exists i :: |w.trace| <= i < |after.trace| && after.trace[i].reply == NoReply
         && !after.trace[i].call.PostTagRef? && !after.trace[i].call.PostRelease?
  }

  ghost predicate Quiet(targets: seq<Target>, w: World) {
    Steady(w.turns) && Resumable(w.service, targets, w.store)
  }

  /** The later world is as the earlier one but for the record and the turns used up. */
  ghost predicate Unmoved(w: World, after: World) {
    Steady(after.turns) && after.store == w.store && after.service == w.service
  }

  lemma FaultsAreBenign(service: Service, targets: seq<Target>, turns: seq<Turn>)
    requires FaultsOnly(turns)
    ensures forall turn :: turn in turns ==> Benign(service, targets, turn)
  {
    hide TargetOk;
  }

  lemma CalmWhenQuiet(targets: seq<Target>, w: World)
    requires Quiet(targets, w)
    ensures Calm(targets, w)
  {
    hide Resumable, Benign;
    FaultsAreBenign(w.service, targets, w.turns);
  }

  /** What follows a run is steady if the run was, and what it misses the longer run misses too. */
  lemma Onward(w: World, after: World)
    requires Follows(w, after)
    ensures Steady(w.turns) ==> Steady(after.turns)
    ensures forall last :: Missed(after, last) ==> Missed(w, last)
  {
  }

  /** Without interference, reads change nothing. */
  lemma QuietReads(w: World, after: World)
    requires Steady(w.turns) && Reads(w, after)
    ensures Unmoved(w, after)
    ensures forall last :: Missed(after, last) ==> Missed(w, last)
  {
    hide Missed;
    Onward(w, after);
    var invariant_ := (s: Store) => s == w.store;
    assert Kept(invariant_, w.turns);
    assert invariant_(after.store);
  }

  lemma QuietAgain(targets: seq<Target>, w: World, after: World)
    requires Quiet(targets, w) && Follows(w, after) && Advanced(targets, w, after)
    ensures Quiet(targets, after) && after.service == w.service
  {
    hide Resumable, Progress, Benign, Missed;
    Onward(w, after);
  }

  /** Authority survives every call: calls never replace a ref or a comparison. */
  lemma QuietAuthority(w: World, after: World, source: Sha, authority: Authority)
    requires FaultsOnly(w.turns) && Evolves(w, after) && AuthorityHolds(w.store, source, authority)
    ensures AuthorityHolds(after.store, source, authority)
  {
    hide AuthorityHolds, Serve;
    var invariant_ := (s: Store) => AuthorityHolds(s, source, authority);
    forall s, call | invariant_(s)
      ensures invariant_(Serve(w.service, s, call).0)
    {
      ServeKeepsAuthority(w.service, s, call, source, authority);
    }
    assert Kept(invariant_, w.turns);
    assert Served(invariant_, w.service);
    assert invariant_(after.store);
  }

  // Each part of a run succeeds or misses a reply.

  lemma ReadQuiet(w: World, call: Call)
    requires Steady(w.turns) && !call.IsPost()
    ensures var r := Exchange(w, call);
      && (r.Done? || Missed(w, r.world)) && Unmoved(w, r.world)
      && (r.Done? ==> r.value == Serve(w.service, w.store, call).1)
    ensures forall last :: Missed(Exchange(w, call).world, last) ==> Missed(w, last)
  {
    hide Reads;
    var r := Exchange(w, call);
    QuietReads(w, r.world);
    if w.turns != [] {
      assert w.turns[0] in w.turns;
      if !r.Done? {
        assert r.world.trace[|w.trace|] == Event(call, NoReply);
      }
    }
  }

  lemma ReadHeadQuiet(w: World, name: string, mismatch: Error, sha: Sha)
    requires Steady(w.turns) && HeadIs(w.store, name, sha)
    ensures var r := ReadHead(w, name, mismatch);
      (r.Done? || Missed(w, r.world)) && (r.Done? ==> r.value == sha) && Unmoved(w, r.world)
    ensures forall last :: Missed(ReadHead(w, name, mismatch).world, last) ==> Missed(w, last)
  {
    hide Exchange, Reads, Missed, Steady;
    ReadQuiet(w, ReadRef(name));
  }

  lemma AncestryQuiet(w: World, source: Sha, head: Sha)
    requires Steady(w.turns) && DescendsTo(w.store, source, head)
    ensures var r := RequireMainAncestry(w, source, head);
      (r.Done? || Missed(w, r.world)) && Unmoved(w, r.world)
    ensures forall last :: Missed(RequireMainAncestry(w, source, head).world, last) ==> Missed(w, last)
  {
    hide Exchange, Reads, Missed, Steady;
    ReadQuiet(w, Compare(source, head));
  }

  lemma AnchorQuiet(w: World, commit: Sha, main: Sha, anchor: Sha)
    requires Steady(w.turns) && Anchored(w.store, commit, main, anchor)
    ensures var r := RequireAnchor(w, commit, main, anchor);
      (r.Done? || Missed(w, r.world)) && Unmoved(w, r.world)
    ensures forall last :: Missed(RequireAnchor(w, commit, main, anchor).world, last) ==> Missed(w, last)
  {
    hide Exchange, Reads, Missed, Steady;
    ReadQuiet(w, Compare(commit, main));
  }

  lemma AnchorsQuiet(w: World, source: Sha, tip: Sha, main: Sha, anchor: Option<Sha>)
    requires Steady(w.turns)
    requires anchor.Some? ==>
      Anchored(w.store, source, main, anchor.value) && Anchored(w.store, tip, main, anchor.value)
    ensures var r := RequireAnchors(w, source, tip, main, anchor);
      (r.Done? || Missed(w, r.world)) && Unmoved(w, r.world)
    ensures forall last :: Missed(RequireAnchors(w, source, tip, main, anchor).world, last) ==> Missed(w, last)
  {
    hide RequireAnchor, Reads, Missed, Steady, Anchored;
    if anchor.Some? {
      AnchorQuiet(w, source, main, anchor.value);
      AnchorQuiet(RequireAnchor(w, source, main, anchor.value).world, tip, main, anchor.value);
    }
  }

  lemma MainQuiet(w: World, main: Sha)
    requires Steady(w.turns) && HeadIs(w.store, MAIN_REF, main)
    ensures var r := MainSha(w);
      (r.Done? || Missed(w, r.world)) && (r.Done? ==> r.value == main) && Unmoved(w, r.world)
    ensures forall last :: Missed(MainSha(w).world, last) ==> Missed(w, last)
    ensures IsSha(main)
  {
    hide ReadHead, Reads, Missed, Steady;
    ReadHeadQuiet(w, MAIN_REF, MainNotExact, main);
  }

  lemma BindingQuiet(w: World, binding: Binding, source: Sha, main: Sha)
    requires Steady(w.turns) && AuthorityHolds(w.store, source, Authority(main, Some(binding)))
    ensures var r := BindingVerify(w, binding, source, main);
      (r.Done? || Missed(w, r.world)) && Unmoved(w, r.world)
    ensures forall last :: Missed(BindingVerify(w, binding, source, main).world, last) ==> Missed(w, last)
  {
    hide ReadHead, RequireMainAncestry, RequireAnchors, Reads, HeadIs, DescendsTo, Anchored, Missed, Steady;
    var tip := w.store.refs[binding.base].sha;
    QuietReads(w, BindingVerify(w, binding, source, main).world);
    ReadHeadQuiet(w, binding.base, BaseNotExact, tip);
    var w1 := ReadHead(w, binding.base, BaseNotExact).world;
    AncestryQuiet(w1, source, tip);
    var w2 := RequireMainAncestry(w1, source, tip).world;
    AnchorsQuiet(w2, source, tip, main, binding.anchor);
    var w3 := RequireAnchors(w2, source, tip, main, binding.anchor).world;
    ReadHeadQuiet(w3, binding.base, BaseNotExact, tip);
    ReadHeadQuiet(ReadHead(w3, binding.base, BaseNotExact).world, MAIN_REF, BaseNotExact, main);
  }

  lemma RebindQuiet(w: World, t: Target, authority: Authority)
    requires Steady(w.turns) && AuthorityHolds(w.store, t.source, authority)
    ensures var r := Rebind(w, t, authority);
      (r.Done? || Missed(w, r.world)) && Unmoved(w, r.world)
    ensures forall last :: Missed(Rebind(w, t, authority).world, last) ==> Missed(w, last)
  {
    hide RequireMainAncestry, ReadHead, BindingVerify, Reads, HeadIs, DescendsTo, Anchored, Missed, Steady;
    QuietReads(w, Rebind(w, t, authority).world);
    match authority.binding
    case None =>
      AncestryQuiet(w, t.source, authority.main);
      MainQuiet(RequireMainAncestry(w, t.source, authority.main).world, authority.main);
    case Some(binding) => BindingQuiet(w, binding, t.source, authority.main);
  }

  lemma VerifyQuiet(w: World, source: Sha, authority: Authority)
    requires Steady(w.turns) && AuthorityHolds(w.store, source, authority)
    ensures var r := VerifyBound(w, source, authority);
      (r.Done? || Missed(w, r.world)) && Unmoved(w, r.world)
    ensures forall last :: Missed(VerifyBound(w, source, authority).world, last) ==> Missed(w, last)
  {
    hide BindingVerify, Reads, Missed, Steady, AuthorityHolds;
    QuietReads(w, VerifyBound(w, source, authority).world);
    if authority.binding.Some? {
      BindingQuiet(w, authority.binding.value, source, authority.main);
    }
  }

  ghost function TagSha(s: Store, t: Target): Sha
    requires HasTag(s, t)
  {
    s.refs[t.RefName()].sha
  }

  /** The tag is read exactly when it is absent or exact. */
  lemma ExactTagQuiet(w: World, t: Target)
    requires Steady(w.turns)
    ensures var r := InspectTag(w, t);
      && (r.Done? || Missed(w, r.world) || (HasTag(w.store, t) && !ExactTag(w.store, t))) && Unmoved(w, r.world)
      && (r.Done? ==> HasTag(w.store, t) ==> ExactTag(w.store, t))
      && (r.Done? ==> r.value == if HasTag(w.store, t) then Some(TagSha(w.store, t)) else None)
    ensures forall last :: Missed(InspectTag(w, t).world, last) ==> Missed(w, last)
  {
    hide Exchange, Reads, ValidTag, IsSha, Missed, Steady;
    QuietReads(w, InspectTag(w, t).world);
    ReadQuiet(w, ReadRef(t.RefName()));
    if HasTag(w.store, t) {
      ReadQuiet(Exchange(w, ReadRef(t.RefName())).world, ReadTagObject(TagSha(w.store, t)));
    }
  }

  lemma InspectTagQuiet(targets: seq<Target>, w: World, t: Target)
    requires Quiet(targets, w) && t in targets
    ensures var r := InspectTag(w, t);
      && (r.Done? || Missed(w, r.world)) && Unmoved(w, r.world)
      && (r.Done? ==> r.value == if HasTag(w.store, t) then Some(TagSha(w.store, t)) else None)
    ensures forall last :: Missed(InspectTag(w, t).world, last) ==> Missed(w, last)
  {
    hide InspectTag, Missed, Steady, ExactTag, Advances, ValidRelease, ValidTag;
    assert TargetOk(w.service, w.store, t);
    ExactTagQuiet(w, t);
  }

  lemma RequireTagQuiet(w: World, t: Target)
    requires Steady(w.turns) && HasTag(w.store, t) && ExactTag(w.store, t)
    ensures var r := RequireExactTagObject(w, t, TagSha(w.store, t));
      (r.Done? || Missed(w, r.world)) && Unmoved(w, r.world)
    ensures forall last ::
      Missed(RequireExactTagObject(w, t, TagSha(w.store, t)).world, last) ==> Missed(w, last)
  {
    hide InspectTag, Reads, Missed, Steady, ExactTag;
    ExactTagQuiet(w, t);
  }

  lemma ExactWhenOk(targets: seq<Target>, w: World, t: Target)
    requires Quiet(targets, w) && t in targets
    ensures HasTag(w.store, t) ==> ExactTag(w.store, t)
    ensures HasRelease(w.store, t) ==> HasTag(w.store, t) && ValidRelease(w.store.releases[t.tag], t)
    ensures HasRelease(w.store, t) ==> !Advances(w.service, t, w.store.latest)
    ensures IsSha(w.service.address(t.Payload()))
  {
    hide Steady, ExactTag, Advances, ValidRelease, ValidTag;
    assert TargetOk(w.service, w.store, t);
  }

  /** A creation of a tag object that keeps its reply leaves the object at its address. */
  lemma CreateTagObjectQuiet(targets: seq<Target>, w: World, t: Target, authority: Authority)
    requires Quiet(targets, w) && t in targets && AuthorityHolds(w.store, t.source, authority)
    ensures var r := CreateTagObject(w, t, authority);
      && (r.Done? || Missed(w, r.world))
      && (r.Done? ==>
            && r.world.store.refs == w.store.refs && r.world.store.latest == w.store.latest
            && w.service.address(t.Payload()) in r.world.store.objects)
  {
    hide Rebind, Reads, AuthorityHolds, Advances, ValidRelease, ExactTag, IsSha, Resumable, ReadBack, Exchange;
    hide Missed;
    RebindQuiet(w, t, authority);
    var bound := Rebind(w, t, authority);
    if bound.Done? {
      PostObjectQuiet(targets, bound.world, t);
      var posted := Exchange(bound.world, PostTagObject(t.Payload()));
      Onward(bound.world, posted.world);
      if posted.Done? {
        ReadBackQuiet(posted.world, t, posted.value.annotated);
      }
    }
  }

  lemma PostObjectQuiet(targets: seq<Target>, w: World, t: Target)
    requires Quiet(targets, w) && t in targets
    ensures var sha := w.service.address(t.Payload());
      var r := Exchange(w, PostTagObject(t.Payload()));
      && (r.Done? || Missed(w, r.world)) && Steady(r.world.turns)
      && (r.Done? ==>
            && r.value.ATag? && sha in r.world.store.objects && r.world.store.objects[sha] == r.value.annotated
            && IsSha(sha) && ValidTag(r.value.annotated, t, sha)
            && r.world.store.refs == w.store.refs && r.world.store.latest == w.store.latest)
  {
    hide Reads, Advances, ValidRelease, ExactTag, IsSha;
    assert TargetOk(w.service, w.store, t);
    var r := Exchange(w, PostTagObject(t.Payload()));
    Onward(w, r.world);
    if w.turns != [] {
      assert w.turns[0] in w.turns;
      if !r.Done? {
        assert r.world.trace[|w.trace|] == Event(PostTagObject(t.Payload()), NoReply);
      }
    }
  }

  lemma ReadBackQuiet(w: World, t: Target, created: AnnotatedTag)
    requires Steady(w.turns) && created.sha in w.store.objects && w.store.objects[created.sha] == created
    requires IsSha(created.sha) && ValidTag(created, t, created.sha)
    ensures var r := ReadBack(w, t, created);
      (r.Done? || Missed(w, r.world)) && Unmoved(w, r.world)
  {
    hide Exchange, Reads, ValidTag, IsSha, Missed, Steady;
    ReadQuiet(w, ReadTagObject(created.sha));
  }

  /** The creation of a ref succeeds even if its reply is lost: the exact ref is found afterwards. */
  lemma CreateTagRefQuiet(targets: seq<Target>, w: World, t: Target, authority: Authority)
    requires Quiet(targets, w) && t in targets && AuthorityHolds(w.store, t.source, authority)
    requires !HasTag(w.store, t) && w.service.address(t.Payload()) in w.store.objects
    ensures var sha := w.service.address(t.Payload());
      var r := CreateTagRef(w, t, authority, sha);
      && (r.Done? || Missed(w, r.world))
      && (r.Done? ==>
            HasTag(r.world.store, t) && TagSha(r.world.store, t) == sha && r.world.store.latest == w.store.latest)
  {
    hide Rebind, Reads, AuthorityHolds, IsSha, Resumable, Exchange, RequireExactTagObject, ExactTag, Missed;
    var sha := w.service.address(t.Payload());
    RebindQuiet(w, t, authority);
    var bound := Rebind(w, t, authority);
    if bound.Done? {
      PostRefQuiet(targets, bound.world, t);
      var posted := Exchange(bound.world, PostTagRef(t.RefName(), sha));
      Onward(bound.world, posted.world);
      if posted.Failed? {
        RequireTagQuiet(posted.world, t);
      }
    }
  }

  lemma PostRefQuiet(targets: seq<Target>, w: World, t: Target)
    requires Quiet(targets, w) && t in targets
    requires !HasTag(w.store, t) && w.service.address(t.Payload()) in w.store.objects
    ensures var sha := w.service.address(t.Payload());
      var r := Exchange(w, PostTagRef(t.RefName(), sha));
      && !r.Stopped? && Steady(r.world.turns)
      && HasTag(r.world.store, t) && ExactTag(r.world.store, t) && TagSha(r.world.store, t) == sha
      && r.world.store.latest == w.store.latest
      && (r.Done? ==> r.value.ARef? && ValidTagRef(r.value.reference, t) && r.value.reference.sha == sha)
  {
    hide Reads, Advances, ValidRelease, IsSha, Missed;
    assert TargetOk(w.service, w.store, t);
    var r := Exchange(w, PostTagRef(t.RefName(), w.service.address(t.Payload())));
    Onward(w, r.world);
    if w.turns != [] {
      assert w.turns[0] in w.turns;
    }
  }

  lemma ReconcileTagQuiet(targets: seq<Target>, w: World, t: Target, authority: Authority)
    requires Quiet(targets, w) && t in targets && AuthorityHolds(w.store, t.source, authority)
    ensures var r := ReconcileTag(w, t, authority);
      && (r.Done? || Missed(w, r.world))
      && (r.Done? ==>
            && HasTag(r.world.store, t) && r.value == TagSha(r.world.store, t)
            && Quiet(targets, r.world) && AuthorityHolds(r.world.store, t.source, authority)
            && r.world.service == w.service && r.world.store.latest == w.store.latest)
    ensures forall last :: Missed(ReconcileTag(w, t, authority).world, last) ==> Missed(w, last)
  {
    hide InspectTag, CreateTagObject, CreateTagRef, RequireExactTagObject;
    hide Reads, Evolves, Follows, AuthorityHolds, Resumable, Progress, Benign, Missed, Steady, ExactTag;
    Onward(w, ReconcileTag(w, t, authority).world);
    var found := InspectTag(w, t);
    InspectTagQuiet(targets, w, t);
    if found.Done? && !HasTag(w.store, t) {
      var created := CreateTagObject(found.world, t, authority);
      NewTagObjectQuiet(targets, found.world, t, authority);
      if created.Done? {
        NewTagRefQuiet(targets, created.world, t, authority);
        var ref := CreateTagRef(created.world, t, authority, w.service.address(t.Payload()));
        if ref.Done? {
          ExactWhenOk(targets, ref.world, t);
          RequireTagQuiet(ref.world, t);
        }
      }
    }
  }

  lemma NewTagObjectQuiet(targets: seq<Target>, w: World, t: Target, authority: Authority)
    requires Quiet(targets, w) && t in targets && AuthorityHolds(w.store, t.source, authority)
    ensures var r := CreateTagObject(w, t, authority);
      && (r.Done? || Missed(w, r.world))
      && (r.Done? ==>
            && r.value == w.service.address(t.Payload()) && r.value in r.world.store.objects
            && r.world.store.refs == w.store.refs && r.world.store.latest == w.store.latest
            && Quiet(targets, r.world) && AuthorityHolds(r.world.store, t.source, authority)
            && r.world.service == w.service)
    ensures forall last :: Missed(CreateTagObject(w, t, authority).world, last) ==> Missed(w, last)
  {
    hide CreateTagObject, Reads, Evolves, Follows, AuthorityHolds, Resumable, Progress, Benign, Missed;
    var created := CreateTagObject(w, t, authority);
    Onward(w, created.world);
    CreateTagObjectQuiet(targets, w, t, authority);
    CalmWhenQuiet(targets, w);
    CreateTagObjectAdvances(targets, w, t, authority);
    QuietAgain(targets, w, created.world);
    QuietAuthority(w, created.world, t.source, authority);
  }

  lemma NewTagRefQuiet(targets: seq<Target>, w: World, t: Target, authority: Authority)
    requires Quiet(targets, w) && t in targets && AuthorityHolds(w.store, t.source, authority)
    requires !HasTag(w.store, t) && w.service.address(t.Payload()) in w.store.objects
    ensures var r := CreateTagRef(w, t, authority, w.service.address(t.Payload()));
      && (r.Done? || Missed(w, r.world))
      && (r.Done? ==>
            && HasTag(r.world.store, t) && TagSha(r.world.store, t) == w.service.address(t.Payload())
            && r.world.store.latest == w.store.latest
            && Quiet(targets, r.world) && AuthorityHolds(r.world.store, t.source, authority)
            && r.world.service == w.service)
    ensures forall last ::
      Missed(CreateTagRef(w, t, authority, w.service.address(t.Payload())).world, last) ==> Missed(w, last)
  {
    hide CreateTagRef, Reads, Evolves, Follows, AuthorityHolds, Resumable, Progress, Benign, Missed;
    var ref := CreateTagRef(w, t, authority, w.service.address(t.Payload()));
    Onward(w, ref.world);
    CreateTagRefQuiet(targets, w, t, authority);
    CalmWhenQuiet(targets, w);
    CreateTagRefAdvances(targets, w, t, authority);
    QuietAgain(targets, w, ref.world);
    QuietAuthority(w, ref.world, t.source, authority);
  }

  lemma LatestQuiet(w: World)
    requires Steady(w.turns)
    ensures var r := GetLatest(w);
      && (r.Done? || Missed(w, r.world) || !RanksLatest(w.service, w.store)) && Unmoved(w, r.world)
      && (r.Done? ==> r.value == w.store.latest && RanksLatest(w.service, w.store))
    ensures forall last :: Missed(GetLatest(w).world, last) ==> Missed(w, last)
  {
    hide Exchange, Reads, CanonicalLatest, Missed, Steady;
    ReadQuiet(w, ReadLatest);
  }

  /** A guard is captured exactly when Latest is one canonical stable Release that no support run is asked to keep. */
  lemma CaptureExactly(w: World, t: Target)
    requires Steady(w.turns) && w.service.rank(t.tag).Some?
    ensures var r := Capture(w, t);
      var sound := w.store.latest.Some? ==>
        var latest := w.store.latest.value;
        && latest.id != 0 && w.service.rank(latest.tagName).Some?
        && w.service.rank(latest.tagName).value.version.pre == ""
        && w.service.rank(latest.tagName).value.version.build == ""
        && (t.line.Support? ==> latest.tagName != t.tag);
      && Unmoved(w, r.world) && (r.Done? ==> sound) && (sound ==> r.Done? || Missed(w, r.world))
      && (r.Done? ==> r.value.before == w.store.latest)
    ensures forall last :: Missed(Capture(w, t).world, last) ==> Missed(w, last)
  {
    hide GetLatest, Reads, Advances, Missed, Steady;
    LatestQuiet(w);
  }

  lemma GuardQuiet(targets: seq<Target>, w: World, t: Target)
    requires Quiet(targets, w) && t in targets
    ensures var r := Capture(w, t);
      && (r.Done? || Missed(w, r.world)) && Unmoved(w, r.world)
      && (r.Done? ==> GuardHolds(w.service, w.store, t, r.value))
    ensures forall last :: Missed(Capture(w, t).world, last) ==> Missed(w, last)
  {
    hide Capture, Reads, Advances, ValidRelease, ExactTag, ValidTag, Missed, Steady;
    assert TargetOk(w.service, w.store, t);
    CaptureExactly(w, t);
  }

  /** The Release is read exactly when it is absent or exact. */
  lemma ExactReleaseQuiet(w: World, t: Target)
    requires Steady(w.turns)
    ensures var r := InspectRelease(w, t);
      var exact := HasRelease(w.store, t) ==> ValidRelease(w.store.releases[t.tag], t);
      && (r.Done? || Missed(w, r.world) || !exact) && Unmoved(w, r.world)
      && (r.Done? ==> r.value == HasRelease(w.store, t) && exact)
    ensures forall last :: Missed(InspectRelease(w, t).world, last) ==> Missed(w, last)
  {
    hide Exchange, Reads, ValidRelease, Missed, Steady;
    ReadQuiet(w, ReadRelease(t.tag));
  }

  lemma InspectReleaseQuiet(targets: seq<Target>, w: World, t: Target)
    requires Quiet(targets, w) && t in targets
    ensures var r := InspectRelease(w, t);
      && (r.Done? || Missed(w, r.world)) && Unmoved(w, r.world)
      && (r.Done? ==> r.value == HasRelease(w.store, t))
    ensures forall last :: Missed(InspectRelease(w, t).world, last) ==> Missed(w, last)
  {
    hide InspectRelease, Resumable, ValidRelease, Advances, ExactTag, Missed, Steady, IsSha;
    ExactWhenOk(targets, w, t);
    ExactReleaseQuiet(w, t);
  }

  lemma ConfirmQuiet(targets: seq<Target>, w: World, t: Target, guard: Guard)
    requires Quiet(targets, w) && t in targets && HasTag(w.store, t) && Intended(guard, w.store.latest)
    ensures var r := Confirm(w, t, TagSha(w.store, t), guard);
      (r.Done? || Missed(w, r.world)) && Unmoved(w, r.world)
    ensures forall last :: Missed(Confirm(w, t, TagSha(w.store, t), guard).world, last) ==> Missed(w, last)
  {
    hide RequireExactTagObject, GetLatest, Reads, TargetOk, CanonicalLatest, Missed, Steady, ExactTag, IsSha;
    hide Advances, ValidRelease;
    QuietReads(w, Confirm(w, t, TagSha(w.store, t), guard).world);
    ExactWhenOk(targets, w, t);
    RequireTagQuiet(w, t);
    LatestQuiet(RequireExactTagObject(w, t, TagSha(w.store, t)).world);
  }

  /** Whether or not its reply is lost, the Release asked for is there, and Latest is as intended. */
  lemma PostReleaseQuiet(targets: seq<Target>, w: World, t: Target, guard: Guard)
    requires Quiet(targets, w) && t in targets && HasTag(w.store, t) && !HasRelease(w.store, t)
    requires GuardHolds(w.service, w.store, t, guard)
    ensures var r := Exchange(w, PostRelease(ReleaseRequest(t, guard)));
      && !r.Stopped? && Steady(r.world.turns)
      && HasTag(r.world.store, t) && ExactTag(r.world.store, t) && TagSha(r.world.store, t) == TagSha(w.store, t)
      && HasRelease(r.world.store, t) && ValidRelease(r.world.store.releases[t.tag], t)
      && Intended(guard, r.world.store.latest)
      && (r.Done? ==> r.value.ARelease? && ValidRelease(r.value.release, t))
  {
    hide Reads, Advances, CanonicalLatest, IsSha, Missed, ValidTagRef, ValidTag;
    assert TargetOk(w.service, w.store, t);
    var r := Exchange(w, PostRelease(ReleaseRequest(t, guard)));
    Onward(w, r.world);
    if w.turns != [] {
      assert w.turns[0] in w.turns;
    }
  }

  lemma CreateReleaseQuiet(targets: seq<Target>, w: World, t: Target, authority: Authority, guard: Guard)
    requires Quiet(targets, w) && t in targets && AuthorityHolds(w.store, t.source, authority)
    requires HasTag(w.store, t) && !HasRelease(w.store, t) && GuardHolds(w.service, w.store, t, guard)
    ensures var r := CreateRelease(w, t, authority, TagSha(w.store, t), guard);
      && (r.Done? || Missed(w, r.world))
      && (r.Done? ==>
            && HasTag(r.world.store, t) && TagSha(r.world.store, t) == TagSha(w.store, t)
            && HasRelease(r.world.store, t) && Intended(guard, r.world.store.latest))
  {
    hide Rebind, RequireExactTagObject, RequireUnchanged, InspectRelease, Exchange, Intended;
    hide Reads, AuthorityHolds, Resumable, Advances, ValidRelease, ExactTag, Missed, Steady, IsSha;
    var sha := TagSha(w.store, t);
    RebindQuiet(w, t, authority);
    var bound := Rebind(w, t, authority);
    if bound.Done? {
      ExactWhenOk(targets, bound.world, t);
      RequireTagQuiet(bound.world, t);
      var tagged := RequireExactTagObject(bound.world, t, sha);
      if tagged.Done? {
        UnchangedQuiet(targets, tagged.world, guard);
        var latest := RequireUnchanged(tagged.world, guard);
        if latest.Done? {
          PostReleaseQuiet(targets, latest.world, t, guard);
          var posted := Exchange(latest.world, PostRelease(ReleaseRequest(t, guard)));
          Onward(latest.world, posted.world);
          if posted.Failed? {
            ExactReleaseQuiet(posted.world, t);
            RequireTagQuiet(InspectRelease(posted.world, t).world, t);
          }
        }
      }
    }
  }

  lemma UnchangedQuiet(targets: seq<Target>, w: World, guard: Guard)
    requires Quiet(targets, w) && guard.before == w.store.latest
    ensures var r := RequireUnchanged(w, guard);
      (r.Done? || Missed(w, r.world)) && Unmoved(w, r.world)
    ensures forall last :: Missed(RequireUnchanged(w, guard).world, last) ==> Missed(w, last)
  {
    hide GetLatest, Reads, TargetOk, CanonicalLatest, Missed, Steady;
    LatestQuiet(w);
  }

  /** Latest names the target if it may advance, and is left alone otherwise. */
  ghost predicate LatestSettles(service: Service, t: Target, before: Option<Latest>, after: Option<Latest>)
    requires service.rank(t.tag).Some?
    requires before.Some? ==> service.rank(before.value.tagName).Some?
  {
    if Advances(service, t, before) then after.Some? && after.value.tagName == t.tag else after == before
  }

  lemma ReconcileReleaseQuiet(targets: seq<Target>, w: World, t: Target, authority: Authority)
    requires Quiet(targets, w) && t in targets && AuthorityHolds(w.store, t.source, authority) && HasTag(w.store, t)
    ensures var r := ReconcileRelease(w, t, authority, TagSha(w.store, t));
      && (r.Done? || Missed(w, r.world))
      && (r.Done? ==> LatestSettles(w.service, t, w.store.latest, r.world.store.latest))
  {
    hide Capture, InspectRelease, CreateRelease, Confirm;
    hide Reads, Evolves, Follows, AuthorityHolds, Resumable, Advances, Missed, Steady, IsSha, ValidRelease, ExactTag;
    hide Progress, Benign;
    var captured := Capture(w, t);
    GuardQuiet(targets, w, t);
    if captured.Done? {
      var guard := captured.value;
      InspectReleaseQuiet(targets, captured.world, t);
      var found := InspectRelease(captured.world, t);
      if found.Done? {
        if HasRelease(w.store, t) {
          ExactWhenOk(targets, w, t);
          ConfirmQuiet(targets, found.world, t, guard);
        } else {
          NewReleaseQuiet(targets, found.world, t, authority, guard);
          var created := CreateRelease(found.world, t, authority, TagSha(w.store, t), guard);
          if created.Done? {
            InspectReleaseQuiet(targets, created.world, t);
            ConfirmQuiet(targets, InspectRelease(created.world, t).world, t, guard);
          }
        }
      }
    }
  }

  lemma NewReleaseQuiet(targets: seq<Target>, w: World, t: Target, authority: Authority, guard: Guard)
    requires Quiet(targets, w) && t in targets && AuthorityHolds(w.store, t.source, authority)
    requires HasTag(w.store, t) && !HasRelease(w.store, t) && GuardHolds(w.service, w.store, t, guard)
    ensures var r := CreateRelease(w, t, authority, TagSha(w.store, t), guard);
      && (r.Done? || Missed(w, r.world))
      && (r.Done? ==>
            && HasTag(r.world.store, t) && TagSha(r.world.store, t) == TagSha(w.store, t)
            && HasRelease(r.world.store, t) && Intended(guard, r.world.store.latest)
            && Quiet(targets, r.world))
    ensures forall last ::
      Missed(CreateRelease(w, t, authority, TagSha(w.store, t), guard).world, last) ==> Missed(w, last)
  {
    hide CreateRelease, Reads, Evolves, Follows, AuthorityHolds, Resumable, Progress, Benign, Missed, Advances;
    var created := CreateRelease(w, t, authority, TagSha(w.store, t), guard);
    Onward(w, created.world);
    CreateReleaseQuiet(targets, w, t, authority, guard);
    CalmWhenQuiet(targets, w);
    CreateReleaseAdvances(targets, w, t, authority, TagSha(w.store, t), guard);
    QuietAgain(targets, w, created.world);
  }

  /** One package's run succeeds unless a reply that counts is lost, and settles Latest. */
  lemma PackageQuiet(targets: seq<Target>, w: World, t: Target, authority: Authority)
    requires Quiet(targets, w) && t in targets && AuthorityHolds(w.store, t.source, authority)
    ensures var r := FinalizePackage(w, t, authority);
      && (r.Done? || Missed(w, r.world))
      && (r.Done? ==>
            Quiet(targets, r.world) && r.world.service == w.service
            && LatestSettles(w.service, t, w.store.latest, r.world.store.latest))
    ensures forall last :: Missed(FinalizePackage(w, t, authority).world, last) ==> Missed(w, last)
  {
    hide ReconcileTag, ReconcileRelease, Reads, Evolves, Follows, AuthorityHolds, Progress, Benign, Missed, Steady,
         Advances, TargetOk;
    var r := FinalizePackage(w, t, authority);
    Onward(w, r.world);
    CalmWhenQuiet(targets, w);
    PackageAdvances(targets, w, t, authority);
    QuietAgain(targets, w, r.world);
    ReconcileTagQuiet(targets, w, t, authority);
    var tagged := ReconcileTag(w, t, authority);
    if tagged.Done? {
      ReconcileReleaseQuiet(targets, tagged.world, t, authority);
    }
  }

  /** The package loop, with its authority intact, succeeds unless a reply that counts is lost. */
  lemma {:induction false} FamilyQuiet(
    targets: seq<Target>, w: World, rest: seq<Target>, authority: Authority)
    requires Quiet(targets, w) && forall t :: t in rest ==> t in targets
    requires forall t :: t in rest ==> AuthorityHolds(w.store, t.source, authority)
    ensures var r := FinalizeAll(w, rest, authority); r.Done? || Missed(w, r.world)
    decreases |rest|
  {
    hide FinalizePackage, VerifyBound, Reads, Evolves, Follows, AuthorityHolds, Resumable, Missed, Steady,
         LatestSettles;
    if rest != [] {
      var bound := VerifyBound(w, rest[0].source, authority);
      VerifyQuiet(w, rest[0].source, authority);
      if bound.Done? {
        PackageQuiet(targets, bound.world, rest[0], authority);
        var done := FinalizePackage(bound.world, rest[0], authority);
        if done.Done? {
          AuthorityLasts(bound.world, done.world, rest[1..], authority);
          FamilyQuiet(targets, done.world, rest[1..], authority);
        }
      }
    }
  }

  lemma AuthorityLasts(w: World, after: World, rest: seq<Target>, authority: Authority)
    requires Steady(w.turns) && Evolves(w, after)
    requires forall t :: t in rest ==> AuthorityHolds(w.store, t.source, authority)
    ensures forall t :: t in rest ==> AuthorityHolds(after.store, t.source, authority)
  {
    hide AuthorityHolds, Evolves;
    forall t | t in rest
      ensures AuthorityHolds(after.store, t.source, authority)
    {
      QuietAuthority(w, after, t.source, authority);
    }
  }

  /** Main is readable, and every package's source is acceptable to it. */
  ghost predicate Permitted(s: Store, targets: seq<Target>, source: Sha, binding: Option<Binding>) {
    && MAIN_REF in s.refs
    && var authority := Authority(s.refs[MAIN_REF].sha, binding);
    && AuthorityHolds(s, source, authority)
    && forall t :: t in targets ==> AuthorityHolds(s, t.source, authority)
  }

  lemma PreflightQuiet(w: World, published: seq<bool>, targets: seq<Target>, source: Sha, binding: Option<Binding>)
    requires Steady(w.turns) && AllPublished(published) && Permitted(w.store, targets, source, binding)
    ensures var r := Preflight(w, published, source, binding);
      && (r.Done? || Missed(w, r.world)) && Unmoved(w, r.world)
      && (r.Done? ==> r.value == Authority(w.store.refs[MAIN_REF].sha, binding))
    ensures forall last :: Missed(Preflight(w, published, source, binding).world, last) ==> Missed(w, last)
  {
    hide VerifyBound, MainSha, Reads, Missed, Steady, IsSha;
    var main := w.store.refs[MAIN_REF].sha;
    QuietReads(w, Preflight(w, published, source, binding).world);
    MainQuiet(w, main);
    var authority := Authority(main, binding);
    VerifyQuiet(MainSha(w).world, source, authority);
    var w1 := VerifyBound(MainSha(w).world, source, authority).world;
    MainQuiet(w1, main);
    VerifyQuiet(MainSha(w1).world, source, authority);
  }
}
