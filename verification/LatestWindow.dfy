/**
 The window between the last read of Latest and the creation of a Release: when a run may
 take Latest back from a newer Release that others publish meanwhile, and what follows.
 */
module LatestWindow {
  import opened Wrappers
  import opened Decimal
  import opened SemVer
  import opened ReleasePolicy
  import opened Forge
  import opened Finalization
  import opened FinalizationRecord
  import opened FinalizationResume
  import opened FinalizationQuiet
  import opened FinalizationConvergence

  // Newer Releases and those who publish them.

  /** A canonical stable tag ranked above the target's. */
  ghost predicate Newer(service: Service, t: Target, tag: string) {
    && service.rank(t.tag).Some? && service.rank(tag).Some?
    && CanonicalLatest(service, Latest(1, tag))
    && RankLess(service.rank(t.tag).value, service.rank(tag).value)
  }

  /** The tag's Release is published and Latest is behind it. */
  ghost predicate Overlooked(service: Service, s: Store, tag: string) {
    && tag in s.releases && service.rank(tag).Some?
    && (s.latest.Some? ==>
          service.rank(s.latest.value.tagName).Some?
          && RankLess(service.rank(s.latest.value.tagName).value, service.rank(tag).value))
  }

  /** Moves Latest only forward, keeps the family resumable, and never leaves `tag` overlooked. */
  ghost predicate Orderly(service: Service, targets: seq<Target>, tag: string, foreign: Store -> Store) {
    && Friendly(service, targets, foreign)
    && forall s :: Resumable(service, targets, s) && !Overlooked(service, s, tag) ==>
         !Overlooked(service, foreign(s), tag)
  }

  ghost predicate OrderlyScript(service: Service, targets: seq<Target>, tag: string, turns: seq<Turn>) {
    forall turn :: turn in turns ==> Orderly(service, targets, tag, turn.foreign)
  }

  /** A resumable store with the target's tag and no Release of it, its authority intact,
      and some newer tag not overlooked. */
  ghost predicate Pending(targets: seq<Target>, w: World, t: Target, authority: Authority, tag: string) {
    && w.turns == [] && t in targets
    && Resumable(w.service, targets, w.store) && HasTag(w.store, t) && !HasRelease(w.store, t)
    && AuthorityHolds(w.store, t.source, authority)
    && Newer(w.service, t, tag) && !Overlooked(w.service, w.store, tag)
    && forall u :: u in targets ==> u.tag != tag
  }

  /** No orderly script makes the run leave `tag` overlooked. */
  ghost predicate KeepsLatest(targets: seq<Target>, w: World, t: Target, authority: Authority, tag: string)
    requires HasTag(w.store, t)
  {
    forall turns :: OrderlyScript(w.service, targets, tag, turns) ==>
      !Overlooked(w.service, ReconcileRelease(w.(turns := turns), t, authority, TagSha(w.store, t)).world.store, tag)
  }

  // Behind Latest: safe.

  lemma AdvancesFalls(service: Service, t: Target, before: Store, after: Store)
    requires service.rank(t.tag).Some? && RanksLatest(service, before) && RanksLatest(service, after)
    requires LatestRises(service, before, after) && !Advances(service, t, before.latest)
    ensures !Advances(service, t, after.latest)
  {
    hide RankLess;
    if before.latest.Some? && after.latest.Some? && after.latest != before.latest {
      var a, b, c := service.rank(before.latest.value.tagName).value,
        service.rank(after.latest.value.tagName).value, service.rank(t.tag).value;
      if RankLess(b, c) {
        RankTransitive(a, b, c);
      }
    }
  }

  /** What a run keeps that is not to advance Latest. */
  ghost predicate Behind(service: Service, targets: seq<Target>, t: Target, tag: string, start: Store, s: Store) {
    && Resumable(service, targets, start) && Resumable(service, targets, s) && t in targets
    && Progress(service, targets, start, s) && HasTag(s, t)
    && !Advances(service, t, s.latest) && !Overlooked(service, s, tag)
  }

  lemma OrderlyKeepsBehind(
    service: Service, targets: seq<Target>, t: Target, tag: string, start: Store, s: Store, foreign: Store -> Store)
    requires Behind(service, targets, t, tag, start, s) && Orderly(service, targets, tag, foreign)
    ensures Behind(service, targets, t, tag, start, foreign(s))
  {
    hide TargetOk, LatestRises, RankLess, Overlooked, Advances;
    AdvancesFalls(service, t, s, foreign(s));
    ProgressTransitive(service, targets, start, s, foreign(s));
  }

  /** A Release created without advancing Latest. */
  lemma PlainCreationKeepsBehind(
    service: Service, targets: seq<Target>, t: Target, tag: string, start: Store, s: Store, guard: Guard)
    requires Behind(service, targets, t, tag, start, s) && !guard.advance && t.tag != tag
    ensures Behind(service, targets, t, tag, start, Serve(service, s, PostRelease(ReleaseRequest(t, guard))).0)
  {
    hide RankLess, ValidTag, ValidTagRef;
    var after := Serve(service, s, PostRelease(ReleaseRequest(t, guard))).0;
    assert TargetOk(service, s, t);
    forall u | u in targets
      ensures TargetOk(service, after, u)
    {
      assert TargetOk(service, s, u);
    }
  }

  lemma ExchangeKeeps(w: World, call: Call, invariant_: Store -> bool)
    requires invariant_(w.store) && Kept(invariant_, w.turns)
    requires forall s :: invariant_(s) ==> invariant_(Serve(w.service, s, call).0)
    ensures invariant_(Exchange(w, call).world.store)
  {
    hide Serve;
  }

  /** A run whose guard does not advance keeps whatever others and its one creation keep. */
  lemma ReleaseKeeps(
    w: World, t: Target, authority: Authority, sha: Sha, invariant_: Store -> bool)
    requires invariant_(w.store) && Kept(invariant_, w.turns)
    requires Capture(w, t).Done? ==> forall s :: invariant_(s) ==>
      invariant_(Serve(w.service, s, PostRelease(ReleaseRequest(t, Capture(w, t).value))).0)
    ensures invariant_(ReconcileRelease(w, t, authority, sha).world.store)
  {
    hide Capture, InspectRelease, Confirm, Rebind, RequireExactTagObject, RequireUnchanged, AfterFailedRelease;
    hide Exchange, Serve, Reads;
    var captured := Capture(w, t);
    KeepsOn(w, captured.world, invariant_);
    if captured.Done? {
      var guard := captured.value;
      var found := InspectRelease(captured.world, t);
      KeepsOn(captured.world, found.world, invariant_);
      if found.Done? && found.value {
        KeepsOn(found.world, Confirm(found.world, t, sha, guard).world, invariant_);
      } else if found.Done? {
        var created := CreateRelease(found.world, t, authority, sha, guard);
        CreationKeeps(found.world, t, authority, sha, guard, invariant_);
        if created.Done? {
          var retained := InspectRelease(created.world, t);
          KeepsOn(created.world, retained.world, invariant_);
          if retained.Done? && retained.value {
            KeepsOn(retained.world, Confirm(retained.world, t, sha, guard).world, invariant_);
          }
        }
      }
    }
  }

  lemma KeepsOn(w: World, after: World, invariant_: Store -> bool)
    requires Reads(w, after) && invariant_(w.store) && Kept(invariant_, w.turns)
    ensures invariant_(after.store) && Kept(invariant_, after.turns) && after.service == w.service
  {
  }

  lemma CreationKeeps(
    w: World, t: Target, authority: Authority, sha: Sha, guard: Guard, invariant_: Store -> bool)
    requires invariant_(w.store) && Kept(invariant_, w.turns)
    requires forall s :: invariant_(s) ==> invariant_(Serve(w.service, s, PostRelease(ReleaseRequest(t, guard))).0)
    ensures var after := CreateRelease(w, t, authority, sha, guard).world;
      invariant_(after.store) && Kept(invariant_, after.turns) && after.service == w.service
  {
    hide Rebind, RequireExactTagObject, RequireUnchanged, AfterFailedRelease, Exchange, Serve, Reads, Kept;
    var call := PostRelease(ReleaseRequest(t, guard));
    var bound := Rebind(w, t, authority);
    KeepsOn(w, bound.world, invariant_);
    if bound.Done? {
      var tagged := RequireExactTagObject(bound.world, t, sha);
      KeepsOn(bound.world, tagged.world, invariant_);
      if tagged.Done? {
        var latest := RequireUnchanged(tagged.world, guard);
        KeepsOn(tagged.world, latest.world, invariant_);
        if latest.Done? {
          var posted := Exchange(latest.world, call);
          ExchangeKeeps(latest.world, call, invariant_);
          FewerTurns(latest.world, posted.world, invariant_);
          if posted.Failed? {
            KeepsOn(posted.world, AfterFailedRelease(posted.world, t, sha, posted.error).world, invariant_);
          }
        }
      }
    }
  }

  lemma FewerTurns(w: World, after: World, invariant_: Store -> bool)
    requires Follows(w, after) && Kept(invariant_, w.turns)
    ensures Kept(invariant_, after.turns) && after.service == w.service
  {
  }

  /** The first read finds Latest as others have left it on arrival. */
  lemma CaptureOnArrival(w: World, t: Target)
    requires Capture(w, t).Done?
    ensures Capture(w, t).value.before == Arrival(w).latest
  {
    hide Reads, Advances, CanonicalLatest;
  }

  /**
   A target that does not advance Latest when the run starts never will: whatever forward-moving
   actors and faults the run meets, it asks for no Latest, and Latest only moves forward.
   */
  lemma BehindIsSafe(targets: seq<Target>, w: World, t: Target, authority: Authority, sha: Sha, tag: string)
    requires Behind(w.service, targets, t, tag, w.store, w.store) && OrderlyScript(w.service, targets, tag, w.turns)
    requires t.tag != tag
    ensures var after := ReconcileRelease(w, t, authority, sha).world;
      && Behind(w.service, targets, t, tag, w.store, after.store)
      && forall i :: |w.trace| <= i < |after.trace| && after.trace[i].call.PostRelease? ==>
           !after.trace[i].call.releasePayload.makeLatest
  {
    hide Capture, ReconcileRelease, Behind, Orderly, Serve;
    var service, start := w.service, w.store;
    var invariant_ := (s: Store) => Behind(service, targets, t, tag, start, s);
    forall turn, s | turn in w.turns && invariant_(s)
      ensures invariant_(turn.foreign(s))
    {
      OrderlyKeepsBehind(service, targets, t, tag, start, s, turn.foreign);
    }
    if Capture(w, t).Done? {
      CaptureOnArrival(w, t);
      assert invariant_(Arrival(w));
      NoAdvance(service, targets, t, tag, start, Arrival(w), Capture(w, t).value);
      forall s | invariant_(s)
        ensures invariant_(Serve(service, s, PostRelease(ReleaseRequest(t, Capture(w, t).value))).0)
      {
        PlainCreationKeepsBehind(service, targets, t, tag, start, s, Capture(w, t).value);
      }
      AsksForNoLatest(w, t, authority, sha);
    } else {
      UncapturedOnlyReads(w, t, authority, sha);
    }
    ReleaseKeeps(w, t, authority, sha, invariant_);
  }

  lemma NoAdvance(
    service: Service, targets: seq<Target>, t: Target, tag: string, start: Store, s: Store, guard: Guard)
    requires Behind(service, targets, t, tag, start, s) && guard.before == s.latest && GuardFor(service, t, guard)
    ensures !guard.advance
  {
  }

  lemma AsksForNoLatest(w: World, t: Target, authority: Authority, sha: Sha)
    requires Capture(w, t).Done? && !Capture(w, t).value.advance
    ensures var after := ReconcileRelease(w, t, authority, sha).world;
      forall i :: |w.trace| <= i < |after.trace| && after.trace[i].call.PostRelease? ==>
        !after.trace[i].call.releasePayload.makeLatest
  {
    hide Capture, ReconcileRelease, LatestShown, GuardFor, IntendedShown;
    var guard := LatestDecidesRelease(w, t, authority, sha);
    var after := ReconcileRelease(w, t, authority, sha).world;
    forall i | |w.trace| <= i < |after.trace| && after.trace[i].call.PostRelease?
      ensures !after.trace[i].call.releasePayload.makeLatest
    {
      assert Decided(after.trace, i, t, guard);
    }
  }

  lemma UncapturedOnlyReads(w: World, t: Target, authority: Authority, sha: Sha)
    requires !Capture(w, t).Done?
    ensures var after := ReconcileRelease(w, t, authority, sha).world;
      forall i :: |w.trace| <= i < |after.trace| ==> !after.trace[i].call.PostRelease?
  {
    hide Capture;
  }

  // Ahead of Latest: one overtaking Release is enough.

  ghost predicate Still(turn: Turn) {
    turn.fault == Deliver && forall s: Store :: turn.foreign(s) == s
  }

  /** The next `n` calls meet no interference and no fault. */
  ghost predicate StillFor(w: World, n: nat) {
    n <= |w.turns| && forall k :: 0 <= k < n ==> Still(w.turns[k])
  }

  /** `after` is `w` once `n` undisturbed reads have been made. */
  ghost predicate Past(w: World, after: World, n: nat) {
    n <= |w.turns| && after.service == w.service && after.store == w.store && after.turns == w.turns[n..]
  }

  /** Of the `n` undisturbed calls at the start, `k` more may follow the first `used`. */
  lemma StillAhead(w: World, middle: World, used: nat, k: nat, n: nat)
    requires StillFor(w, n) && Past(w, middle, used) && used + k <= n
    ensures StillFor(middle, k) && middle.store == w.store && middle.service == w.service
  {
  }

  lemma PastThen(w: World, middle: World, after: World, m: nat, n: nat)
    requires Past(w, middle, m) && Past(middle, after, n)
    ensures Past(w, after, m + n) && after.store == w.store && after.service == w.service
  {
  }

  lemma NothingPast(w: World)
    ensures Past(w, w, 0)
  {
  }

  lemma StillRead(w: World, call: Call)
    requires StillFor(w, 1) && !call.IsPost()
    ensures var r := Exchange(w, call);
      r.Done? && Past(w, r.world, 1) && r.value == Serve(w.service, w.store, call).1
  {
    assert Still(w.turns[0]);
  }

  lemma StillHead(w: World, name: string, mismatch: Error, sha: Sha)
    requires StillFor(w, 1) && HeadIs(w.store, name, sha)
    ensures var r := ReadHead(w, name, mismatch); r.Done? && r.value == sha && Past(w, r.world, 1)
  {
    hide Exchange, Reads, ExactHead, StillFor;
    StillRead(w, ReadRef(name));
  }

  lemma StillAncestry(w: World, source: Sha, head: Sha)
    requires StillFor(w, 1) && DescendsTo(w.store, source, head)
    ensures var r := RequireMainAncestry(w, source, head); r.Done? && Past(w, r.world, 1)
  {
    hide Exchange, Reads, Descends, StillFor;
    StillRead(w, Compare(source, head));
  }

  lemma StillAnchor(w: World, commit: Sha, main: Sha, anchor: Sha)
    requires StillFor(w, 1) && Anchored(w.store, commit, main, anchor)
    ensures var r := RequireAnchor(w, commit, main, anchor); r.Done? && Past(w, r.world, 1)
  {
    hide Exchange, Reads, StillFor;
    StillRead(w, Compare(commit, main));
  }

  function AnchorReads(anchor: Option<Sha>): nat {
    if anchor.None? then 0 else 2
  }

  lemma StillAnchors(w: World, source: Sha, tip: Sha, main: Sha, anchor: Option<Sha>)
    requires StillFor(w, AnchorReads(anchor))
    requires anchor.Some? ==>
      Anchored(w.store, source, main, anchor.value) && Anchored(w.store, tip, main, anchor.value)
    ensures var r := RequireAnchors(w, source, tip, main, anchor); r.Done? && Past(w, r.world, AnchorReads(anchor))
  {
    hide RequireAnchor, Reads, Anchored, StillFor, Past;
    NothingPast(w);
    if anchor.Some? {
      StillAhead(w, w, 0, 1, 2);
      StillAnchor(w, source, main, anchor.value);
      var w1 := RequireAnchor(w, source, main, anchor.value).world;
      StillAhead(w, w1, 1, 1, 2);
      StillAnchor(w1, tip, main, anchor.value);
      PastThen(w, w1, RequireAnchor(w1, tip, main, anchor.value).world, 1, 1);
    }
  }

  lemma StillPolicy(w: World, source: Sha, main: Sha)
    requires StillFor(w, 2) && DescendsTo(w.store, source, main) && HeadIs(w.store, MAIN_REF, main)
    ensures var r := RequireCurrentMutationPolicy(w, source, main); r.Done? && Past(w, r.world, 2)
  {
    hide RequireMainAncestry, ReadHead, Reads, HeadIs, DescendsTo, StillFor, Past;
    NothingPast(w);
    StillAhead(w, w, 0, 1, 2);
    StillAncestry(w, source, main);
    var w1 := RequireMainAncestry(w, source, main).world;
    StillAhead(w, w1, 1, 1, 2);
    StillHead(w1, MAIN_REF, MainNotExact, main);
    HeadsAreShas(w.store, MAIN_REF, main);
    PastThen(w, w1, ReadHead(w1, MAIN_REF, MainNotExact).world, 1, 1);
  }

  lemma HeadsAreShas(s: Store, name: string, sha: Sha)
    requires HeadIs(s, name, sha)
    ensures IsSha(sha)
  {
  }

  lemma StillBinding(w: World, binding: Binding, source: Sha, main: Sha)
    requires StillFor(w, 4 + AnchorReads(binding.anchor))
    requires AuthorityHolds(w.store, source, Authority(main, Some(binding)))
    ensures var r := BindingVerify(w, binding, source, main);
      r.Done? && Past(w, r.world, 4 + AnchorReads(binding.anchor))
  {
    hide ReadHead, RequireMainAncestry, RequireAnchors, Reads, HeadIs, DescendsTo, Anchored,
         StillFor, Past, AnchorReads;
    var tip, k := w.store.refs[binding.base].sha, AnchorReads(binding.anchor);
    var n := 4 + k;
    NothingPast(w);
    StillAhead(w, w, 0, 1, n);
    StillHead(w, binding.base, BaseNotExact, tip);
    var w1 := ReadHead(w, binding.base, BaseNotExact).world;
    StillAhead(w, w1, 1, 1, n);
    StillAncestry(w1, source, tip);
    var w2 := RequireMainAncestry(w1, source, tip).world;
    PastThen(w, w1, w2, 1, 1);
    StillAhead(w, w2, 2, k, n);
    StillAnchors(w2, source, tip, main, binding.anchor);
    var w3 := RequireAnchors(w2, source, tip, main, binding.anchor).world;
    PastThen(w, w2, w3, 2, k);
    StillAhead(w, w3, 2 + k, 1, n);
    StillHead(w3, binding.base, BaseNotExact, tip);
    var w4 := ReadHead(w3, binding.base, BaseNotExact).world;
    PastThen(w, w3, w4, 2 + k, 1);
    StillAhead(w, w4, 3 + k, 1, n);
    StillHead(w4, MAIN_REF, BaseNotExact, main);
    PastThen(w, w4, ReadHead(w4, MAIN_REF, BaseNotExact).world, 3 + k, 1);
  }

  lemma StillRebind(w: World, t: Target, authority: Authority)
    requires StillFor(w, RebindLength(authority)) && AuthorityHolds(w.store, t.source, authority)
    ensures var r := Rebind(w, t, authority); r.Done? && Past(w, r.world, RebindLength(authority))
  {
    hide RequireCurrentMutationPolicy, BindingVerify, Reads, HeadIs, DescendsTo, Anchored, StillFor, Past;
    match authority.binding
    case None => StillPolicy(w, t.source, authority.main);
    case Some(binding) => StillBinding(w, binding, t.source, authority.main);
  }

  lemma StillTag(w: World, t: Target)
    requires StillFor(w, 2) && HasTag(w.store, t) && ExactTag(w.store, t)
    ensures var r := RequireExactTagObject(w, t, TagSha(w.store, t)); r.Done? && Past(w, r.world, 2)
  {
    hide Exchange, Reads, ValidTagRef, ValidTag, StillFor;
    StillAhead(w, w, 0, 1, 2);
    StillRead(w, ReadRef(t.RefName()));
    var w1 := Exchange(w, ReadRef(t.RefName())).world;
    StillAhead(w, w1, 1, 1, 2);
    StillRead(w1, ReadTagObject(TagSha(w.store, t)));
    PastThen(w, w1, Exchange(w1, ReadTagObject(TagSha(w.store, t))).world, 1, 1);
  }

  lemma StillLatest(w: World)
    requires StillFor(w, 1) && RanksLatest(w.service, w.store)
    ensures var r := GetLatest(w); r.Done? && r.value == w.store.latest && Past(w, r.world, 1)
  {
    hide Exchange, Reads, CanonicalLatest, StillFor;
    StillRead(w, ReadLatest);
  }

  lemma StillCapture(targets: seq<Target>, w: World, t: Target)
    requires StillFor(w, 1) && Resumable(w.service, targets, w.store) && t in targets
    ensures var r := Capture(w, t); r.Done? && GuardHolds(w.service, w.store, t, r.value) && Past(w, r.world, 1)
  {
    hide GetLatest, Reads, Advances, StillFor, ValidRelease, ExactTag, ValidTag;
    assert TargetOk(w.service, w.store, t);
    StillLatest(w);
  }

  lemma StillNoRelease(w: World, t: Target)
    requires StillFor(w, 1) && !HasRelease(w.store, t)
    ensures var r := InspectRelease(w, t); r.Done? && !r.value && Past(w, r.world, 1)
  {
    hide Exchange, Reads, StillFor;
    StillRead(w, ReadRelease(t.tag));
  }

  /** The reads of a run before it creates its Release. */
  ghost function ReadsBefore(authority: Authority): nat {
    RebindLength(authority) + 5
  }

  /** Undisturbed reads lead to the creation of the Release. */
  lemma ReachesCreation(targets: seq<Target>, w: World, t: Target, authority: Authority)
    returns (guard: Guard, posting: World)
    requires StillFor(w, ReadsBefore(authority)) && Resumable(w.service, targets, w.store) && t in targets
    requires HasTag(w.store, t) && !HasRelease(w.store, t) && AuthorityHolds(w.store, t.source, authority)
    ensures GuardHolds(w.service, w.store, t, guard) && Past(w, posting, ReadsBefore(authority))
    ensures Capture(w, t).Done? && Capture(w, t).value == guard
    ensures var found := InspectRelease(Capture(w, t).world, t);
      && found.Done? && !found.value
      && var bound := Rebind(found.world, t, authority);
      && bound.Done?
      && var tagged := RequireExactTagObject(bound.world, t, TagSha(w.store, t));
      && tagged.Done?
      && var latest := RequireUnchanged(tagged.world, guard);
      && latest.Done? && latest.world == posting
  {
    hide Capture, Rebind, RequireExactTagObject, GetLatest, InspectRelease, Past, StillFor, RebindLength;
    hide Reads, AuthorityHolds, Advances, ValidRelease, ExactTag, CanonicalLatest;
    var k, n := RebindLength(authority), ReadsBefore(authority);
    assert TargetOk(w.service, w.store, t);
    NothingPast(w);
    StillAhead(w, w, 0, 1, n);
    StillCapture(targets, w, t);
    guard := Capture(w, t).value;
    var w1 := Capture(w, t).world;
    StillAhead(w, w1, 1, 1, n);
    StillNoRelease(w1, t);
    var w2 := InspectRelease(w1, t).world;
    PastThen(w, w1, w2, 1, 1);
    StillAhead(w, w2, 2, k, n);
    StillRebind(w2, t, authority);
    var w3 := Rebind(w2, t, authority).world;
    PastThen(w, w2, w3, 2, k);
    StillAhead(w, w3, 2 + k, 2, n);
    StillTag(w3, t);
    var w4 := RequireExactTagObject(w3, t, TagSha(w.store, t)).world;
    PastThen(w, w3, w4, 2 + k, 2);
    StillAhead(w, w4, 4 + k, 1, n);
    StillLatest(w4);
    posting := GetLatest(w4).world;
    PastThen(w, w4, posting, 4 + k, 1);
  }

  /** Someone publishes `tag` and makes it Latest unless Latest is already further on. */
  function Published(service: Service, tag: string, s: Store): Store {
    if tag in s.releases || service.rank(tag).None? then s
    else
      var id := s.lastId + 1;
      var ahead := s.latest.Some? && service.rank(s.latest.value.tagName).Some?
        && !RankLess(service.rank(s.latest.value.tagName).value, service.rank(tag).value);
      s.(releases := s.releases[tag := Release(id, tag, "", tag, "", false, false, true, APP, [])],
         latest := if ahead then s.latest else Some(Latest(id, tag)),
         lastId := id)
  }

  lemma PublishingIsFriendly(service: Service, targets: seq<Target>, tag: string, s: Store)
    requires Resumable(service, targets, s) && forall u :: u in targets ==> u.tag != tag
    requires CanonicalLatest(service, Latest(1, tag))
    ensures Resumable(service, targets, Published(service, tag, s))
    ensures Progress(service, targets, s, Published(service, tag, s))
  {
    hide RankLess, ValidTag, ValidTagRef, ValidRelease, Advances;
    var after := Published(service, tag, s);
    RankIrreflexive(service.rank(tag).value);
    assert LatestRises(service, s, after);
    forall u | u in targets
      ensures TargetOk(service, after, u)
    {
      assert TargetOk(service, s, u);
      if HasRelease(s, u) {
        AdvancesFalls(service, u, s, after);
      }
    }
  }

  lemma PublishingIsOrderly(service: Service, targets: seq<Target>, tag: string)
    requires CanonicalLatest(service, Latest(1, tag)) && forall u :: u in targets ==> u.tag != tag
    ensures Orderly(service, targets, tag, s => Published(service, tag, s))
  {
    hide Published, TargetOk, Progress, Overlooked;
    var foreign := (s: Store) => Published(service, tag, s);
    forall s | Resumable(service, targets, s)
      ensures Resumable(service, targets, foreign(s)) && Progress(service, targets, s, foreign(s))
      ensures !Overlooked(service, s, tag) ==> !Overlooked(service, foreign(s), tag)
    {
      PublishingIsFriendly(service, targets, tag, s);
      if !Overlooked(service, s, tag) {
        PublishedIsSeen(service, tag, s);
      }
    }
    assert Friendly(service, targets, foreign);
  }

  lemma PublishedIsSeen(service: Service, tag: string, s: Store)
    requires !Overlooked(service, s, tag)
    ensures !Overlooked(service, Published(service, tag, s), tag)
  {
    hide RankLess;
    if service.rank(tag).Some? {
      RankIrreflexive(service.rank(tag).value);
    }
  }

  lemma DoingNothingIsOrderly(service: Service, targets: seq<Target>, tag: string)
    ensures Orderly(service, targets, tag, s => s)
  {
    hide Overlooked, TargetOk, RankLess;
  }

  /** The race: undisturbed reads, and then the publication of `tag` just before the creation arrives. */
  ghost predicate Raced(w: World, n: nat, tag: string) {
    && |w.turns| == n + 1 && StillFor(w, n) && w.turns[n].fault == Deliver
    && forall s: Store :: w.turns[n].foreign(s) == Published(w.service, tag, s)
  }

  /** A raced script exists, and all its actors are orderly. */
  lemma RaceIsOrderly(targets: seq<Target>, w: World, n: nat, tag: string) returns (turns: seq<Turn>)
    requires CanonicalLatest(w.service, Latest(1, tag)) && forall u :: u in targets ==> u.tag != tag
    ensures OrderlyScript(w.service, targets, tag, turns) && Raced(w.(turns := turns), n, tag)
  {
    hide Orderly, Published;
    var service := w.service;
    var still, publish := Turn(s => s, Deliver), Turn(s => Published(service, tag, s), Deliver);
    turns := seq(n, _ => still) + [publish];
    DoingNothingIsOrderly(service, targets, tag);
    PublishingIsOrderly(service, targets, tag);
    forall turn | turn in turns
      ensures turn == still || turn == publish
    {
      var k :| 0 <= k < |turns| && turns[k] == turn;
      assert k < n ==> turns[k] == still;
    }
    assert Still(still);
  }

  /** What the raced creation leaves: the Release as asked for, and Latest at it. */
  lemma RacedPost(targets: seq<Target>, w: World, posting: World, n: nat, t: Target, guard: Guard, tag: string)
    requires Raced(w, n, tag) && Past(w, posting, n)
    requires Resumable(w.service, targets, w.store) && t in targets && !HasRelease(w.store, t) && t.tag != tag
    requires w.service.rank(tag).Some? && tag !in w.store.releases
    requires guard.target == t.tag && guard.advance
    ensures var r := Exchange(posting, PostRelease(ReleaseRequest(t, guard)));
      && r.Done? && r.value.ARelease? && ValidRelease(r.value.release, t)
      && r.world.turns == [] && r.world.service == w.service
      && r.world.store.refs == w.store.refs && r.world.store.objects == w.store.objects
      && HasRelease(r.world.store, t) && r.world.store.releases[t.tag] == r.value.release
      && tag in r.world.store.releases
      && r.world.store.latest.Some? && r.world.store.latest.value.tagName == t.tag && r.world.store.latest.value.id != 0
  {
    hide TargetOk, RanksLatest, StillFor, RankLess;
    assert posting.turns[0] == w.turns[n] && |posting.turns| == 1;
  }

  lemma SettledAfterRace(service: Service, targets: seq<Target>, s: Store, after: Store, t: Target)
    requires Resumable(service, targets, s) && t in targets && HasTag(s, t) && HasRelease(after, t)
    requires after.refs == s.refs && after.objects == s.objects && ValidRelease(after.releases[t.tag], t)
    requires after.latest.Some? && after.latest.value.tagName == t.tag && after.latest.value.id != 0
    requires t.line.Main? && service.rank(t.tag).value.version.pre == ""
    ensures Resumable(service, [t], after)
  {
    hide ValidRelease, ValidTag, ValidTagRef, RankLess;
    RankIrreflexive(service.rank(t.tag).value);
    assert TargetOk(service, s, t);
  }

  /** A target ahead of Latest proves that the newer tag is not out yet. */
  lemma NewerIsUnpublished(service: Service, s: Store, t: Target, tag: string)
    requires Newer(service, t, tag) && RanksLatest(service, s) && !Overlooked(service, s, tag)
    requires Advances(service, t, s.latest)
    ensures tag !in s.releases
  {
    hide RankLess;
    if s.latest.Some? {
      RankTransitive(service.rank(s.latest.value.tagName).value, service.rank(t.tag).value, service.rank(tag).value);
    }
  }

  /**
   The window is real, with or without a binding: in every such state one ill-timed newer Release
   is enough. The run then succeeds, its closing read finds the Latest it intended, and the newer
   Release is overlooked.
   */
  lemma RaceTakesLatestBack(targets: seq<Target>, w: World, t: Target, authority: Authority, tag: string)
    requires Pending(targets, w.(turns := []), t, authority, tag) && Advances(w.service, t, w.store.latest)
    requires Raced(w, ReadsBefore(authority), tag)
    ensures var r := ReconcileRelease(w, t, authority, TagSha(w.store, t));
      && r.Done? && r.world.store.latest.Some? && r.world.store.latest.value.tagName == t.tag
      && Overlooked(w.service, r.world.store, tag) && RanksLatest(w.service, r.world.store)
  {
    hide Capture, InspectRelease, Rebind, RequireExactTagObject, RequireUnchanged, Exchange,
         Confirm, AfterFailedRelease;
    hide Reads, StillFor, Past, Raced, TargetOk, RankLess, AuthorityHolds, ValidRelease, ReadsBefore;
    var n, sha := ReadsBefore(authority), TagSha(w.store, t);
    NewerIsUnpublished(w.service, w.store, t, tag);
    RacedIsStill(w, n, tag);
    var guard, posting := ReachesCreation(targets, w, t, authority);
    RacedPost(targets, w, posting, n, t, guard, tag);
    var found := InspectRelease(Capture(w, t).world, t);
    var created := CreateRelease(found.world, t, authority, sha, guard);
    SettledAfterRace(w.service, targets, w.store, created.world.store, t);
    InspectReleaseQuiet([t], created.world, t);
    ConfirmQuiet([t], InspectRelease(created.world, t).world, t, guard);
  }

  lemma RacedIsStill(w: World, n: nat, tag: string)
    requires Raced(w, n, tag)
    ensures StillFor(w, n)
  {
  }

  /**
   Exactly when a run keeps Latest: no orderly actors, whatever they do and whatever calls fail,
   can make it leave the newer Release overlooked if and only if the guard's own question, asked
   of Latest before the run starts, is answered no.
   */
  lemma LatestKeptExactly(targets: seq<Target>, w: World, t: Target, authority: Authority, tag: string)
    requires Pending(targets, w, t, authority, tag)
    ensures KeepsLatest(targets, w, t, authority, tag) <==> !Advances(w.service, t, w.store.latest)
  {
    hide ReconcileRelease, TargetOk, AuthorityHolds, Orderly, RankLess, Raced, ReadsBefore;
    var sha := TagSha(w.store, t);
    if Advances(w.service, t, w.store.latest) {
      var turns := RaceIsOrderly(targets, w, ReadsBefore(authority), tag);
      var raced := w.(turns := turns);
      assert raced.(turns := []) == w;
      RaceTakesLatestBack(targets, raced, t, authority, tag);
      assert OrderlyScript(w.service, targets, tag, turns);
    } else {
      StartsBehind(targets, w, t, tag);
      forall turns | OrderlyScript(w.service, targets, tag, turns)
        ensures !Overlooked(w.service, ReconcileRelease(w.(turns := turns), t, authority, sha).world.store, tag)
      {
        BehindIsSafe(targets, w.(turns := turns), t, authority, sha, tag);
      }
    }
  }

  lemma StartsBehind(targets: seq<Target>, w: World, t: Target, tag: string)
    requires t in targets && Resumable(w.service, targets, w.store) && HasTag(w.store, t)
    requires !Overlooked(w.service, w.store, tag) && !Advances(w.service, t, w.store.latest)
    ensures Behind(w.service, targets, t, tag, w.store, w.store)
  {
    hide TargetOk, RankLess;
  }

  // What follows for the newer Release.

  /**
   A package whose Release Latest is behind can no longer be finalized: while nobody else moves
   Latest, its run never succeeds, posts nothing and changes nothing.
   */
  lemma OverlookedIsBlocked(w: World, u: Target, authority: Authority, sha: Sha)
    requires FaultsOnly(w.turns) && HasRelease(w.store, u)
    requires w.service.rank(u.tag).Some? && RanksLatest(w.service, w.store) && Advances(w.service, u, w.store.latest)
    ensures var r := ReconcileRelease(w, u, authority, sha);
      !r.Done? && r.world.store == w.store && Reads(w, r.world)
  {
    hide RankLess, CanonicalLatest, ValidRelease, RequireExactTagObject, Reads, FaultsOnly,
         CreateRelease, Exchange, GetLatest;
    var captured := Capture(w, u);
    UnmovedReads(w, captured.world);
    if captured.Done? {
      CaptureUnmoved(w, u);
      var found := InspectRelease(captured.world, u);
      UnmovedReads(captured.world, found.world);
      ReadsThen(w, captured.world, found.world);
      if found.Done? {
        ReleaseStays(captured.world, u);
        RankIrreflexive(w.service.rank(u.tag).value);
        var confirmed := Confirm(found.world, u, sha, captured.value);
        UnmovedReads(found.world, confirmed.world);
        ReadsThen(w, found.world, confirmed.world);
        NeverIntended(found.world, u, sha, captured.value);
      }
    }
  }

  lemma UnmovedReads(w: World, after: World)
    requires FaultsOnly(w.turns) && Reads(w, after)
    ensures FaultsOnly(after.turns) && after.store == w.store && after.service == w.service
  {
    var invariant_ := (s: Store) => s == w.store;
    assert Kept(invariant_, w.turns);
    ReadsKeep(w, after, invariant_);
  }

  lemma UnmovedArrival(w: World)
    requires FaultsOnly(w.turns)
    ensures Arrival(w) == w.store
  {
  }

  lemma CaptureUnmoved(w: World, u: Target)
    requires FaultsOnly(w.turns) && Capture(w, u).Done?
    ensures Capture(w, u).value.before == w.store.latest && GuardFor(w.service, u, Capture(w, u).value)
  {
    hide Capture, GuardFor, FaultsOnly;
    CaptureOnArrival(w, u);
    UnmovedArrival(w);
  }

  lemma ReleaseStays(w: World, u: Target)
    requires FaultsOnly(w.turns) && HasRelease(w.store, u) && InspectRelease(w, u).Done?
    ensures InspectRelease(w, u).value
  {
    hide Reads, ValidRelease;
  }

  lemma NeverIntended(w: World, u: Target, sha: Sha, guard: Guard)
    requires FaultsOnly(w.turns) && guard.advance && guard.target == u.tag
    requires w.store.latest.Some? ==> w.store.latest.value.tagName != u.tag
    ensures !Confirm(w, u, sha, guard).Done?
  {
    hide RequireExactTagObject, Reads, CanonicalLatest, FaultsOnly;
    var tagged := RequireExactTagObject(w, u, sha);
    UnmovedReads(w, tagged.world);
    if tagged.Done? {
      UnmovedArrival(tagged.world);
    }
  }

  /** After the race the newer version's own package, if its Release is the overlooked one, is blocked for good. */
  lemma RaceBlocksNewer(
    targets: seq<Target>, w: World, t: Target, authority: Authority, u: Target,
    later: World, again: Authority, sha: Sha)
    requires Pending(targets, w.(turns := []), t, authority, u.tag) && Advances(w.service, t, w.store.latest)
    requires Raced(w, ReadsBefore(authority), u.tag) && u.line.Main?
    requires later.service == w.service && FaultsOnly(later.turns)
    requires later.store == ReconcileRelease(w, t, authority, TagSha(w.store, t)).world.store
    ensures var r := ReconcileRelease(later, u, again, sha);
      !r.Done? && r.world.store == later.store && Reads(later, r.world)
  {
    hide ReconcileRelease, Resumable, AuthorityHolds, RankLess, Raced, FaultsOnly, ReadsBefore, Reads;
    RaceTakesLatestBack(targets, w, t, authority, u.tag);
    OverlookedIsBlocked(later, u, again, sha);
  }

  // A concrete input: version 0.6.0 of the first package while its version 0.7.0 is published.

  const COMMIT: Sha := "aaaaaaaaaaaaaaaaaaaaaaaaaaaaaaaaaaaaaaaa"
  const OBJECT: Sha := "bbbbbbbbbbbbbbbbbbbbbbbbbbbbbbbbbbbbbbbb"
  const ELSEWHERE: Sha := "cccccccccccccccccccccccccccccccccccccccc"

  const OLD: Version := Version(0, 6, 0, "", "")
  const NEW: Version := Version(0, 7, 0, "", "")
  const OLD_TAG := "yaml-sigil-core-v0.6.0"
  const NEW_TAG := "yaml-sigil-core-v0.7.0"

  /** A fresh release of main's tip. */
  const FRESH := Authority(COMMIT, Some(Binding(MAIN_REF, true, None)))

  function Example(): Result<Target, Error> {
    TargetFor(ALL_PACKAGES[0], OLD, Main, COMMIT, "2026-01-01T00:00:00Z")
  }

  lemma DigitText(n: nat)
    requires n < 10
    ensures Print(n) == ['0' + n as char]
  {
  }

  lemma OldText()
    ensures OLD.Text() == "0.6.0"
  {
    hide Print;
    DigitText(0);
    DigitText(6);
  }

  lemma OldTagBytes()
    ensures forall c :: c in OLD_TAG ==> TagByte(c)
  {
    forall k | 0 <= k < |OLD_TAG|
      ensures TagByte(OLD_TAG[k])
    {
    }
  }

  lemma OldTag()
    ensures ALL_PACKAGES[0].tagPrefix + OLD.Text() == OLD_TAG
  {
    hide Version.Text;
    OldText();
    assert ALL_PACKAGES[0].tagPrefix == CORE + "-v";
    assert CORE + "-v" + "0.6.0" == OLD_TAG;
  }

  lemma ExampleTarget()
    ensures Example().Ok? && Example().value.tag == OLD_TAG && Example().value.line.Main?
    ensures Example().value.source == COMMIT
  {
    hide Version.Text, TagByte;
    OldTag();
    OldTagBytes();
  }

  function ExampleRank(tag: string): Option<Rank> {
    if tag == OLD_TAG then Some(Rank(OLD, 0)) else if tag == NEW_TAG then Some(Rank(NEW, 0)) else None
  }

  function ExampleAddress(payload: TagPayload): Sha {
    if payload.tag == OLD_TAG then OBJECT else ELSEWHERE
  }

  function ExampleService(): Service {
    Service(ExampleAddress, APP, true, ExampleRank)
  }

  function ExampleStore(t: Target): Store {
    Store(map[MAIN_REF := GitRef(MAIN_REF, "commit", COMMIT), t.RefName() := GitRef(t.RefName(), "tag", OBJECT)],
          map[(COMMIT, COMMIT) := Comparison("identical", COMMIT, COMMIT)],
          map[OBJECT := TagOf(OBJECT, t.Payload())],
          map[], None, 0)
  }

  lemma ExampleShas()
    ensures IsSha(COMMIT) && IsSha(OBJECT)
  {
  }

  lemma ExampleTagDiffers()
    ensures OLD_TAG != NEW_TAG
  {
    assert OLD_TAG[19] == '6' && NEW_TAG[19] == '7';
  }

  lemma ExampleRanks()
    ensures ExampleRank(OLD_TAG) == Some(Rank(OLD, 0)) && ExampleRank(NEW_TAG) == Some(Rank(NEW, 0))
    ensures RankLess(Rank(OLD, 0), Rank(NEW, 0))
  {
    ExampleTagDiffers();
  }

  lemma ExampleDependable(t: Target)
    requires t.tag == OLD_TAG
    ensures Dependable(ExampleService(), [t])
  {
    hide IsSha;
    ExampleShas();
  }

  lemma ExampleRefs(t: Target)
    requires t.tag == OLD_TAG
    ensures t.RefName() != MAIN_REF
  {
    assert |OLD_TAG| == 22 && |MAIN_REF| == 15;
  }

  lemma ExampleTagExact(t: Target)
    requires t.tag == OLD_TAG
    ensures HasTag(ExampleStore(t), t) && ExactTag(ExampleStore(t), t) && TagSha(ExampleStore(t), t) == OBJECT
  {
    hide IsSha;
    ExampleShas();
    ExampleRefs(t);
  }

  lemma ExampleAuthority(t: Target)
    requires t.tag == OLD_TAG
    ensures AuthorityHolds(ExampleStore(t), COMMIT, FRESH)
  {
    hide IsSha;
    ExampleShas();
    ExampleRefs(t);
  }

  lemma ExamplePending(t: Target)
    requires t.tag == OLD_TAG && t.line.Main? && t.source == COMMIT
    ensures Pending([t], World(ExampleService(), ExampleStore(t), [], []), t, FRESH, NEW_TAG)
    ensures Advances(ExampleService(), t, None)
  {
    hide IsSha, Dependable, ExactTag, AuthorityHolds, RankLess, ExampleRank;
    ExampleDependable(t);
    ExampleTagExact(t);
    ExampleAuthority(t);
    ExampleRanks();
    ExampleTagDiffers();
    assert ValidTag(ExampleStore(t).objects[OBJECT], t, OBJECT);
    assert TargetOk(ExampleService(), ExampleStore(t), t);
  }

  /** The window on the program's own names: the run of 0.6.0 succeeds and takes Latest back
      from the published 0.7.0. */
  lemma LatestMovesBack() returns (t: Target, turns: seq<Turn>)
    ensures Example() == Ok(t) && OrderlyScript(ExampleService(), [t], NEW_TAG, turns)
    ensures var r := ReconcileRelease(World(ExampleService(), ExampleStore(t), turns, []), t, FRESH, OBJECT);
      && r.Done? && NEW_TAG in r.world.store.releases
      && r.world.store.latest.Some? && r.world.store.latest.value.tagName == OLD_TAG
  {
    hide ReconcileRelease, Resumable, AuthorityHolds, RankLess, Raced, ReadsBefore, ExactTag, ExampleStore, Orderly;
    hide Example, ExampleService;
    ExampleTarget();
    t := Example().value;
    ExamplePending(t);
    ExampleTagExact(t);
    var quiet := World(ExampleService(), ExampleStore(t), [], []);
    turns := RaceIsOrderly([t], quiet, ReadsBefore(FRESH), NEW_TAG);
    var raced := quiet.(turns := turns);
    ExampleHasNoLatest(t);
    assert raced.(turns := []) == quiet;
    RaceTakesLatestBack([t], raced, t, FRESH, NEW_TAG);
  }

  lemma ExampleHasNoLatest(t: Target)
    ensures ExampleStore(t).latest.None?
  {
  }
}
