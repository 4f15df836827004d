/** What the record of every finalization run shows, whatever other actors and the network do. */
module FinalizationRecord {
  import opened Wrappers
  import opened ReleasePolicy
  import opened Forge
  import opened Finalization

  /** `later` repeats `trace` and may go on. */
  ghost predicate Prefix(trace: seq<Event>, later: seq<Event>) {
    |trace| <= |later| && forall k :: 0 <= k < |trace| ==> later[k] == trace[k]
  }

  /** Only the events up to `i` decide whether `i` is guarded. */
  lemma GuardedSame(
    trace: seq<Event>, later: seq<Event>, i: int, from: nat, target: Target, authority: Authority, settled: Sha)
    requires 0 <= i < |trace| && Prefix(trace, later)
    requires GuardedAt(trace, i, from, target, authority, settled)
    ensures GuardedAt(later, i, from, target, authority, settled)
  {
  }

  lemma RebindSame(trace: seq<Event>, later: seq<Event>, n: nat, source: Sha, authority: Authority)
    requires n <= |trace| && Prefix(trace, later) && RebindShown(trace, n, source, authority)
    ensures RebindShown(later, n, source, authority)
  {
  }

  lemma TagSame(trace: seq<Event>, later: seq<Event>, n: nat, target: Target, sha: Sha)
    requires n + 1 < |trace| && Prefix(trace, later) && TagShown(trace, n, target, sha)
    ensures TagShown(later, n, target, sha)
  {
  }

  lemma Compose(w: World, middle: World, after: World, from: nat, target: Target, authority: Authority, settled: Sha)
    requires Follows(w, middle) && Guarded(middle.trace, |w.trace|, from, target, authority, settled)
    requires Follows(middle, after) && Guarded(after.trace, |middle.trace|, from, target, authority, settled)
    ensures Follows(w, after) && Guarded(after.trace, |w.trace|, from, target, authority, settled)
  {
    hide GuardedAt;
    forall i | |w.trace| <= i < |middle.trace|
      ensures GuardedAt(after.trace, i, from, target, authority, settled)
    {
      GuardedSame(middle.trace, after.trace, i, from, target, authority, settled);
    }
  }

  lemma OnlyReads(w: World, after: World, from: nat, target: Target, authority: Authority, settled: Sha)
    requires Reads(w, after)
    ensures Follows(w, after) && Guarded(after.trace, |w.trace|, from, target, authority, settled)
  {
  }

  /** Reading keeps the record guarded. */
  lemma ThenReads(w: World, middle: World, after: World, from: nat, target: Target, authority: Authority, settled: Sha)
    requires Follows(w, middle) && Guarded(middle.trace, |w.trace|, from, target, authority, settled)
    requires Reads(middle, after)
    ensures Follows(w, after) && Guarded(after.trace, |w.trace|, from, target, authority, settled)
  {
    OnlyReads(middle, after, from, target, authority, settled);
    Compose(w, middle, after, from, target, authority, settled);
  }

  /** A tag object or ref is posted right after a rebind of the run that began at `from`. */
  lemma TagPostGuarded(
    w: World, bound: World, from: nat, target: Target, authority: Authority, call: Call, settled: Sha)
    requires Reads(w, bound) && |bound.trace| == |w.trace| + RebindLength(authority) && from <= |w.trace|
    requires RebindShown(bound.trace, |bound.trace|, target.source, authority)
    requires call == PostTagObject(target.Payload())
      || (call.PostTagRef? && call.name == target.RefName() && from < |w.trace|
          && ObjectShown(w.trace[|w.trace| - 1], target, call.sha))
    ensures Follows(w, Exchange(bound, call).world)
    ensures Guarded(Exchange(bound, call).world.trace, |w.trace|, from, target, authority, settled)
  {
    hide Exchange, RebindShown;
    RebindSame(bound.trace, Exchange(bound, call).world.trace, |bound.trace|, target.source, authority);
  }

  lemma CreateTagObjectGuarded(w: World, from: nat, target: Target, authority: Authority, settled: Sha)
    requires from <= |w.trace|
    ensures Guarded(CreateTagObject(w, target, authority).world.trace, |w.trace|, from, target, authority, settled)
  {
    hide Rebind, Exchange, ReadBack, RebindShown, Guarded, Reads;
    var bound := Rebind(w, target, authority);
    OnlyReads(w, bound.world, from, target, authority, settled);
    if bound.Done? {
      var call := PostTagObject(target.Payload());
      var posted := Exchange(bound.world, call);
      TagPostGuarded(w, bound.world, from, target, authority, call, settled);
      if posted.Done? && posted.value.ATag? {
        var readback := ReadBack(posted.world, target, posted.value.annotated);
        ThenReads(w, posted.world, readback.world, from, target, authority, settled);
      }
    }
  }

  /** A created tag object was read back exact last. */
  lemma CreatedObjectShown(w: World, target: Target, authority: Authority)
    requires CreateTagObject(w, target, authority).Done?
    ensures var r := CreateTagObject(w, target, authority);
      |w.trace| < |r.world.trace| && ObjectShown(r.world.trace[|r.world.trace| - 1], target, r.value)
  {
    hide Rebind, Exchange, ReadBack, Reads, Evolves, ObjectShown;
  }

  lemma CreateTagRefGuarded(w: World, from: nat, target: Target, authority: Authority, sha: Sha, settled: Sha)
    requires from < |w.trace| && ObjectShown(w.trace[|w.trace| - 1], target, sha)
    ensures Guarded(CreateTagRef(w, target, authority, sha).world.trace, |w.trace|, from, target, authority, settled)
  {
    hide Rebind, Exchange, RequireExactTagObject, RebindShown, Guarded, Reads;
    var bound := Rebind(w, target, authority);
    OnlyReads(w, bound.world, from, target, authority, settled);
    if bound.Done? {
      var call := PostTagRef(target.RefName(), sha);
      var posted := Exchange(bound.world, call);
      TagPostGuarded(w, bound.world, from, target, authority, call, settled);
      var check := RequireExactTagObject(posted.world, target, sha);
      ThenReads(w, posted.world, check.world, from, target, authority, settled);
    }
  }

  lemma ReconcileTagGuarded(w: World, from: nat, target: Target, authority: Authority, settled: Sha)
    requires from <= |w.trace|
    ensures Guarded(ReconcileTag(w, target, authority).world.trace, |w.trace|, from, target, authority, settled)
  {
    hide InspectTag, CreateTagObject, CreateTagRef, RequireExactTagObject, Guarded, ObjectShown;
    var found := InspectTag(w, target);
    OnlyReads(w, found.world, from, target, authority, settled);
    if found.Done? && found.value.None? {
      var created := CreateTagObject(found.world, target, authority);
      CreateTagObjectGuarded(found.world, from, target, authority, settled);
      Compose(w, found.world, created.world, from, target, authority, settled);
      if created.Done? {
        var ref := CreateTagRef(created.world, target, authority, created.value);
        CreatedObjectShown(found.world, target, authority);
        CreateTagRefGuarded(created.world, from, target, authority, created.value, settled);
        Compose(w, created.world, ref.world, from, target, authority, settled);
        var check := RequireExactTagObject(ref.world, target, created.value);
        ThenReads(w, ref.world, check.world, from, target, authority, settled);
      }
    }
  }

  /** A Release creation directly follows its rebind, the exact tag and Latest. */
  lemma ReleasePostGuarded(
    w: World, bound: World, tagged: World, latest: World, from: nat, target: Target, authority: Authority,
    sha: Sha, guard: Guard)
    requires Reads(w, bound) && |bound.trace| == |w.trace| + RebindLength(authority) && from <= |w.trace|
    requires RebindShown(bound.trace, |bound.trace|, target.source, authority)
    requires Reads(bound, tagged) && |tagged.trace| == |bound.trace| + 2
    requires TagShown(tagged.trace, |bound.trace|, target, sha)
    requires Reads(tagged, latest) && |latest.trace| == |tagged.trace| + 1
    requires latest.trace[|tagged.trace|].call == ReadLatest
    ensures var posted := Exchange(latest, PostRelease(ReleaseRequest(target, guard))).world;
      Follows(w, posted) && Guarded(posted.trace, |w.trace|, from, target, authority, sha)
  {
    hide Exchange, RebindShown;
    var trace := Exchange(latest, PostRelease(ReleaseRequest(target, guard))).world.trace;
    RebindSame(bound.trace, trace, |bound.trace|, target.source, authority);
    TagSame(tagged.trace, trace, |bound.trace|, target, sha);
  }

  lemma CreateReleaseGuarded(w: World, from: nat, target: Target, authority: Authority, sha: Sha, guard: Guard)
    requires from <= |w.trace|
    ensures Guarded(
      CreateRelease(w, target, authority, sha, guard).world.trace, |w.trace|, from, target, authority, sha)
  {
    hide Rebind, Exchange, RequireExactTagObject, RequireUnchanged, AfterFailedRelease;
    hide RebindShown, TagShown, Guarded, Reads, Follows, ValidRelease;
    var bound := Rebind(w, target, authority);
    OnlyReads(w, bound.world, from, target, authority, sha);
    if bound.Done? {
      var tagged := RequireExactTagObject(bound.world, target, sha);
      ThenReads(w, bound.world, tagged.world, from, target, authority, sha);
      if tagged.Done? {
        var latest := RequireUnchanged(tagged.world, guard);
        ThenReads(w, tagged.world, latest.world, from, target, authority, sha);
        if latest.Done? {
          ReleasePostGuarded(w, bound.world, tagged.world, latest.world, from, target, authority, sha, guard);
          var posted := Exchange(latest.world, PostRelease(ReleaseRequest(target, guard)));
          if posted.Failed? {
            var recovery := AfterFailedRelease(posted.world, target, sha, posted.error);
            ThenReads(w, posted.world, recovery.world, from, target, authority, sha);
          }
        }
      }
    }
  }

  lemma ReconcileReleaseGuarded(w: World, from: nat, target: Target, authority: Authority, sha: Sha)
    requires from <= |w.trace|
    ensures Guarded(ReconcileRelease(w, target, authority, sha).world.trace, |w.trace|, from, target, authority, sha)
  {
    hide Capture, InspectRelease, CreateRelease, Confirm, Guarded, Reads, TagShown;
    var captured := Capture(w, target);
    OnlyReads(w, captured.world, from, target, authority, sha);
    if captured.Done? {
      var found := InspectRelease(captured.world, target);
      ThenReads(w, captured.world, found.world, from, target, authority, sha);
      if found.Done? && found.value {
        var confirmed := Confirm(found.world, target, sha, captured.value);
        ThenReads(w, found.world, confirmed.world, from, target, authority, sha);
      } else if found.Done? {
        var created := CreateRelease(found.world, target, authority, sha, captured.value);
        CreateReleaseGuarded(found.world, from, target, authority, sha, captured.value);
        Compose(w, found.world, created.world, from, target, authority, sha);
        if created.Done? {
          var retained := InspectRelease(created.world, target);
          ThenReads(w, created.world, retained.world, from, target, authority, sha);
          if retained.Done? {
            var confirmed := Confirm(retained.world, target, sha, captured.value);
            ThenReads(w, retained.world, confirmed.world, from, target, authority, sha);
          }
        }
      }
    }
  }

  /** The tag object a run settles on before it turns to the Release. */
  ghost function SettledTag(w: World, target: Target, authority: Authority): Sha {
    hide ReconcileTag;
    var tagged := ReconcileTag(w, target, authority);
    if tagged.Done? then tagged.value else ""
  }

  /**
   Every creation of a run is guarded: it directly follows, with only reads between, a
   complete rebind of the same run that ended in a read of main at the policy commit; and a
   Release is created only while the tag is exact at the object the run settled on.
   */
  lemma EveryPostGuarded(w: World, from: nat, target: Target, authority: Authority)
    requires from <= |w.trace|
    ensures Follows(w, FinalizePackage(w, target, authority).world)
    ensures Guarded(
      FinalizePackage(w, target, authority).world.trace, |w.trace|, from, target, authority,
      SettledTag(w, target, authority))
  {
    hide ReconcileTag, ReconcileRelease, Guarded;
    var settled := SettledTag(w, target, authority);
    var tagged := ReconcileTag(w, target, authority);
    ReconcileTagGuarded(w, from, target, authority, settled);
    if tagged.Done? {
      ReconcileReleaseGuarded(tagged.world, from, target, authority, tagged.value);
      var released := ReconcileRelease(tagged.world, target, authority, tagged.value);
      Compose(w, tagged.world, released.world, from, target, authority, settled);
    }
  }

  /** Main drift stops a run: each creation has its own read of main at the policy commit, with no creation between. */
  lemma EveryPostSawMain(w: World, from: nat, target: Target, authority: Authority, i: nat) returns (j: nat)
    requires var trace := FinalizePackage(w, target, authority).world.trace;
      from <= |w.trace| <= i < |trace| && trace[i].call.IsPost()
    ensures var trace := FinalizePackage(w, target, authority).world.trace;
      && from <= j < i && HeadShown(trace[j], MAIN_REF, authority.main)
      && forall k :: j <= k < i ==> !trace[k].call.IsPost()
  {
    hide FinalizePackage, BaseShown, ValidTagRef, SettledTag;
    var settled := SettledTag(w, target, authority);
    EveryPostGuarded(w, from, target, authority);
    var trace := FinalizePackage(w, target, authority).world.trace;
    assert GuardedAt(trace, i, from, target, authority, settled);
    j := if trace[i].call.PostRelease? then i - 4 else i - 1;
  }

  ghost predicate GuardedForSome(trace: seq<Event>, i: int, from: nat, targets: seq<Target>, authority: Authority)
    requires 0 <= i < |trace|
  {
    exists k, settled :: 0 <= k < |targets| && GuardedAt(trace, i, from, targets[k], authority, settled)
  }

  ghost predicate FamilyGuarded(
    trace: seq<Event>, start: nat, from: nat, targets: seq<Target>, authority: Authority)
  {
    forall i :: start <= i < |trace| ==> GuardedForSome(trace, i, from, targets, authority)
  }

  lemma ComposeFamily(
    w: World, middle: World, after: World, from: nat, targets: seq<Target>, authority: Authority, settled: Sha)
    requires targets != [] && Follows(w, middle)
    requires Guarded(middle.trace, |w.trace|, from, targets[0], authority, settled)
    requires Follows(middle, after) && FamilyGuarded(after.trace, |middle.trace|, from, targets[1..], authority)
    ensures Follows(w, after) && FamilyGuarded(after.trace, |w.trace|, from, targets, authority)
  {
    hide GuardedAt;
    forall i | |w.trace| <= i < |after.trace|
      ensures GuardedForSome(after.trace, i, from, targets, authority)
    {
      if i < |middle.trace| {
        GuardedSame(middle.trace, after.trace, i, from, targets[0], authority, settled);
      } else {
        assert GuardedForSome(after.trace, i, from, targets[1..], authority);
        var k, sha :| 0 <= k < |targets[1..]| && GuardedAt(after.trace, i, from, targets[1..][k], authority, sha);
        assert targets[k + 1] == targets[1..][k];
      }
    }
  }

  lemma AloneInFamily(
    w: World, after: World, from: nat, targets: seq<Target>, authority: Authority, settled: Sha)
    requires targets != [] && Guarded(after.trace, |w.trace|, from, targets[0], authority, settled)
    ensures FamilyGuarded(after.trace, |w.trace|, from, targets, authority)
  {
    hide GuardedAt;
    forall i | |w.trace| <= i < |after.trace|
      ensures GuardedForSome(after.trace, i, from, targets, authority)
    {
      assert GuardedAt(after.trace, i, from, targets[0], authority, settled);
    }
  }

  /** Every creation of a family's finalization is guarded for one of its targets. */
  lemma {:induction false} EveryFamilyPostGuarded(w: World, from: nat, targets: seq<Target>, authority: Authority)
    requires from <= |w.trace|
    ensures Follows(w, FinalizeAll(w, targets, authority).world)
    ensures FamilyGuarded(FinalizeAll(w, targets, authority).world.trace, |w.trace|, from, targets, authority)
    decreases |targets|
  {
    hide VerifyBound, FinalizePackage, Guarded, GuardedForSome, Reads, SettledTag;
    if targets != [] {
      var target := targets[0];
      var bound := VerifyBound(w, target.source, authority);
      OnlyReads(w, bound.world, from, target, authority, "");
      AloneInFamily(w, bound.world, from, targets, authority, "");
      if bound.Done? {
        var done := FinalizePackage(bound.world, target, authority);
        var settled := SettledTag(bound.world, target, authority);
        EveryPostGuarded(bound.world, from, target, authority);
        OnlyReads(w, bound.world, from, target, authority, settled);
        Compose(w, bound.world, done.world, from, target, authority, settled);
        AloneInFamily(w, done.world, from, targets, authority, settled);
        if done.Done? {
          EveryFamilyPostGuarded(done.world, from, targets[1..], authority);
          var rest := FinalizeAll(done.world, targets[1..], authority);
          ComposeFamily(w, done.world, rest.world, from, targets, authority, settled);
        }
      }
    }
  }

  /** The last four events: the exact Release, the exact tag at `sha`, and Latest; none of them posts. */
  ghost predicate EndsExact(trace: seq<Event>, from: nat, target: Target, sha: Sha) {
    && from + 4 <= |trace|
    && ReleaseShown(trace[|trace| - 4], target)
    && TagShown(trace, |trace| - 3, target, sha)
    && trace[|trace| - 1].call == ReadLatest
  }

  lemma ConfirmEndsExact(w: World, target: Target, sha: Sha, guard: Guard)
    requires |w.trace| > 0 && ReleaseShown(w.trace[|w.trace| - 1], target) && Confirm(w, target, sha, guard).Done?
    ensures EndsExact(Confirm(w, target, sha, guard).world.trace, |w.trace| - 1, target, sha)
  {
    hide RequireExactTagObject, VerifyLatest, ReleaseShown;
    var tagged := RequireExactTagObject(w, target, sha);
    TagSame(tagged.world.trace, Confirm(w, target, sha, guard).world.trace, |w.trace|, target, sha);
  }

  lemma ReleaseEndsExact(w: World, target: Target, authority: Authority, sha: Sha)
    requires ReconcileRelease(w, target, authority, sha).Done?
    ensures EndsExact(ReconcileRelease(w, target, authority, sha).world.trace, |w.trace|, target, sha)
  {
    hide Capture, InspectRelease, CreateRelease, Confirm, ReleaseShown, TagShown;
    var captured := Capture(w, target);
    var found := InspectRelease(captured.world, target);
    if found.value {
      ConfirmEndsExact(found.world, target, sha, captured.value);
    } else {
      var created := CreateRelease(found.world, target, authority, sha, captured.value);
      var retained := InspectRelease(created.world, target);
      ConfirmEndsExact(retained.world, target, sha, captured.value);
    }
  }

  lemma TagEndsExact(w: World, target: Target, authority: Authority)
    requires ReconcileTag(w, target, authority).Done?
    ensures var r := ReconcileTag(w, target, authority);
      |w.trace| + 2 <= |r.world.trace| && TagShown(r.world.trace, |r.world.trace| - 2, target, r.value)
  {
    hide InspectTag, CreateTagObject, CreateTagRef, RequireExactTagObject, TagShown;
  }

  /**
   A run that succeeds settled on one tag object, which it saw exact at the start, and ends
   by reading the exact Release, that same exact tag object, and Latest, in this order.
   */
  lemma SuccessEndsInExactReads(w: World, target: Target, authority: Authority) returns (start: nat, sha: Sha)
    requires FinalizePackage(w, target, authority).Done?
    ensures ReconcileTag(w, target, authority).Done? && ReconcileTag(w, target, authority).value == sha
    ensures start == |ReconcileTag(w, target, authority).world.trace| && |w.trace| + 2 <= start
    ensures TagShown(FinalizePackage(w, target, authority).world.trace, start - 2, target, sha)
    ensures EndsExact(FinalizePackage(w, target, authority).world.trace, start, target, sha)
  {
    hide ReconcileTag, ReconcileRelease, TagShown, EndsExact;
    var tagged := ReconcileTag(w, target, authority);
    start, sha := |tagged.world.trace|, tagged.value;
    TagEndsExact(w, target, authority);
    ReleaseEndsExact(tagged.world, target, authority, sha);
    var trace := ReconcileRelease(tagged.world, target, authority, sha).world.trace;
    TagSame(tagged.world.trace, trace, start - 2, target, sha);
  }

  // Latest.

  /** A Release creation follows a read of the captured Latest and asks for exactly what that Latest allows. */
  ghost predicate Decided(trace: seq<Event>, i: int, target: Target, guard: Guard)
    requires 0 <= i < |trace|
  {
    trace[i].call.PostRelease? ==>
      i > 0 && LatestShown(trace[i - 1], guard.before) && trace[i].call.releasePayload == ReleaseRequest(target, guard)
  }

  ghost predicate AllDecided(trace: seq<Event>, start: nat, target: Target, guard: Guard) {
    forall i :: start <= i < |trace| ==> Decided(trace, i, target, guard)
  }

  lemma ReadsDecide(w: World, after: World, target: Target, guard: Guard)
    requires Reads(w, after)
    ensures Follows(w, after) && AllDecided(after.trace, |w.trace|, target, guard)
  {
  }

  lemma ComposeDecided(w: World, middle: World, after: World, target: Target, guard: Guard)
    requires Follows(w, middle) && AllDecided(middle.trace, |w.trace|, target, guard)
    requires Follows(middle, after) && AllDecided(after.trace, |middle.trace|, target, guard)
    ensures Follows(w, after) && AllDecided(after.trace, |w.trace|, target, guard)
  {
    hide LatestShown, ReleaseRequest;
    forall i | |w.trace| <= i < |middle.trace|
      ensures Decided(after.trace, i, target, guard)
    {
      assert Decided(middle.trace, i, target, guard);
    }
  }

  lemma ThenReadsDecide(w: World, middle: World, after: World, target: Target, guard: Guard)
    requires Follows(w, middle) && AllDecided(middle.trace, |w.trace|, target, guard)
    requires Reads(middle, after)
    ensures Follows(w, after) && AllDecided(after.trace, |w.trace|, target, guard)
  {
    ReadsDecide(middle, after, target, guard);
    ComposeDecided(w, middle, after, target, guard);
  }

  lemma PostDecided(w: World, target: Target, guard: Guard)
    requires |w.trace| > 0 && LatestShown(w.trace[|w.trace| - 1], guard.before)
    ensures var posted := Exchange(w, PostRelease(ReleaseRequest(target, guard))).world;
      Follows(w, posted) && AllDecided(posted.trace, |w.trace|, target, guard)
  {
    hide Exchange, LatestShown;
  }

  lemma CreateReleaseDecided(w: World, target: Target, authority: Authority, sha: Sha, guard: Guard)
    ensures AllDecided(CreateRelease(w, target, authority, sha, guard).world.trace, |w.trace|, target, guard)
  {
    hide Rebind, Exchange, RequireExactTagObject, RequireUnchanged, AfterFailedRelease;
    hide RebindShown, TagShown, LatestShown, AllDecided, Reads, Follows, ValidRelease;
    var bound := Rebind(w, target, authority);
    ReadsDecide(w, bound.world, target, guard);
    if bound.Done? {
      var tagged := RequireExactTagObject(bound.world, target, sha);
      ThenReadsDecide(w, bound.world, tagged.world, target, guard);
      if tagged.Done? {
        var latest := RequireUnchanged(tagged.world, guard);
        ThenReadsDecide(w, tagged.world, latest.world, target, guard);
        if latest.Done? {
          PostDecided(latest.world, target, guard);
          var posted := Exchange(latest.world, PostRelease(ReleaseRequest(target, guard)));
          ComposeDecided(w, latest.world, posted.world, target, guard);
          if posted.Failed? {
            var recovery := AfterFailedRelease(posted.world, target, sha, posted.error);
            ThenReadsDecide(w, posted.world, recovery.world, target, guard);
          }
        }
      }
    }
  }

  lemma ConfirmShowsIntended(w: World, target: Target, sha: Sha, guard: Guard)
    requires Confirm(w, target, sha, guard).Done?
    ensures var trace := Confirm(w, target, sha, guard).world.trace;
      |w.trace| < |trace| && IntendedShown(trace[|trace| - 1], guard)
  {
    hide RequireExactTagObject, VerifyLatest, IntendedShown, TagShown;
  }

  /**
   Whatever happens meanwhile, a Release is created with the Latest selection that the Latest
   captured first and read again just before allows, and success ends by reading the outcome
   that selection intends.
   */
  lemma LatestDecidesRelease(w: World, target: Target, authority: Authority, sha: Sha) returns (guard: Guard)
    requires Capture(w, target).Done?
    ensures var r := ReconcileRelease(w, target, authority, sha);
      && guard == Capture(w, target).value && GuardFor(w.service, target, guard)
      && |w.trace| < |r.world.trace| && LatestShown(r.world.trace[|w.trace|], guard.before)
      && AllDecided(r.world.trace, |w.trace|, target, guard)
      && (r.Done? ==> IntendedShown(r.world.trace[|r.world.trace| - 1], guard))
  {
    hide Capture, InspectRelease, CreateRelease, Confirm, LatestShown, AllDecided, Reads, IntendedShown, GuardFor;
    var captured := Capture(w, target);
    guard := captured.value;
    ReadsDecide(w, captured.world, target, guard);
    var start := captured.world;
    var found := InspectRelease(start, target);
    ReadsDecide(start, found.world, target, guard);
    if found.Done? && found.value {
      var confirmed := Confirm(found.world, target, sha, guard);
      ThenReadsDecide(start, found.world, confirmed.world, target, guard);
      if confirmed.Done? {
        ConfirmShowsIntended(found.world, target, sha, guard);
      }
    } else if found.Done? {
      var created := CreateRelease(found.world, target, authority, sha, guard);
      CreateReleaseDecided(found.world, target, authority, sha, guard);
      ComposeDecided(start, found.world, created.world, target, guard);
      if created.Done? {
        var retained := InspectRelease(created.world, target);
        ThenReadsDecide(start, created.world, retained.world, target, guard);
        if retained.Done? && retained.value {
          var confirmed := Confirm(retained.world, target, sha, guard);
          ThenReadsDecide(start, retained.world, confirmed.world, target, guard);
          if confirmed.Done? {
            ConfirmShowsIntended(retained.world, target, sha, guard);
          }
        }
      }
    }
    ComposeDecided(w, start, ReconcileRelease(w, target, authority, sha).world, target, guard);
  }

  // Whole attempts.

  /** Main, the bound base, main unchanged, and the bound base again. */
  ghost predicate PreflightShown(trace: seq<Event>, start: nat, source: Sha, authority: Authority) {
    var bound := if authority.binding.None? then 0 else RebindLength(authority);
    && start + 2 * bound + 2 <= |trace|
    && HeadShown(trace[start], MAIN_REF, authority.main)
    && HeadShown(trace[start + bound + 1], MAIN_REF, authority.main)
    && (authority.binding.Some? ==>
          && RebindShown(trace, start + bound + 1, source, authority)
          && RebindShown(trace, start + 2 * bound + 2, source, authority))
  }

  lemma BoundShown(w: World, source: Sha, authority: Authority)
    requires VerifyBound(w, source, authority).Done?
    ensures var trace := VerifyBound(w, source, authority).world.trace;
      && Prefix(w.trace, trace)
      && |trace| == |w.trace| + (if authority.binding.None? then 0 else RebindLength(authority))
      && (authority.binding.Some? ==> RebindShown(trace, |trace|, source, authority))
  {
    hide BindingVerify, RebindShown;
  }

  lemma PreflightReads(w: World, published: seq<bool>, source: Sha, binding: Option<Binding>)
    requires Preflight(w, published, source, binding).Done?
    ensures var r := Preflight(w, published, source, binding);
      r.value.binding == binding && PreflightShown(r.world.trace, |w.trace|, source, r.value)
  {
    hide MainSha, VerifyBound, HeadShown, RebindShown, Reads;
    var r := Preflight(w, published, source, binding);
    var w1 := MainSha(w).world;
    BoundShown(w1, source, r.value);
    var w2 := VerifyBound(w1, source, r.value).world;
    var w3 := MainSha(w2).world;
    BoundShown(w3, source, r.value);
    FollowsPrefix(w, w1);
    FollowsPrefix(w2, w3);
    if binding.Some? {
      RebindSame(w2.trace, r.world.trace, |w2.trace|, source, r.value);
    }
  }

  lemma FollowsPrefix(w: World, after: World)
    requires Reads(w, after)
    ensures Prefix(w.trace, after.trace)
  {
  }

  lemma PreflightSame(trace: seq<Event>, later: seq<Event>, start: nat, source: Sha, authority: Authority)
    requires Prefix(trace, later) && PreflightShown(trace, start, source, authority)
    ensures PreflightShown(later, start, source, authority)
  {
    hide HeadShown, RebindShown, RebindLength;
    var bound := if authority.binding.None? then 0 else RebindLength(authority);
    if authority.binding.Some? {
      RebindSame(trace, later, start + bound + 1, source, authority);
      RebindSame(trace, later, start + 2 * bound + 2, source, authority);
    }
  }

  /**
   Every creation of an attempt comes after main and the bound base were each seen twice, and is
   guarded under the main that the attempt itself read first.
   */
  lemma EveryAttemptPostGuarded(
    w: World, published: seq<bool>, targets: seq<Target>, source: Sha, binding: Option<Binding>, i: nat)
    returns (main: Sha)
    requires var trace := Finalize(w, published, targets, source, binding).world.trace;
      |w.trace| <= i < |trace| && trace[i].call.IsPost()
    ensures var trace := Finalize(w, published, targets, source, binding).world.trace;
      && PreflightShown(trace[..i], |w.trace|, source, Authority(main, binding))
      && GuardedForSome(trace, i, |w.trace|, targets, Authority(main, binding))
  {
    hide Preflight, FinalizeAll, GuardedForSome, HeadShown, PreflightShown;
    var ready := Preflight(w, published, source, binding);
    if ready.Done? {
      main := ready.value.main;
      PreflightReads(w, published, source, binding);
      EveryFamilyPostGuarded(ready.world, |w.trace|, targets, ready.value);
      assert i >= |ready.world.trace|;
      var trace := Finalize(w, published, targets, source, binding).world.trace;
      PreflightSame(ready.world.trace, trace[..i], |w.trace|, source, ready.value);
    }
  }

  ghost predicate SettledBy(service: Service, trace: seq<Event>, i: int, target: Target, guard: Guard)
    requires 0 <= i < |trace|
  {
    && GuardFor(service, target, guard)
    && i > 0 && LatestShown(trace[i - 1], guard.before)
    && trace[i].call == PostRelease(ReleaseRequest(target, guard))
  }

  /** A Release is created for one of the targets, as the Latest read just before allows it. */
  ghost predicate Settled(service: Service, trace: seq<Event>, i: int, targets: seq<Target>)
    requires 0 <= i < |trace|
  {
    trace[i].call.PostRelease? ==> exists t, guard :: t in targets && SettledBy(service, trace, i, t, guard)
  }

  /** What `after` adds to the record of `w` settles. */
  ghost predicate Settles(targets: seq<Target>, w: World, after: World) {
    Follows(w, after) && forall i :: |w.trace| <= i < |after.trace| ==> Settled(w.service, after.trace, i, targets)
  }

  lemma ReadsSettle(targets: seq<Target>, w: World, after: World)
    requires Reads(w, after)
    ensures Settles(targets, w, after)
  {
  }

  lemma SettlesThen(targets: seq<Target>, w: World, middle: World, after: World)
    requires Settles(targets, w, middle) && Settles(targets, middle, after)
    ensures Settles(targets, w, after)
  {
    hide GuardFor, LatestShown, ReleaseRequest;
    forall i | |w.trace| <= i < |middle.trace|
      ensures Settled(w.service, after.trace, i, targets)
    {
      assert Settled(w.service, middle.trace, i, targets);
      if middle.trace[i].call.PostRelease? {
        var t, guard :| t in targets && SettledBy(w.service, middle.trace, i, t, guard);
        assert SettledBy(w.service, after.trace, i, t, guard);
      }
    }
  }

  lemma OtherCallsSettle(targets: seq<Target>, w: World, call: Call)
    requires !call.PostRelease?
    ensures Settles(targets, w, Exchange(w, call).world)
  {
    hide Exchange;
  }

  lemma TagObjectSettles(targets: seq<Target>, w: World, t: Target, authority: Authority)
    ensures Settles(targets, w, CreateTagObject(w, t, authority).world)
  {
    hide Rebind, Exchange, ReadBack, Settles, Reads;
    var bound := Rebind(w, t, authority);
    ReadsSettle(targets, w, bound.world);
    if bound.Done? {
      var posted := Exchange(bound.world, PostTagObject(t.Payload()));
      OtherCallsSettle(targets, bound.world, PostTagObject(t.Payload()));
      SettlesThen(targets, w, bound.world, posted.world);
      if posted.Done? && posted.value.ATag? {
        var readback := ReadBack(posted.world, t, posted.value.annotated);
        ReadsSettle(targets, posted.world, readback.world);
        SettlesThen(targets, w, posted.world, readback.world);
      }
    }
  }

  lemma TagRefSettles(targets: seq<Target>, w: World, t: Target, authority: Authority, sha: Sha)
    ensures Settles(targets, w, CreateTagRef(w, t, authority, sha).world)
  {
    hide Rebind, Exchange, RequireExactTagObject, Settles, Reads;
    var bound := Rebind(w, t, authority);
    ReadsSettle(targets, w, bound.world);
    if bound.Done? {
      var posted := Exchange(bound.world, PostTagRef(t.RefName(), sha));
      OtherCallsSettle(targets, bound.world, PostTagRef(t.RefName(), sha));
      SettlesThen(targets, w, bound.world, posted.world);
      var check := RequireExactTagObject(posted.world, t, sha);
      ReadsSettle(targets, posted.world, check.world);
      SettlesThen(targets, w, posted.world, check.world);
    }
  }

  lemma ReconcileTagSettles(targets: seq<Target>, w: World, t: Target, authority: Authority)
    ensures Settles(targets, w, ReconcileTag(w, t, authority).world)
  {
    hide InspectTag, CreateTagObject, CreateTagRef, RequireExactTagObject, Settles, Reads;
    var found := InspectTag(w, t);
    ReadsSettle(targets, w, found.world);
    if found.Done? && found.value.None? {
      var created := CreateTagObject(found.world, t, authority);
      TagObjectSettles(targets, found.world, t, authority);
      SettlesThen(targets, w, found.world, created.world);
      if created.Done? {
        var ref := CreateTagRef(created.world, t, authority, created.value);
        TagRefSettles(targets, created.world, t, authority, created.value);
        SettlesThen(targets, w, created.world, ref.world);
        var check := RequireExactTagObject(ref.world, t, created.value);
        ReadsSettle(targets, ref.world, check.world);
        SettlesThen(targets, w, ref.world, check.world);
      }
    }
  }

  lemma ReconcileReleaseSettles(targets: seq<Target>, w: World, t: Target, authority: Authority, sha: Sha)
    requires t in targets
    ensures Settles(targets, w, ReconcileRelease(w, t, authority, sha).world)
  {
    hide Capture, InspectRelease, CreateRelease, Confirm, Reads, LatestShown, GuardFor, ReleaseRequest, IntendedShown;
    var captured := Capture(w, t);
    if captured.Done? {
      var guard := LatestDecidesRelease(w, t, authority, sha);
      var trace := ReconcileRelease(w, t, authority, sha).world.trace;
      forall i | |w.trace| <= i < |trace|
        ensures Settled(w.service, trace, i, targets)
      {
        assert Decided(trace, i, t, guard);
        if trace[i].call.PostRelease? {
          assert SettledBy(w.service, trace, i, t, guard);
        }
      }
    } else {
      ReadsSettle(targets, w, captured.world);
    }
  }

  lemma {:induction false} FamilySettles(targets: seq<Target>, w: World, rest: seq<Target>, authority: Authority)
    requires forall t :: t in rest ==> t in targets
    ensures Settles(targets, w, FinalizeAll(w, rest, authority).world)
    decreases |rest|
  {
    hide VerifyBound, ReconcileTag, ReconcileRelease, Settled, Reads;
    if rest != [] {
      var bound := VerifyBound(w, rest[0].source, authority);
      ReadsSettle(targets, w, bound.world);
      if bound.Done? {
        var tagged := ReconcileTag(bound.world, rest[0], authority);
        ReconcileTagSettles(targets, bound.world, rest[0], authority);
        SettlesThen(targets, w, bound.world, tagged.world);
        if tagged.Done? {
          var done := ReconcileRelease(tagged.world, rest[0], authority, tagged.value);
          ReconcileReleaseSettles(targets, tagged.world, rest[0], authority, tagged.value);
          SettlesThen(targets, w, tagged.world, done.world);
          if done.Done? {
            FamilySettles(targets, done.world, rest[1..], authority);
            SettlesThen(targets, w, done.world, FinalizeAll(done.world, rest[1..], authority).world);
          }
        }
      }
    }
  }

  /** Every Release an attempt creates follows a read of Latest and asks for exactly what that Latest allows. */
  lemma EveryAttemptReleaseSettled(
    w: World, published: seq<bool>, targets: seq<Target>, source: Sha, binding: Option<Binding>, i: nat)
    returns (t: Target, guard: Guard)
    requires var trace := Finalize(w, published, targets, source, binding).world.trace;
      |w.trace| <= i < |trace| && trace[i].call.PostRelease?
    ensures t in targets
    ensures SettledBy(w.service, Finalize(w, published, targets, source, binding).world.trace, i, t, guard)
  {
    hide Preflight, FinalizeAll, SettledBy;
    var ready := Preflight(w, published, source, binding);
    ReadsSettle(targets, w, ready.world);
    if ready.Done? {
      FamilySettles(targets, ready.world, targets, ready.value);
      SettlesThen(targets, w, ready.world, FinalizeAll(ready.world, targets, ready.value).world);
    }
    var trace := Finalize(w, published, targets, source, binding).world.trace;
    assert Settled(w.service, trace, i, targets);
    t, guard :| t in targets && SettledBy(w.service, trace, i, t, guard);
  }
}
