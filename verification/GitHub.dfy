/**
 Finalization as it drives a transport: every call changes the transport's fields, and each
 method does to them exactly what its specification does to a `World`.
 */
module GitHubTransport {
  import opened Wrappers
  import opened ReleasePolicy
  import opened Forge
  import opened Finalization
  import Lifecycle

  /** A method's result; `Cut` is the process ending in the middle of it. */
  datatype Outcome<+T> = Got(value: T) | Raised(error: Error) | Cut {
    predicate IsFailure() {
      !Got?
    }

    function PropagateFailure<U>(): Outcome<U>
      requires !Got?
    {
      if Raised? then Raised(error) else Cut
    }

    function Extract(): T
      requires Got?
    {
      value
    }

    function At(w: World): Run<T> {
      match this
      case Got(value) => Done(value, w)
      case Raised(error) => Failed(error, w)
      case Cut => Stopped(w)
    }
  }

  class GitHub {
    const service: Service
    var store: Store
    var turns: seq<Turn>
    var trace: seq<Event>

    ghost function State(): World
      reads this
    {
      World(service, store, turns, trace)
    }

    constructor (service: Service, store: Store, turns: seq<Turn>)
      ensures State() == World(service, store, turns, [])
    {
      this.service, this.store, this.turns, this.trace := service, store, turns, [];
    }

    method Exchange(call: Call) returns (r: Outcome<Reply>)
      modifies this
      ensures r.At(State()) == Forge.Exchange(old(State()), call)
    {
      var fault := Deliver;
      if turns != [] {
        fault := turns[0].fault;
        store := turns[0].foreign(store);
        turns := turns[1..];
      }
      if fault == CutOff {
        return Cut;
      }
      var reply := NoReply;
      if fault != FailBefore {
        var (after, served) := Serve(service, store, call);
        store := after;
        if fault == Deliver {
          reply := served;
        }
      }
      trace := trace + [Event(call, reply)];
      if fault != Deliver || reply == Rejected {
        return Raised(Transport);
      }
      return Got(reply);
    }

    method GetRef(name: string) returns (r: Outcome<Option<GitRef>>)
      modifies this
      ensures r.At(State()) == Finalization.GetRef(old(State()), name)
    {
      hide Forge.Exchange, Reads, Follows, Evolves;
      var reply :- Exchange(ReadRef(name));
      match reply
      case ARef(reference) => return Got(Some(reference));
      case Absent => return Got(None);
      case _ => return Raised(Malformed);
    }

    method GetComparison(base: Sha, head: Sha) returns (r: Outcome<Comparison>)
      modifies this
      ensures r.At(State()) == Finalization.GetComparison(old(State()), base, head)
    {
      hide Forge.Exchange, Reads, Follows, Evolves;
      var reply :- Exchange(Compare(base, head));
      return if reply.AComparison? then Got(reply.comparison) else Raised(NotFound);
    }

    method GetTagObject(sha: Sha) returns (r: Outcome<AnnotatedTag>)
      modifies this
      ensures r.At(State()) == Finalization.GetTagObject(old(State()), sha)
    {
      hide Forge.Exchange, Reads, Follows, Evolves;
      var reply :- Exchange(ReadTagObject(sha));
      return if reply.ATag? then Got(reply.annotated) else Raised(NotFound);
    }

    method ReadHead(name: string, mismatch: Error) returns (r: Outcome<Sha>)
      modifies this
      ensures r.At(State()) == Finalization.ReadHead(old(State()), name, mismatch)
    {
      hide Finalization.GetRef, Reads, Follows, Evolves;
      var reference :- GetRef(name);
      if reference.None? {
        return Raised(NotFound);
      }
      if !ExactHead(reference.value, name) {
        return Raised(mismatch);
      }
      return Got(reference.value.sha);
    }

    method RequireMainAncestry(source: Sha, main: Sha) returns (r: Outcome<()>)
      modifies this
      ensures r.At(State()) == Finalization.RequireMainAncestry(old(State()), source, main)
    {
      hide Finalization.GetComparison, Reads, Follows, Evolves;
      var c :- GetComparison(source, main);
      return if Descends(c, source) then Got(()) else Raised(NotAncestor);
    }

    method RequireAnchor(commit: Sha, main: Sha, anchor: Sha) returns (r: Outcome<()>)
      modifies this
      ensures r.At(State()) == Finalization.RequireAnchor(old(State()), commit, main, anchor)
    {
      hide Finalization.GetComparison, Reads, Follows, Evolves;
      var c :- GetComparison(commit, main);
      return if c.base != commit || c.mergeBase != anchor then Raised(AnchorDiffers) else Got(());
    }

    method RequireStillAt(name: string, expected: Sha, moved: Error) returns (r: Outcome<()>)
      modifies this
      ensures r.At(State()) == Finalization.RequireStillAt(old(State()), name, expected, moved)
    {
      hide Finalization.ReadHead, Reads, Follows, Evolves;
      var current :- ReadHead(name, BaseNotExact);
      return if current != expected then Raised(moved) else Got(());
    }

    method RequireCurrentMutationPolicy(source: Sha, main: Sha) returns (r: Outcome<()>)
      modifies this
      ensures r.At(State()) == Finalization.RequireCurrentMutationPolicy(old(State()), source, main)
    {
      hide Finalization.RequireMainAncestry, Finalization.ReadHead, Reads, Follows, Evolves;
      var _ :- RequireMainAncestry(source, main);
      var current :- ReadHead(MAIN_REF, MainNotExact);
      if !IsSha(main) || !IsSha(current) || main != current {
        return Raised(MainChanged);
      }
      return Got(());
    }

    method RequireLineage(source: Sha, tip: Sha, main: Sha, anchor: Option<Sha>) returns (r: Outcome<()>)
      modifies this
      ensures r.At(State()) == Finalization.RequireLineage(old(State()), source, tip, main, anchor)
    {
      hide Finalization.RequireMainAncestry, Finalization.RequireAnchor, Reads, Follows, Evolves;
      var _ :- RequireMainAncestry(source, tip);
      if anchor.Some? {
        var _ :- RequireAnchor(source, main, anchor.value);
        var _ :- RequireAnchor(tip, main, anchor.value);
      }
      return Got(());
    }

    method BindingVerify(binding: Binding, source: Sha, main: Sha) returns (r: Outcome<()>)
      modifies this
      ensures r.At(State()) == Finalization.BindingVerify(old(State()), binding, source, main)
    {
      hide Finalization.ReadHead, Finalization.RequireLineage, Finalization.RequireStillAt, Reads, Follows, Evolves;
      var tip :- ReadHead(binding.base, BaseNotExact);
      if binding.atTip && tip != source {
        return Raised(BaseNotSource);
      }
      var _ :- RequireLineage(source, tip, main, binding.anchor);
      var _ :- RequireStillAt(binding.base, tip, BaseMoved);
      r := RequireStillAt(MAIN_REF, main, MainChanged);
    }

    method Rebind(target: Target, authority: Authority) returns (r: Outcome<()>)
      modifies this
      ensures r.At(State()) == Finalization.Rebind(old(State()), target, authority)
    {
      hide Finalization.BindingVerify, Finalization.RequireCurrentMutationPolicy, Reads, Follows, Evolves;
      if authority.binding.Some? {
        r := BindingVerify(authority.binding.value, target.source, authority.main);
      } else {
        r := RequireCurrentMutationPolicy(target.source, authority.main);
      }
    }

    method InspectTag(target: Target) returns (r: Outcome<Option<Sha>>)
      modifies this
      ensures r.At(State()) == Finalization.InspectTag(old(State()), target)
    {
      hide Finalization.GetRef, Finalization.GetTagObject, Reads, Follows, Evolves;
      var found :- GetRef(target.RefName());
      if found.None? {
        return Got(None);
      }
      if !ValidTagRef(found.value, target) {
        return Raised(TagRefConflict);
      }
      var sha := found.value.sha;
      var annotated :- GetTagObject(sha);
      return if ValidTag(annotated, target, sha) then Got(Some(sha)) else Raised(TagConflict);
    }

    method RequireExactTagObject(target: Target, sha: Sha) returns (r: Outcome<()>)
      modifies this
      ensures r.At(State()) == Finalization.RequireExactTagObject(old(State()), target, sha)
    {
      hide Finalization.InspectTag, Reads, Follows, Evolves;
      var observed :- InspectTag(target);
      return if observed != Some(sha) then Raised(TagNotRetained) else Got(());
    }

    method CreateTagObject(target: Target, authority: Authority) returns (r: Outcome<Sha>)
      modifies this
      ensures r.At(State()) == Finalization.CreateTagObject(old(State()), target, authority)
    {
      hide Finalization.Rebind, Forge.Exchange, Finalization.GetTagObject, Reads, Follows, Evolves;
      var _ :- Rebind(target, authority);
      var reply :- Exchange(PostTagObject(target.Payload()));
      if !reply.ATag? {
        return Raised(Malformed);
      }
      var sha := reply.annotated.sha;
      if !IsSha(sha) || !ValidTag(reply.annotated, target, sha) {
        return Raised(TagConflict);
      }
      var readback :- GetTagObject(sha);
      return if ValidTag(readback, target, sha) then Got(sha) else Raised(TagConflict);
    }

    method CreateTagRef(target: Target, authority: Authority, sha: Sha)
      returns (r: Outcome<()>)
      modifies this
      ensures r.At(State()) == Finalization.CreateTagRef(old(State()), target, authority, sha)
    {
      hide Finalization.Rebind, Forge.Exchange, Finalization.RequireExactTagObject, Reads, Follows, Evolves;
      var _ :- Rebind(target, authority);
      var result := Exchange(PostTagRef(target.RefName(), sha));
      match result
      case Got(reply) =>
        if !reply.ARef? {
          return Raised(Malformed);
        }
        if !ValidTagRef(reply.reference, target) || reply.reference.sha != sha {
          return Raised(TagRefConflict);
        }
        return Got(());
      case Raised(error) =>
        var attempt := RequireExactTagObject(target, sha);
        return if attempt.Raised? then Raised(error) else attempt;
      case Cut => return Cut;
    }

    method ReconcileTag(target: Target, authority: Authority) returns (r: Outcome<Sha>)
      modifies this
      ensures r.At(State()) == Finalization.ReconcileTag(old(State()), target, authority)
    {
      hide Finalization.InspectTag, Finalization.CreateTagObject, Finalization.CreateTagRef,
           Finalization.RequireExactTagObject, Reads, Follows, Evolves;
      var found :- InspectTag(target);
      if found.Some? {
        return Got(found.value);
      }
      var sha :- CreateTagObject(target, authority);
      var _ :- CreateTagRef(target, authority, sha);
      var _ :- RequireExactTagObject(target, sha);
      return Got(sha);
    }

    method GetLatest() returns (r: Outcome<Option<Latest>>)
      modifies this
      ensures r.At(State()) == Finalization.GetLatest(old(State()))
    {
      hide Forge.Exchange, Reads, Follows, Evolves;
      var reply :- Exchange(ReadLatest);
      match reply
      case Absent => return Got(None);
      case ALatest(latest) =>
        return if CanonicalLatest(service, latest) then Got(Some(latest)) else Raised(LatestMalformed);
      case _ => return Raised(Malformed);
    }

    method Capture(target: Target) returns (r: Outcome<Guard>)
      modifies this
      ensures r.At(State()) == Finalization.Capture(old(State()), target)
    {
      hide Finalization.GetLatest, Reads, Follows, Evolves;
      if service.rank(target.tag).None? {
        return Raised(LatestMalformed);
      }
      var before :- GetLatest();
      if before.Some? && service.rank(before.value.tagName).None? {
        return Raised(LatestMalformed);
      }
      if !target.line.Main? && before.Some? && before.value.tagName == target.tag {
        return Raised(SupportHoldsLatest);
      }
      return Got(Guard(before, target.tag, Advances(service, target, before)));
    }

    method RequireUnchanged(guard: Guard) returns (r: Outcome<()>)
      modifies this
      ensures r.At(State()) == Finalization.RequireUnchanged(old(State()), guard)
    {
      hide Finalization.GetLatest, Reads, Follows, Evolves;
      var latest :- GetLatest();
      return if latest != guard.before then Raised(LatestChanged) else Got(());
    }

    method VerifyLatest(guard: Guard) returns (r: Outcome<()>)
      modifies this
      ensures r.At(State()) == Finalization.VerifyLatest(old(State()), guard)
    {
      hide Finalization.GetLatest, Reads, Follows, Evolves;
      var after :- GetLatest();
      return if Intended(guard, after) then Got(()) else Raised(LatestDiffers);
    }

    method InspectRelease(target: Target) returns (r: Outcome<bool>)
      modifies this
      ensures r.At(State()) == Finalization.InspectRelease(old(State()), target)
    {
      hide Forge.Exchange, Reads, Follows, Evolves;
      var reply :- Exchange(ReadRelease(target.tag));
      match reply
      case Absent => return Got(false);
      case ARelease(release) =>
        return if ValidRelease(release, target) then Got(true) else Raised(ReleaseConflict);
      case _ => return Raised(Malformed);
    }

    method CreateRelease(
      target: Target, authority: Authority, sha: Sha, guard: Guard)
      returns (r: Outcome<()>)
      modifies this
      ensures r.At(State()) == Finalization.CreateRelease(old(State()), target, authority, sha, guard)
    {
      hide Finalization.Rebind, Finalization.RequireExactTagObject, Finalization.RequireUnchanged,
           Finalization.InspectRelease, Forge.Exchange, Reads, Follows, Evolves;
      var _ :- Rebind(target, authority);
      var _ :- RequireExactTagObject(target, sha);
      var _ :- RequireUnchanged(guard);
      var result := Exchange(PostRelease(ReleaseRequest(target, guard)));
      match result
      case Got(reply) =>
        if reply.ARelease? && ValidRelease(reply.release, target) {
          return Got(());
        }
        return Raised(ReleaseConflict);
      case Raised(error) =>
        var found :- InspectRelease(target);
        if !found {
          return Raised(error);
        }
        r := RequireExactTagObject(target, sha);
      case Cut => return Cut;
    }

    method Confirm(target: Target, sha: Sha, guard: Guard) returns (r: Outcome<()>)
      modifies this
      ensures r.At(State()) == Finalization.Confirm(old(State()), target, sha, guard)
    {
      hide Finalization.RequireExactTagObject, Finalization.VerifyLatest, Reads, Follows, Evolves;
      var _ :- RequireExactTagObject(target, sha);
      r := VerifyLatest(guard);
    }

    method ReconcileRelease(target: Target, authority: Authority, sha: Sha)
      returns (r: Outcome<()>)
      modifies this
      ensures r.At(State()) == Finalization.ReconcileRelease(old(State()), target, authority, sha)
    {
      hide Finalization.Capture, Finalization.InspectRelease, Finalization.CreateRelease,
           Finalization.Confirm, Reads, Follows, Evolves;
      var guard :- Capture(target);
      var found :- InspectRelease(target);
      if !found {
        var _ :- CreateRelease(target, authority, sha, guard);
        var retained :- InspectRelease(target);
        if !retained {
          return Raised(ReleaseNotRetained);
        }
      }
      r := Confirm(target, sha, guard);
    }

    method FinalizePackage(target: Target, authority: Authority) returns (r: Outcome<()>)
      modifies this
      ensures r.At(State()) == Finalization.FinalizePackage(old(State()), target, authority)
    {
      hide Finalization.ReconcileTag, Finalization.ReconcileRelease, Reads, Follows, Evolves;
      var sha :- ReconcileTag(target, authority);
      r := ReconcileRelease(target, authority, sha);
    }

    /** The package loop of `finalize`, after its preflight. */
    method FinalizeAll(targets: seq<Target>, authority: Authority) returns (r: Outcome<()>)
      modifies this
      ensures r.At(State()) == Finalization.FinalizeAll(old(State()), targets, authority)
    {
      hide Finalization.BindingVerify, Finalization.FinalizePackage, Reads, Follows, Evolves;
      for i := 0 to |targets|
        invariant Finalization.FinalizeAll(State(), targets[i..], authority)
          == Finalization.FinalizeAll(old(State()), targets, authority)
      {
        assert targets[i..][1..] == targets[i + 1..];
        if authority.binding.Some? {
          var _ :- BindingVerify(authority.binding.value, targets[i].source, authority.main);
        }
        var _ :- FinalizePackage(targets[i], authority);
      }
      return Got(());
    }

    method VerifyBound(source: Sha, authority: Authority) returns (r: Outcome<()>)
      modifies this
      ensures r.At(State()) == Finalization.VerifyBound(old(State()), source, authority)
    {
      hide Finalization.BindingVerify, Reads, Follows, Evolves;
      if authority.binding.None? {
        return Got(());
      }
      r := BindingVerify(authority.binding.value, source, authority.main);
    }

    /** What `finalize` checks before its package loop. */
    method Preflight(published: seq<bool>, source: Sha, binding: Option<Binding>) returns (r: Outcome<Authority>)
      modifies this
      ensures r.At(State()) == Finalization.Preflight(old(State()), published, source, binding)
    {
      hide Finalization.ReadHead, Finalization.VerifyBound, Reads, Follows, Evolves;
      var policy :- ReadHead(MAIN_REF, MainNotExact);
      if !AllPublished(published) {
        return Raised(Unpublished);
      }
      var authority := Authority(policy, binding);
      var _ :- VerifyBound(source, authority);
      var current :- ReadHead(MAIN_REF, MainNotExact);
      if !IsSha(policy) || !IsSha(current) || policy != current {
        return Raised(MainChanged);
      }
      var _ :- VerifyBound(source, authority);
      return Got(authority);
    }

    method Finalize(published: seq<bool>, targets: seq<Target>, source: Sha, binding: Option<Binding>)
      returns (r: Outcome<()>)
      modifies this
      ensures r.At(State()) == Finalization.Finalize(old(State()), published, targets, source, binding)
    {
      hide Finalization.Preflight, Finalization.FinalizeAll, Reads, Follows, Evolves;
      var authority :- Preflight(published, source, binding);
      r := FinalizeAll(targets, authority);
    }

    /** Qualification's look at every package's tag and Release. */
    method RequireConsistent(targets: seq<Target>, states: seq<bool>) returns (r: Outcome<()>)
      modifies this
      ensures r.At(State()) == Lifecycle.RequireConsistent(old(State()), targets, states)
    {
      hide Finalization.InspectTag, Finalization.InspectRelease, Reads, Follows, Evolves;
      for i := 0 to |targets|
        invariant Lifecycle.RequireConsistent(State(), targets[i..], states)
          == Lifecycle.RequireConsistent(old(State()), targets, states)
      {
        assert targets[i..][1..] == targets[i + 1..];
        var tag :- InspectTag(targets[i]);
        var release :- InspectRelease(targets[i]);
        if (tag.Some? || release) && !AllPublished(states) {
          return Raised(ObjectsTooEarly);
        }
        if release && tag.None? {
          return Raised(ReleaseWithoutTag);
        }
      }
      return Got(());
    }
  }
}
