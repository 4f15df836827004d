/**
 The release forge as its clients see it: a store that other actors may change between
 calls, calls that may fail before their effect or lose their reply after it, and the
 record of what was asked and answered.
 */
module Forge {
  import opened Wrappers
  import opened SemVer

  type Sha = string

  datatype GitRef = GitRef(name: string, kind: string, sha: Sha)

  datatype Tagger = Tagger(name: string, email: string, date: string)

  datatype AnnotatedTag = AnnotatedTag(
    sha: Sha, tag: string, message: string, kind: string, target: Sha, tagger: Tagger)

  datatype TagPayload = TagPayload(tag: string, message: string, target: Sha, tagger: Tagger)

  datatype Author = Author(login: string, id: nat, kind: string)

  datatype Release = Release(
    id: nat, tagName: string, target: Sha, name: string, body: string, draft: bool,
    prerelease: bool, immutable: bool, author: Author, assets: seq<string>)

  datatype ReleasePayload = ReleasePayload(
    tagName: string, target: Sha, name: string, body: string, draft: bool,
    prerelease: bool, makeLatest: bool)

  datatype Latest = Latest(id: nat, tagName: string)

  datatype Comparison = Comparison(status: string, base: Sha, mergeBase: Sha)

  /** Refs are keyed by full name, Releases by tag, tag objects by hash. */
  datatype Store = Store(
    refs: map<string, GitRef>,
    comparisons: map<(Sha, Sha), Comparison>,
    objects: map<Sha, AnnotatedTag>,
    releases: map<string, Release>,
    latest: Option<Latest>,
    lastId: nat)

  /** How a Latest tag reads: its version and the package's place in the family. */
  datatype Rank = Rank(version: Version, ordinal: nat)

  /** The forge's fixed behaviour: content addresses, the caller's identity, tag names. */
  datatype Service = Service(
    address: TagPayload -> Sha, author: Author, immutable: bool, rank: string -> Option<Rank>)

  datatype Call =
    | Compare(base: Sha, head: Sha)
    | ReadRef(name: string)
    | ReadTagObject(sha: Sha)
    | ReadRelease(tag: string)
    | ReadLatest
    | PostTagObject(tagPayload: TagPayload)
    | PostTagRef(name: string, sha: Sha)
    | PostRelease(releasePayload: ReleasePayload)
  {
    predicate IsPost() {
      PostTagObject? || PostTagRef? || PostRelease?
    }
  }

  datatype Reply =
    | NoReply | Rejected | Absent
    | AComparison(comparison: Comparison)
    | ARef(reference: GitRef)
    | ATag(annotated: AnnotatedTag)
    | ARelease(release: Release)
    | ALatest(latest: Latest)

  function TagOf(sha: Sha, p: TagPayload): AnnotatedTag {
    AnnotatedTag(sha, p.tag, p.message, "commit", p.target, p.tagger)
  }

  function ReleaseOf(service: Service, id: nat, p: ReleasePayload): Release {
    Release(id, p.tagName, p.target, p.name, p.body, p.draft, p.prerelease,
            service.immutable, service.author, [])
  }

  /** One call at the forge. Creating what already exists is rejected and changes nothing. */
  function Serve(service: Service, s: Store, call: Call): (Store, Reply) {
    match call
    case Compare(base, head) =>
      (s, if (base, head) in s.comparisons then AComparison(s.comparisons[(base, head)]) else Absent)
    case ReadRef(name) => (s, if name in s.refs then ARef(s.refs[name]) else Absent)
    case ReadTagObject(sha) => (s, if sha in s.objects then ATag(s.objects[sha]) else Absent)
    case ReadRelease(tag) => (s, if tag in s.releases then ARelease(s.releases[tag]) else Absent)
    case ReadLatest => (s, if s.latest.Some? then ALatest(s.latest.value) else Absent)
    case PostTagObject(p) =>
      var sha := service.address(p);
      if sha in s.objects then (s, ATag(s.objects[sha]))
      else (s.(objects := s.objects[sha := TagOf(sha, p)]), ATag(TagOf(sha, p)))
    case PostTagRef(name, sha) =>
      if name in s.refs || sha !in s.objects then (s, Rejected)
      else
        var reference := GitRef(name, "tag", sha);
        (s.(refs := s.refs[name := reference]), ARef(reference))
    case PostRelease(p) =>
      if p.tagName in s.releases then (s, Rejected)
      else
        var release := ReleaseOf(service, s.lastId + 1, p);
        (s.(releases := s.releases[p.tagName := release],
            latest := if p.makeLatest then Some(Latest(release.id, p.tagName)) else s.latest,
            lastId := s.lastId + 1),
         ARelease(release))
  }

  datatype Fault = Deliver | FailBefore | LoseReply | CutOff

  /** What happens around one call: any change by other actors, then the call's own fate. */
  datatype Turn = Turn(foreign: Store -> Store, fault: Fault)

  datatype Event = Event(call: Call, reply: Reply)

  /** `turns` scripts the coming calls; beyond its end nothing interferes and nothing fails. */
  datatype World = World(service: Service, store: Store, turns: seq<Turn>, trace: seq<Event>)

  datatype Error =
    | Transport | NotFound | Malformed
    | MainNotExact | NotAncestor | MainChanged
    | BaseNotExact | BaseNotSource | AnchorDiffers | BaseMoved
    | TagRefConflict | TagConflict | TagNotRetained | ReleaseConflict | ReleaseNotRetained
    | TagNameMalformed | LatestMalformed | SupportHoldsLatest | LatestChanged | LatestDiffers
    | Unpublished | ObjectsTooEarly | ReleaseWithoutTag

  /** `Stopped` is a process cut off: unlike `Failed`, no handler runs after it. */
  datatype Run<+T> =
    | Done(value: T, world: World)
    | Failed(error: Error, world: World)
    | Stopped(world: World)
  {
    predicate IsFailure() {
      !Done?
    }

    function PropagateFailure<U>(): Run<U>
      requires !Done?
    {
      if Failed? then Failed(error, world) else Stopped(world)
    }

    function Extract(): (T, World)
      requires Done?
    {
      (value, world)
    }
  }

  /** Holds through whatever the other actors of these turns do. */
  ghost predicate Kept(invariant_: Store -> bool, turns: seq<Turn>) {
    forall turn, s :: turn in turns && invariant_(s) ==> invariant_(turn.foreign(s))
  }

  /** Holds through every call served. */
  ghost predicate Served(invariant_: Store -> bool, service: Service) {
    forall s, call :: invariant_(s) ==> invariant_(Serve(service, s, call).0)
  }

  /** `after` extends the record of `w` and consumes some of its turns. */
  ghost predicate Follows(w: World, after: World) {
    && after.service == w.service
    && |w.trace| <= |after.trace|
    && (forall i :: 0 <= i < |w.trace| ==> after.trace[i] == w.trace[i])
    && |after.turns| <= |w.turns|
    && (forall turn :: turn in after.turns ==> turn in w.turns)
  }

  /** The store changed by calls and by other actors only. */
  ghost predicate Evolves(w: World, after: World) {
    forall invariant_: Store -> bool ::
      invariant_(w.store) && Kept(invariant_, w.turns) && Served(invariant_, w.service) ==> invariant_(after.store)
  }

  /** From `w` to `after` nothing was posted, and only other actors changed the store. */
  ghost predicate Reads(w: World, after: World) {
    && Follows(w, after)
    && (forall i :: |w.trace| <= i < |after.trace| ==> !after.trace[i].call.IsPost())
    && (forall invariant_: Store -> bool :: invariant_(w.store) && Kept(invariant_, w.turns) ==>
          invariant_(after.store))
  }

  lemma ReadsThen(w: World, middle: World, after: World)
    requires Reads(w, middle) && Reads(middle, after)
    ensures Reads(w, after)
    ensures |middle.trace| <= |after.trace| && forall i :: 0 <= i < |middle.trace| ==> after.trace[i] == middle.trace[i]
  {
  }

  lemma ReadsKeep(w: World, after: World, invariant_: Store -> bool)
    requires Reads(w, after) && invariant_(w.store) && Kept(invariant_, w.turns)
    ensures invariant_(after.store)
  {
  }

  function Exchange(w: World, call: Call): (r: Run<Reply>)
    ensures Follows(w, r.world) && Evolves(w, r.world)
    ensures !call.IsPost() ==> Reads(w, r.world)
    ensures r.Done? ==> r.world.trace == w.trace + [Event(call, r.value)]
    ensures |r.world.trace| <= |w.trace| + 1
    ensures forall i :: |w.trace| <= i < |r.world.trace| ==> r.world.trace[i].call == call
  {
    if w.turns == [] then
      var (store, reply) := Serve(w.service, w.store, call);
      Answer(w.(store := store, trace := w.trace + [Event(call, reply)]), reply)
    else
      var turn := w.turns[0];
      var before := turn.foreign(w.store);
      var (after, reply) := Serve(w.service, before, call);
      var next := w.(turns := w.turns[1..]);
      match turn.fault
      case CutOff => Stopped(next.(store := before))
      case FailBefore => Failed(Transport, next.(store := before, trace := w.trace + [Event(call, NoReply)]))
      case LoseReply => Failed(Transport, next.(store := after, trace := w.trace + [Event(call, NoReply)]))
      case Deliver => Answer(next.(store := after, trace := w.trace + [Event(call, reply)]), reply)
  }

  function Answer(w: World, reply: Reply): Run<Reply> {
    if reply.Rejected? then Failed(Transport, w) else Done(reply, w)
  }
}
