/** Reconciliation of one annotated tag and one immutable Release per package. */
module Finalization {
  import opened Wrappers
  import opened SemVer
  import opened ReleasePolicy
  import opened Forge

  const APP_LOGIN := "nvidia-yamlsigil-release-pr[bot]"
  const APP_EMAIL := "318780254+nvidia-yamlsigil-release-pr[bot]@users.noreply.github.com"
  const APP: Author := Author(APP_LOGIN, 318780254, "Bot")
  const REPOSITORY := "NVIDIA/yaml-sigil-rs"

  /** What must exist for one package once its version is finalized. */
  datatype Target = Target(
    line: ReleaseLine, tag: string, message: string, body: string, prerelease: bool,
    source: Sha, date: string)
  {
    function RefName(): string {
      "refs/tags/" + tag
    }

    /** Deterministic: the tagger date is the source commit's. */
    function Payload(): TagPayload {
      TagPayload(tag, message, source, Tagger(APP_LOGIN, APP_EMAIL, date))
    }
  }

  /** What every mutation proves again: current main and, when bound, the release base. */
  datatype Binding = Binding(base: string, atTip: bool, anchor: Option<Sha>)

  datatype Authority = Authority(main: Sha, binding: Option<Binding>)

  predicate TagByte(c: char) {
    'a' <= c <= 'z' || '0' <= c <= '9' || c == '-' || c == '.'
  }

  function TargetFor(
    package: PackagePolicy, version: Version, line: ReleaseLine, source: Sha, date: string): Result<Target, Error>
  {
    var tag := package.tagPrefix + version.Text();
    if tag == "" || !(forall c :: c in tag ==> TagByte(c)) then Err(TagNameMalformed)
    else Ok(Target(
      line, tag, "chore: release package " + package.package + " version " + version.Text(),
      "Source: https://github.com/" + REPOSITORY + "/commit/" + source
        + "\n\nThis source-only Release contains no attached assets.",
      version.pre != "", source, date))
  }

  predicate IsSha(s: string) {
    |s| == 40 && forall c :: c in s ==> '0' <= c <= '9' || 'a' <= c <= 'f'
  }

  // What the record of a run shows.

  ghost predicate HeadShown(e: Event, name: string, sha: Sha) {
    e.call == ReadRef(name) && e.reply.ARef? && ExactHead(e.reply.reference, name) && e.reply.reference.sha == sha
  }

  ghost predicate AncestryShown(e: Event, source: Sha, head: Sha) {
    e.call == Compare(source, head) && e.reply.AComparison? && Descends(e.reply.comparison, source)
  }

  ghost predicate AnchorShown(e: Event, commit: Sha, main: Sha, anchor: Sha) {
    && e.call == Compare(commit, main)
    && e.reply.AComparison?
    && e.reply.comparison.base == commit
    && e.reply.comparison.mergeBase == anchor
  }

  ghost function RebindLength(authority: Authority): nat {
    if authority.binding.None? then 2 else if authority.binding.value.anchor.None? then 4 else 6
  }

  /** The events just before `n`: main's ancestry and then main itself, or the bound base between two equal reads. */
  ghost predicate RebindShown(trace: seq<Event>, n: int, source: Sha, authority: Authority) {
    && RebindLength(authority) <= n <= |trace|
    && HeadShown(trace[n - 1], MAIN_REF, authority.main)
    && match authority.binding
       case None => AncestryShown(trace[n - 2], source, authority.main)
       case Some(binding) => BaseShown(trace, n, source, authority.main, binding)
  }

  ghost predicate BaseShown(trace: seq<Event>, n: int, source: Sha, main: Sha, binding: Binding)
    requires (if binding.anchor.None? then 4 else 6) <= n <= |trace|
  {
    var first := n - if binding.anchor.None? then 4 else 6;
    && trace[n - 2].reply.ARef?
    && var tip := trace[n - 2].reply.reference.sha;
    && HeadShown(trace[first], binding.base, tip)
    && (binding.atTip ==> tip == source)
    && AncestryShown(trace[first + 1], source, tip)
    && (binding.anchor.Some? ==>
          && AnchorShown(trace[first + 2], source, main, binding.anchor.value)
          && AnchorShown(trace[first + 3], tip, main, binding.anchor.value))
    && HeadShown(trace[n - 2], binding.base, tip)
  }

  /** The events at `n` and `n + 1` show the exact annotated tag at `sha`. */
  ghost predicate TagShown(trace: seq<Event>, n: int, target: Target, sha: Sha) {
    && 0 <= n < |trace| - 1
    && trace[n].call == ReadRef(target.RefName())
    && trace[n].reply.ARef? && ValidTagRef(trace[n].reply.reference, target)
    && trace[n].reply.reference.sha == sha
    && ObjectShown(trace[n + 1], target, sha)
  }

  ghost predicate ReleaseShown(e: Event, target: Target) {
    e.call == ReadRelease(target.tag) && e.reply.ARelease? && ValidRelease(e.reply.release, target)
  }

  ghost predicate ObjectShown(e: Event, target: Target, sha: Sha) {
    e.call == ReadTagObject(sha) && e.reply.ATag? && ValidTag(e.reply.annotated, target, sha)
  }

  /**
   The event at `i`, if it creates something, creates exactly what the target asks for and
   directly follows a complete rebind of its own run, which began at `from`. A ref is created
   at the object read back exact just before that rebind; a Release creation is preceded,
   after its rebind, by the exact tag at the `settled` object and by Latest.
   */
  ghost predicate GuardedAt(
    trace: seq<Event>, i: int, from: nat, target: Target, authority: Authority, settled: Sha)
    requires 0 <= i < |trace|
  {
    var length := RebindLength(authority);
    match trace[i].call
    case PostTagObject(payload) =>
      && payload == target.Payload()
      && from + length <= i && RebindShown(trace, i, target.source, authority)
    case PostTagRef(name, sha) =>
      && name == target.RefName()
      && from + length < i && RebindShown(trace, i, target.source, authority)
      && ObjectShown(trace[i - length - 1], target, sha)
    case PostRelease(payload) =>
      && payload == ReleasePayload(
           target.tag, target.source, target.tag, target.body, false, target.prerelease, payload.makeLatest)
      && from + length <= i - 3 && RebindShown(trace, i - 3, target.source, authority)
      && TagShown(trace, i - 3, target, settled)
      && trace[i - 1].call == ReadLatest
    case _ => true
  }

  /** Every event from `start` on is guarded within the run that began at `from`. */
  ghost predicate Guarded(
    trace: seq<Event>, start: nat, from: nat, target: Target, authority: Authority, settled: Sha)
  {
    forall i :: start <= i < |trace| ==> GuardedAt(trace, i, from, target, authority, settled)
  }

  // Typed reads.

  function GetRef(w: World, name: string): (r: Run<Option<GitRef>>)
    ensures Reads(w, r.world)
  {
    var (reply, w) :- Exchange(w, ReadRef(name));
    match reply
    case ARef(reference) => Done(Some(reference), w)
    case Absent => Done(None, w)
    case _ => Failed(Malformed, w)
  }

  function GetComparison(w: World, base: Sha, head: Sha): (r: Run<Comparison>)
    ensures Reads(w, r.world)
  {
    var (reply, w) :- Exchange(w, Compare(base, head));
    if reply.AComparison? then Done(reply.comparison, w) else Failed(NotFound, w)
  }

  function GetTagObject(w: World, sha: Sha): (r: Run<AnnotatedTag>)
    ensures Reads(w, r.world)
    ensures r.Done? ==> |r.world.trace| == |w.trace| + 1
    ensures r.Done? ==> r.world.trace[|w.trace|] == Event(ReadTagObject(sha), ATag(r.value))
  {
    var (reply, w) :- Exchange(w, ReadTagObject(sha));
    if reply.ATag? then Done(reply.annotated, w) else Failed(NotFound, w)
  }

  predicate ExactHead(reference: GitRef, name: string) {
    reference.name == name && reference.kind == "commit" && IsSha(reference.sha)
  }

  function ReadHead(w: World, name: string, mismatch: Error): (r: Run<Sha>)
    ensures Reads(w, r.world)
    ensures r.Done? ==> |r.world.trace| == |w.trace| + 1 && HeadShown(r.world.trace[|w.trace|], name, r.value)
  {
    var (reference, w) :- GetRef(w, name);
    if reference.None? then Failed(NotFound, w)
    else if !ExactHead(reference.value, name) then Failed(mismatch, w)
    else Done(reference.value.sha, w)
  }

  function MainSha(w: World): (r: Run<Sha>)
    ensures Reads(w, r.world)
    ensures r.Done? ==> |r.world.trace| == |w.trace| + 1 && HeadShown(r.world.trace[|w.trace|], MAIN_REF, r.value)
  {
    ReadHead(w, MAIN_REF, MainNotExact)
  }

  predicate Descends(c: Comparison, source: Sha) {
    c.status in ["ahead", "identical"] && c.base == source && c.mergeBase == source
  }

  // Mutation authority.

  function RequireMainAncestry(w: World, source: Sha, main: Sha): (r: Run<()>)
    ensures Reads(w, r.world)
    ensures r.Done? ==> |r.world.trace| == |w.trace| + 1 && AncestryShown(r.world.trace[|w.trace|], source, main)
  {
    var (c, w) :- GetComparison(w, source, main);
    if !Descends(c, source) then Failed(NotAncestor, w) else Done((), w)
  }

  function RequireUnchangedMain(w: World, initial: Sha, current: Sha): (r: Run<()>)
    ensures Reads(w, r.world)
  {
    if !IsSha(initial) || !IsSha(current) || initial != current then Failed(MainChanged, w) else Done((), w)
  }

  function RequireCurrentMutationPolicy(w: World, source: Sha, main: Sha): (r: Run<()>)
    ensures Reads(w, r.world)
    ensures r.Done? ==> |r.world.trace| == |w.trace| + 2
    ensures r.Done? ==>
      && AncestryShown(r.world.trace[|w.trace|], source, main)
      && HeadShown(r.world.trace[|w.trace| + 1], MAIN_REF, main)
  {
    hide RequireMainAncestry, MainSha, Reads, AncestryShown, HeadShown;
    var (_, w1) :- RequireMainAncestry(w, source, main);
    ReadsThen(w, w1, MainSha(w1).world);
    var (current, w2) :- MainSha(w1);
    ReadsThen(w, w2, RequireUnchangedMain(w2, main, current).world);
    RequireUnchangedMain(w2, main, current)
  }

  function RequireAnchor(w: World, commit: Sha, main: Sha, anchor: Sha): (r: Run<()>)
    ensures Reads(w, r.world)
    ensures r.Done? ==> |r.world.trace| == |w.trace| + 1 && AnchorShown(r.world.trace[|w.trace|], commit, main, anchor)
  {
    var (c, w) :- GetComparison(w, commit, main);
    if c.base != commit || c.mergeBase != anchor then Failed(AnchorDiffers, w) else Done((), w)
  }

  function RequireAnchors(w: World, source: Sha, tip: Sha, main: Sha, anchor: Option<Sha>): (r: Run<()>)
    ensures Reads(w, r.world)
    ensures r.Done? ==> |r.world.trace| == |w.trace| + if anchor.None? then 0 else 2
    ensures r.Done? && anchor.Some? ==>
      && AnchorShown(r.world.trace[|w.trace|], source, main, anchor.value)
      && AnchorShown(r.world.trace[|w.trace| + 1], tip, main, anchor.value)
  {
    hide RequireAnchor;
    if anchor.None? then Done((), w)
    else
      var (_, w) :- RequireAnchor(w, source, main, anchor.value);
      RequireAnchor(w, tip, main, anchor.value)
  }

  function RequireStillAt(w: World, name: string, expected: Sha, moved: Error): (r: Run<()>)
    ensures Reads(w, r.world)
    ensures r.Done? ==> |r.world.trace| == |w.trace| + 1 && HeadShown(r.world.trace[|w.trace|], name, expected)
  {
    var (current, w) :- ReadHead(w, name, BaseNotExact);
    if current != expected then Failed(moved, w) else Done((), w)
  }

  function RequireUnmoved(w: World, base: string, tip: Sha, main: Sha): (r: Run<()>)
    ensures Reads(w, r.world)
    ensures r.Done? ==> |r.world.trace| == |w.trace| + 2
    ensures r.Done? ==>
      && HeadShown(r.world.trace[|w.trace|], base, tip)
      && HeadShown(r.world.trace[|w.trace| + 1], MAIN_REF, main)
  {
    hide RequireStillAt, Reads, HeadShown;
    var (_, w1) :- RequireStillAt(w, base, tip, BaseMoved);
    ReadsThen(w, w1, RequireStillAt(w1, MAIN_REF, main, MainChanged).world);
    RequireStillAt(w1, MAIN_REF, main, MainChanged)
  }

  function RequireLineage(w: World, source: Sha, tip: Sha, main: Sha, anchor: Option<Sha>): (r: Run<()>)
    ensures Reads(w, r.world)
    ensures r.Done? ==> |r.world.trace| == |w.trace| + if anchor.None? then 1 else 3
    ensures r.Done? ==> AncestryShown(r.world.trace[|w.trace|], source, tip)
    ensures r.Done? && anchor.Some? ==>
      && AnchorShown(r.world.trace[|w.trace| + 1], source, main, anchor.value)
      && AnchorShown(r.world.trace[|w.trace| + 2], tip, main, anchor.value)
  {
    hide RequireMainAncestry, RequireAnchors, Reads, AncestryShown, AnchorShown;
    var (_, w1) :- RequireMainAncestry(w, source, tip);
    ReadsThen(w, w1, RequireAnchors(w1, source, tip, main, anchor).world);
    RequireAnchors(w1, source, tip, main, anchor)
  }

  function BindingVerify(w: World, binding: Binding, source: Sha, main: Sha): (r: Run<()>)
    ensures Reads(w, r.world)
    ensures r.Done? ==> var authority := Authority(main, Some(binding));
      && |r.world.trace| == |w.trace| + RebindLength(authority)
      && RebindShown(r.world.trace, |r.world.trace|, source, authority)
  {
    hide ReadHead, RequireLineage, RequireUnmoved;
    var (tip, w) :- ReadHead(w, binding.base, BaseNotExact);
    if binding.atTip && tip != source then Failed(BaseNotSource, w)
    else
      var (_, w) :- RequireLineage(w, source, tip, main, binding.anchor);
      RequireUnmoved(w, binding.base, tip, main)
  }

  function Rebind(w: World, target: Target, authority: Authority): (r: Run<()>)
    ensures Reads(w, r.world)
    ensures r.Done? ==>
      && |r.world.trace| == |w.trace| + RebindLength(authority)
      && RebindShown(r.world.trace, |r.world.trace|, target.source, authority)
  {
    hide BindingVerify, RequireCurrentMutationPolicy;
    match authority.binding
    case Some(binding) => BindingVerify(w, binding, target.source, authority.main)
    case None => RequireCurrentMutationPolicy(w, target.source, authority.main)
  }

  // The annotated tag.

  predicate ValidTagRef(reference: GitRef, target: Target) {
    reference.name == target.RefName() && reference.kind == "tag" && IsSha(reference.sha)
  }

  predicate ValidTag(annotated: AnnotatedTag, target: Target, sha: Sha) {
    annotated == TagOf(sha, target.Payload())
  }

  function InspectTag(w: World, target: Target): (r: Run<Option<Sha>>)
    ensures Reads(w, r.world)
    ensures r.Done? && r.value.Some? ==>
      |r.world.trace| == |w.trace| + 2 && TagShown(r.world.trace, |w.trace|, target, r.value.value)
  {
    hide GetRef, GetTagObject;
    var w0 := w;
    var (found, w) :- GetRef(w, target.RefName());
    if found.None? then Done(None, w)
    else if !ValidTagRef(found.value, target) then Failed(TagRefConflict, w)
    else
      var sha := found.value.sha;
      ReadsThen(w0, w, GetTagObject(w, sha).world);
      var (annotated, w) :- GetTagObject(w, sha);
      if !ValidTag(annotated, target, sha) then Failed(TagConflict, w) else Done(Some(sha), w)
  }

  function RequireExactTagObject(w: World, target: Target, sha: Sha): (r: Run<()>)
    ensures Reads(w, r.world)
    ensures r.Done? ==> |r.world.trace| == |w.trace| + 2 && TagShown(r.world.trace, |w.trace|, target, sha)
  {
    hide InspectTag;
    var (observed, w) :- InspectTag(w, target);
    if observed != Some(sha) then Failed(TagNotRetained, w) else Done((), w)
  }

  function ReadBack(w: World, target: Target, created: AnnotatedTag): (r: Run<Sha>)
    ensures Reads(w, r.world)
    ensures r.Done? ==> r.value == created.sha
    ensures r.Done? ==> |w.trace| < |r.world.trace| && ObjectShown(r.world.trace[|r.world.trace| - 1], target, r.value)
  {
    var sha := created.sha;
    if !IsSha(sha) || !ValidTag(created, target, sha) then Failed(TagConflict, w)
    else
      var (readback, w) :- GetTagObject(w, sha);
      if !ValidTag(readback, target, sha) then Failed(TagConflict, w) else Done(sha, w)
  }

  function CreateTagObject(w: World, target: Target, authority: Authority): (r: Run<Sha>)
    ensures Follows(w, r.world) && Evolves(w, r.world)
  {
    hide Rebind, Exchange, ReadBack;
    var (_, w) :- Rebind(w, target, authority);
    var (reply, w) :- Exchange(w, PostTagObject(target.Payload()));
    if reply.ATag? then ReadBack(w, target, reply.annotated) else Failed(Malformed, w)
  }

  /** An unacknowledged creation is accepted when the exact ref is found afterwards. */
  function CreateTagRef(w: World, target: Target, authority: Authority, sha: Sha): (r: Run<()>)
    ensures Follows(w, r.world) && Evolves(w, r.world)
  {
    hide Rebind, Exchange, RequireExactTagObject;
    var (_, w) :- Rebind(w, target, authority);
    match Exchange(w, PostTagRef(target.RefName(), sha))
    case Done(reply, w) =>
      if !reply.ARef? then Failed(Malformed, w)
      else if !ValidTagRef(reply.reference, target) || reply.reference.sha != sha then Failed(TagRefConflict, w)
      else Done((), w)
    case Failed(error, w) => Recovered(RequireExactTagObject(w, target, sha), error)
    case Stopped(w) => Stopped(w)
  }

  function Recovered(attempt: Run<()>, error: Error): Run<()> {
    if attempt.Failed? then Failed(error, attempt.world) else attempt
  }

  function ReconcileTag(w: World, target: Target, authority: Authority): (r: Run<Sha>)
    ensures Follows(w, r.world) && Evolves(w, r.world)
  {
    hide InspectTag, CreateTagObject, CreateTagRef, RequireExactTagObject;
    var (found, w) :- InspectTag(w, target);
    if found.Some? then Done(found.value, w)
    else
      var (sha, w) :- CreateTagObject(w, target, authority);
      var (_, w) :- CreateTagRef(w, target, authority, sha);
      var (_, w) :- RequireExactTagObject(w, target, sha);
      Done(sha, w)
  }

  // Latest.

  datatype Guard = Guard(before: Option<Latest>, target: string, advance: bool)

  predicate RankLess(a: Rank, b: Rank) {
    Less(a.version, b.version) || (a.version == b.version && a.ordinal < b.ordinal)
  }

  predicate CanonicalLatest(service: Service, latest: Latest) {
    latest.id != 0 && service.rank(latest.tagName).Some? && service.rank(latest.tagName).value.version.Stable()
  }

  ghost predicate LatestShown(e: Event, latest: Option<Latest>) {
    e.call == ReadLatest && e.reply == if latest.None? then Absent else ALatest(latest.value)
  }

  function GetLatest(w: World): (r: Run<Option<Latest>>)
    ensures Reads(w, r.world)
    ensures r.Done? ==> |r.world.trace| == |w.trace| + 1 && LatestShown(r.world.trace[|w.trace|], r.value)
  {
    var (reply, w) :- Exchange(w, ReadLatest);
    match reply
    case Absent => Done(None, w)
    case ALatest(latest) =>
      if CanonicalLatest(w.service, latest) then Done(Some(latest), w) else Failed(LatestMalformed, w)
    case _ => Failed(Malformed, w)
  }

  predicate Advances(service: Service, target: Target, before: Option<Latest>)
    requires service.rank(target.tag).Some?
    requires before.Some? ==> service.rank(before.value.tagName).Some?
  {
    && target.line.MakesLatest(service.rank(target.tag).value.version)
    && (before.Some? ==> RankLess(service.rank(before.value.tagName).value, service.rank(target.tag).value))
  }

  /** The guard for a given Latest: the target advances it only from behind. */
  ghost predicate GuardFor(service: Service, target: Target, guard: Guard) {
    && service.rank(target.tag).Some?
    && (guard.before.Some? ==> service.rank(guard.before.value.tagName).Some?)
    && guard == Guard(guard.before, target.tag, Advances(service, target, guard.before))
  }

  function Capture(w: World, target: Target): (r: Run<Guard>)
    ensures Reads(w, r.world)
    ensures r.Done? ==> |r.world.trace| == |w.trace| + 1 && LatestShown(r.world.trace[|w.trace|], r.value.before)
    ensures r.Done? ==> GuardFor(w.service, target, r.value)
  {
    var service := w.service;
    if service.rank(target.tag).None? then Failed(LatestMalformed, w)
    else
      var (before, w) :- GetLatest(w);
      if before.Some? && service.rank(before.value.tagName).None? then Failed(LatestMalformed, w)
      else if !target.line.Main? && before.Some? && before.value.tagName == target.tag
      then Failed(SupportHoldsLatest, w)
      else Done(Guard(before, target.tag, Advances(service, target, before)), w)
  }

  function RequireUnchanged(w: World, guard: Guard): (r: Run<()>)
    ensures Reads(w, r.world)
    ensures r.Done? ==> |r.world.trace| == |w.trace| + 1 && LatestShown(r.world.trace[|w.trace|], guard.before)
  {
    var (latest, w) :- GetLatest(w);
    if latest != guard.before then Failed(LatestChanged, w) else Done((), w)
  }

  predicate Intended(guard: Guard, after: Option<Latest>) {
    if guard.advance then after.Some? && after.value.tagName == guard.target else after == guard.before
  }

  ghost predicate IntendedShown(e: Event, guard: Guard) {
    exists after :: LatestShown(e, after) && Intended(guard, after)
  }

  function VerifyLatest(w: World, guard: Guard): (r: Run<()>)
    ensures Reads(w, r.world)
    ensures r.Done? ==> |r.world.trace| == |w.trace| + 1 && IntendedShown(r.world.trace[|w.trace|], guard)
  {
    var (after, w) :- GetLatest(w);
    if !Intended(guard, after) then Failed(LatestDiffers, w) else Done((), w)
  }

  // The Release.

  predicate ValidRelease(release: Release, target: Target) {
    && release.id != 0
    && release.tagName == target.tag
    && release.target == target.source
    && release.name == target.tag
    && release.body == target.body
    && !release.draft
    && release.prerelease == target.prerelease
    && release.immutable
    && release.author == APP
    && release.assets == []
  }

  function ReleaseRequest(target: Target, guard: Guard): ReleasePayload {
    ReleasePayload(target.tag, target.source, target.tag, target.body, false, target.prerelease, guard.advance)
  }

  /** With the App as author and immutable Releases, exact means precisely what the creation asks for. */
  lemma ExactIsRequested(service: Service, release: Release, target: Target, guard: Guard)
    requires service.author == APP && service.immutable
    ensures ValidRelease(release, target) <==>
      release.id != 0 && release == ReleaseOf(service, release.id, ReleaseRequest(target, guard))
  {
  }

  function InspectRelease(w: World, target: Target): (r: Run<bool>)
    ensures Reads(w, r.world)
    ensures r.Done? && r.value ==> |r.world.trace| == |w.trace| + 1 && ReleaseShown(r.world.trace[|w.trace|], target)
  {
    var (reply, w) :- Exchange(w, ReadRelease(target.tag));
    match reply
    case Absent => Done(false, w)
    case ARelease(release) => if ValidRelease(release, target) then Done(true, w) else Failed(ReleaseConflict, w)
    case _ => Failed(Malformed, w)
  }

  function CreateRelease(w: World, target: Target, authority: Authority, sha: Sha, guard: Guard): (r: Run<()>)
    ensures Follows(w, r.world) && Evolves(w, r.world)
  {
    hide Rebind, RequireExactTagObject, RequireUnchanged, Exchange, AfterFailedRelease;
    var (_, w) :- Rebind(w, target, authority);
    var (_, w) :- RequireExactTagObject(w, target, sha);
    var (_, w) :- RequireUnchanged(w, guard);
    match Exchange(w, PostRelease(ReleaseRequest(target, guard)))
    case Done(reply, w) =>
      if reply.ARelease? && ValidRelease(reply.release, target) then Done((), w) else Failed(ReleaseConflict, w)
    case Failed(error, w) => AfterFailedRelease(w, target, sha, error)
    case Stopped(w) => Stopped(w)
  }

  function AfterFailedRelease(w: World, target: Target, sha: Sha, error: Error): (r: Run<()>)
    ensures Reads(w, r.world)
  {
    hide InspectRelease, RequireExactTagObject;
    var (exists_, w) :- InspectRelease(w, target);
    if exists_ then RequireExactTagObject(w, target, sha) else Failed(error, w)
  }

  /** The closing reads of every successful package. */
  function Confirm(w: World, target: Target, sha: Sha, guard: Guard): (r: Run<()>)
    ensures Reads(w, r.world)
  {
    hide RequireExactTagObject, VerifyLatest;
    var (_, w) :- RequireExactTagObject(w, target, sha);
    VerifyLatest(w, guard)
  }

  function ReconcileRelease(w: World, target: Target, authority: Authority, sha: Sha): (r: Run<()>)
    ensures Follows(w, r.world) && Evolves(w, r.world)
  {
    hide Capture, InspectRelease, CreateRelease, Confirm;
    var (guard, w) :- Capture(w, target);
    var (found, w) :- InspectRelease(w, target);
    if found then Confirm(w, target, sha, guard)
    else
      var (_, w) :- CreateRelease(w, target, authority, sha, guard);
      var (retained, w) :- InspectRelease(w, target);
      if !retained then Failed(ReleaseNotRetained, w) else Confirm(w, target, sha, guard)
  }

  function FinalizePackage(w: World, target: Target, authority: Authority): (r: Run<()>)
    ensures Follows(w, r.world) && Evolves(w, r.world)
  {
    hide ReconcileTag, ReconcileRelease;
    var (sha, w) :- ReconcileTag(w, target, authority);
    ReconcileRelease(w, target, authority, sha)
  }

  function VerifyBound(w: World, source: Sha, authority: Authority): (r: Run<()>)
    ensures Reads(w, r.world)
  {
    match authority.binding
    case None => Done((), w)
    case Some(binding) => BindingVerify(w, binding, source, authority.main)
  }

  function FinalizeAll(w: World, targets: seq<Target>, authority: Authority): (r: Run<()>)
    ensures Follows(w, r.world) && Evolves(w, r.world)
    decreases |targets|
  {
    hide VerifyBound, FinalizePackage;
    if targets == [] then Done((), w)
    else
      var (_, w) :- VerifyBound(w, targets[0].source, authority);
      var (_, w) :- FinalizePackage(w, targets[0], authority);
      FinalizeAll(w, targets[1..], authority)
  }

  predicate AllPublished(published: seq<bool>) {
    forall k :: 0 <= k < |published| ==> published[k]
  }

  /** Every crate is public, and main and the binding agree twice before the first mutation. */
  function Preflight(w: World, published: seq<bool>, source: Sha, binding: Option<Binding>): (r: Run<Authority>)
    ensures Reads(w, r.world)
    ensures r.Done? ==> AllPublished(published)
  {
    hide MainSha, VerifyBound, RequireUnchangedMain;
    var (policy, w) :- MainSha(w);
    if !AllPublished(published) then Failed(Unpublished, w)
    else
      var authority := Authority(policy, binding);
      var (_, w) :- VerifyBound(w, source, authority);
      var (current, w) :- MainSha(w);
      var (_, w) :- RequireUnchangedMain(w, policy, current);
      var (_, w) :- VerifyBound(w, source, authority);
      Done(authority, w)
  }

  function Finalize(
    w: World, published: seq<bool>, targets: seq<Target>, source: Sha, binding: Option<Binding>): Run<()>
  {
    var (authority, w) :- Preflight(w, published, source, binding);
    FinalizeAll(w, targets, authority)
  }
}
