# Verified models of the release tooling and signed-stream framing

These Dafny modules model the parts of the repository in which state, ordering or byte-level
parsing is hard to get right, and prove what those parts promise over every input, every run and
every interference. `dafny verify dfyconfig.toml` checks them all.

**Finalization** (`Forge`, `Finalization`, `FinalizationRecord`, `FinalizationResume`,
`FinalizationQuiet`, `FinalizationConvergence`, `LatestOrder`, `LatestWindow`, `GitHub`). The forge is a store of refs, tag objects, Releases and
Latest. Around every call a script, `turns`, lets other actors change the store by an arbitrary
function and lets the call fail before its effect, lose its reply, or be the point at which the
process is cut off. `Finalization` gives each source function as a function from world to world;
the class `GitHubTransport.GitHub` is the imperative form, whose methods change the transport's
fields exactly as those functions say. Tag objects are content-addressed: `Service.address` is any
function that does not collide on the family's payloads. Both branches of `rebind` are modelled,
the bound one as `Binding::verify` has it. `FinalizationRecord` says what the trace of *any* run
shows under *any* interference. `FinalizationResume` and `FinalizationConvergence` assume that
other actors keep what exists of the family exact and leave Latest alone (`Benign`), and prove
convergence after any number of interrupted attempts. Between attempts others may also move Latest
forward. `FinalizationQuiet` treats runs that nobody interferes with but whose replies may be lost,
and `LatestOrder` says at which package of a version Latest ends.

`LatestWindow` holds a property that fails. Latest is read for the last time before a Release is
created, so a newer Release placed in between is not seen: the older creation then takes Latest
back, the closing read finds the outcome it intended, and the newer package's own finalization is
blocked from then on. The module proves exactly when a run is safe from this, namely when its target
may not advance Latest before the run starts, and gives one concrete input. The release guide relies
on publication being serialized across the repository, which keeps the two publishers apart; the
code alone does not.

**Publication** (`Registry`, `Lifecycle`, `PackageOrder`, `ReleasePolicy`). The authorization
table over dependency-order prefixes, the state machine of qualifying, publishing and finalizing,
the derivation of the publishing order from workspace metadata, and the parser and printer of
release-line refs.

**Versions** (`SemVer`, `SupportLine`, `ReleaseVersions`, `Workspace`). Precedence of section 11
of Semantic Versioning 2.0.0, refined to the total order of `semver::Version`; support-line
advancement; activation and preparation of the workspace version, and the manifest they rewrite.

**Bounded subprocesses** (`BoundedProcess`). The Unix event loop over mutable captures, incremental
input, reaping and a grace timer. Pipes, standard input, the child and the clock are oracles: a
pipe's `content` is all its writers will ever write, and a choice function says when it blocks,
fails or gives how much. The event loop takes the number of passes it may make; `Running` is the
source's loop still waiting after that many.

**Framing** (`Utf8`, `Framing`). UTF-8 by the grammar of section 4 of RFC 3629, the skipping scan
for the last constrained marker, and decomposition into payload and carrier.

**Inventories** (`Inventory`). The parser of package inventories, its canonical rendering, and the
comparison with what Cargo lists.

**Key example** (`Whitespace`, `Pagination`, `KeyDiscovery`, `AgentSlot`). Discovery of an account's keys over two
paginated resources under one byte budget, and the agent connection kept in a slot under timeouts
and cancellations, as a state machine over interleaved callers.

Where text and code differ: the release guide gives the package order within one version as core,
transcription, signing, verification; the compiled table, which the model follows, ends with
`yaml-sigil-wasm` from version 0.6 on. Three checks in the code can never fail and are proved so:
the two defensive exits after the marker scan (`Framing.DefensiveExitsUnreachable`), the overflow
error of a release-line component (`ReleasePolicy.BaseNeverOverflows`) and the "must be published
before" error (`PackageOrder.PublishedTooLateUnreachable`).

## Model

| member | source | states |
|---|---|---|
| FinalizationRecord.EveryPostGuarded | xtask/src/github.rs:1258-1279 | Whatever other actors and the network do, each creation of a package's run carries exactly the requested payload and directly follows, with only reads between, a complete rebind of the same run ending in main at the policy commit; a ref is created only at the object just read back exact, and a Release only after a further exact read of the tag at the object the run settled on and a Latest read |
| FinalizationRecord.EveryPostSawMain | xtask/src/github.rs:494-502 | Main drift stops a run: every creation has its own read of main at the policy commit, with no other creation in between |
| FinalizationRecord.EveryFamilyPostGuarded | xtask/src/github.rs:381-395 | The same guard holds for every creation of the loop over all packages, for one of its targets |
| FinalizationRecord.EveryAttemptPostGuarded | xtask/src/github.rs:328-401 | In a whole attempt every creation comes after main and the bound base were each seen twice at the same commit, and is guarded for one of the packages under the main that the attempt itself read first |
| FinalizationRecord.SuccessEndsInExactReads | xtask/src/github.rs:1281-1308 | A successful run settled on one tag object targeting the source commit, saw it exact at the start, and its last four events are the exact Release, the ref at that same object, the exact object, and Latest |
| FinalizationRecord.LatestDecidesRelease | xtask/src/github.rs:1281-1308 | Under any interference a Release creation directly follows a read of the same Latest that was captured first and asks for exactly what that Latest allows, and success ends by reading the intended outcome |
| FinalizationRecord.EveryAttemptReleaseSettled | xtask/src/github.rs:328-401 | In a whole attempt every Release creation directly follows a read of Latest and asks for one package exactly what that Latest allows |
| LatestWindow.LatestKeptExactly | xtask/src/github/latest.rs:26-52 | Exactly when a run keeps Latest: no actors that move Latest only forward, whatever they do and whatever calls fail, can make it leave a newer Release behind, if and only if the guard's own question, asked of Latest before the run starts, is answered no |
| LatestWindow.BehindIsSafe | xtask/src/github.rs:1281-1308 | A target that may not advance Latest when the run starts never does: under all such actors and faults every creation asks for no Latest, the family stays resumable and Latest only moves forward |
| LatestWindow.RaceTakesLatestBack | xtask/src/github.rs:1281-1308 | With any binding or none, from every state in which the target may advance Latest, a newer Release placed between the last read and the creation loses Latest to the older one, and the run still succeeds |
| LatestWindow.OverlookedIsBlocked | xtask/src/github.rs:1281-1308 | A package whose Release is ahead of Latest can no longer be finalized: while nobody else moves Latest, its run never succeeds, posts nothing and changes nothing, under any faults |
| LatestWindow.RaceBlocksNewer | xtask/src/github.rs:1281-1308 | After such a race every later run of the overlooked package is blocked in this way |
| LatestWindow.LatestMovesBack | xtask/src/github.rs:1281-1308 | A concrete input: a fresh, bound release of version 0.6.0 of the core package takes Latest back from its published version 0.7.0 |
| FinalizationRecord.CreatedObjectShown | xtask/src/github.rs:1431-1457 | A created tag object is handed on only after it was read back and found exact |
| FinalizationResume.TagObjectHarmless | xtask/src/github.rs:1431-1457 | Posting a package's tag object keeps every package resumable and replaces nothing |
| FinalizationResume.TagRefHarmless | xtask/src/github.rs:1459-1488 | Posting a package's tag ref keeps every package resumable and replaces nothing |
| FinalizationResume.ReleaseHarmless | xtask/src/github.rs:1504-1540 | Posting a Release under a Latest guard that still holds keeps every package resumable and never moves Latest back |
| FinalizationResume.PackageAdvances | xtask/src/github.rs:1258-1279 | However one package's run fails, is cut off or loses replies, the family stays resumable and only progresses; success means its tag and Release exist |
| FinalizationResume.FamilyAdvances | xtask/src/github.rs:381-395 | The same for the whole loop: nothing of the family is replaced, Latest never moves back, and success means that every tag and Release exists |
| FinalizationConvergence.CompletePackageReads | xtask/src/github.rs:1281-1308 | With its tag and Release present, a package's run posts nothing whatever faults it meets |
| FinalizationConvergence.CompleteFamilyReads | xtask/src/github.rs:381-395 | Once the family is complete no run posts anything, under any faults and benign changes |
| FinalizationConvergence.AttemptAdvances | xtask/src/github.rs:328-401 | A whole attempt from reading main onwards keeps the family resumable; with a crate unpublished it posts nothing and fails |
| FinalizationConvergence.AttemptSucceeds | xtask/src/github.rs:328-401 | From every resumable store an attempt whose authority holds and that nobody interferes with returns Ok with every tag and Release present and exact, even if replies to its creations of refs and Releases are lost; only a reply missed by a read or by the creation of a tag object can fail it |
| FinalizationQuiet.CreateTagRefQuiet | xtask/src/github.rs:1459-1488 | A ref creation that loses its reply still succeeds, because the exact ref is found afterwards |
| FinalizationQuiet.CreateReleaseQuiet | xtask/src/github.rs:1504-1540 | A Release creation that loses its reply still succeeds, and leaves the Release and Latest as intended |
| FinalizationQuiet.ExactTagQuiet | xtask/src/github.rs:1369-1383 | Whatever the store holds, the tag is read successfully exactly when it is absent or exact |
| FinalizationQuiet.ExactReleaseQuiet | xtask/src/github.rs:1490-1502 | Whatever the store holds, the Release is read successfully exactly when it is absent or exact |
| Finalization.ExactIsRequested | xtask/src/github.rs:1542-1563 | A Release counts as exact precisely when it is what the creation request makes of it |
| LatestOrder.AttemptTakesLatest | xtask/src/github/latest.rs:26-52 | A successful attempt for a stable version of main leaves Latest at the version's last package, whatever Releases existed before, unless Latest was already there or at a higher version; then Latest is left alone |
| LatestOrder.CompleteIsReached | xtask/src/github/latest.rs:26-52 | However a stable family was completed, Latest is then at its last package or at something later |
| LatestOrder.EarlierNeverDisplaces | xtask/src/github/latest.rs:39-46 | Over any interrupted attempts Latest, once at a package, never names an earlier package of that version or a lower version again |
| LatestOrder.FamilyLeavesLatest | xtask/src/release_policy.rs:171-173 | Support lines and pre-releases leave Latest as it is |
| FinalizationQuiet.CaptureExactly | xtask/src/github/latest.rs:26-85 | A guard is captured exactly when Latest is absent or one canonical stable Release with a nonzero id, and not the support target's own |
| FinalizationConvergence.AttemptsProgress | xtask/src/github.rs:1258-1308 | Any sequence of interrupted attempts keeps the family resumable and replaces nothing |
| FinalizationConvergence.Converges | xtask/src/github.rs:1258-1308 | Crash-resume convergence: after any finite number of attempts cut off anywhere and with any replies lost, one uninterrupted attempt succeeds with one exact tag and Release per package, what existed is unchanged, and after any number of further attempts, again disturbed in any way, the next one still makes no creation |
| FinalizationConvergence.LaterAttemptsRead | xtask/src/github.rs:381-395 | However many disturbed attempts follow a complete family, the one after them makes no creation either |
| FinalizationConvergence.CrashesConverge | xtask/src/github.rs:328-401 | Against failures, lost replies and cut-offs alone, a permission that held before the first attempt is all that convergence needs: finalization never takes its own permission away |
| FinalizationConvergence.NothingReplaced | xtask/src/github.rs:1431-1540 | Finalization never replaces or removes any tag ref, tag object or Release, exact or not |
| Finalization.BindingVerify | xtask/src/github/provenance.rs:148-181 | Verification succeeds only after two equal reads of the bound base around the lineage and anchor comparisons, and then main at the policy commit, posting nothing |
| Finalization.Rebind | xtask/src/github.rs:1321-1326 | Both branches end with the exact events the guard of every creation asks for, and post nothing |
| Finalization.RequireCurrentMutationPolicy | xtask/src/github.rs:494-502 | Without a binding: the source's ancestry, then main at the policy commit, both read fresh |
| Finalization.InspectTag | xtask/src/github.rs:1369-1383 | A reported tag was read as an annotated ref and then as the exact object, in that order |
| Finalization.RequireExactTagObject | xtask/src/github.rs:1393-1408 | Succeeds only on a fresh read of the ref at the expected object and of that object, exact |
| FinalizationResume.LatestStaysAhead | xtask/src/github/latest.rs:26-52 | When one package may take Latest, a package behind the old Latest stays behind the new one |
| FinalizationResume.CaptureGuards | xtask/src/github/latest.rs:26-52 | The captured guard records Latest as it was and whether the target may advance it, which `LatestOrder` decides by version and place |
| GitHubTransport.GitHub.FinalizeAll | xtask/src/github.rs:381-395 | The package loop, stopped by the first failure or cut, refines its specification |
| GitHubTransport.GitHub.Finalize | xtask/src/github.rs:328-401 | Preflight and loop together refine the attempt about which convergence is proved |
| GitHubTransport.GitHub.RequireConsistent | xtask/src/github.rs:981-1008 | The qualification loop refines its specification |
| Registry.Decide | xtask/src/github.rs:933-979 | The prefix scan and the count together refine the decision that DecisionTable gives from the states alone |
| Registry.DecisionTable | xtask/src/github.rs:933-979 | The whole table by none, some first ones or all crates being published, every error included: automatic and dispatched releases start only from none, and a recovery finalizes exactly when some crate is published and publishes exactly when one is also missing |
| Registry.GrantsExactly | xtask/src/github.rs:912-979 | Over every operation, line and confirmation: publication is granted exactly to the line's own operation from none and to a recovery from some, finalization alone exactly to a recovery of the complete family |
| Registry.PermitsFit | xtask/src/github.rs:933-979 | Publication is permitted only while a crate is missing, from none unless recovering; finalization alone only to a recovery of the complete family |
| Registry.PrefixOrGap | xtask/src/github.rs:943-953 | The accepted states are exactly those without an unpublished crate before a published one |
| Lifecycle.FamilyTagsDiffer | xtask/src/github.rs:1327-1343 | No two packages of one version share a tag |
| Lifecycle.TagsDetermine | xtask/src/github.rs:1327-1343 | Over all packages and versions a tag determines its package and its version, and the pre-release flag holds exactly for versions that are not stable |
| Lifecycle.FamilyDependable | xtask/src/github.rs:1327-1343 | The compiled family of every version meets what the finalization theorems ask of it, given only what the forge promises |
| Lifecycle.StepSound | xtask/src/github.rs:912-1008 | One step of qualifying, publishing or finalizing keeps the prefix and the order of objects after publication; a publication needs a permit and shrinks what is missing by exactly one |
| Lifecycle.RunsSound | xtask/src/github.rs:912-1008 | Over every run the published set is a dependency-order prefix, tags and Releases are exact and exist only when it is complete, a Release implies its tag, and nothing is replaced |
| Lifecycle.PublishedClosed | xtask/src/release_policy.rs:29-74 | In every run no published crate lacks an internal dependency |
| Lifecycle.UnstartedIsSound | xtask/src/github.rs:912-1008 | A release that has not begun satisfies the invariant all runs keep |
| Lifecycle.ConsistentExactly | xtask/src/github.rs:981-1008 | Whatever the store holds, qualification accepts exactly when every existing object is exact, each Release has its tag, and nothing exists beside an unpublished crate |
| Lifecycle.ReleaseCompletes | xtask/src/github.rs:933-1008 | From every reachable state, requalifying with the operation that fits the line and the registry grants what is still needed: publishing what is missing and one undisturbed finalization, each done only under its permit, complete the release |
| Lifecycle.VersionCompletes | xtask/src/github.rs:912-1008 | The release of a whole version, for its compiled family: after any actions and outsiders, what is published lacks no internal dependency, and the release can be completed |
| Lifecycle.VersionTakesLatest | xtask/src/github.rs:381-395 | A stable version released from main over an empty or lower Latest ends with Latest at the last package of its compiled family |
| ReleasePolicy.FamilyOrdered | xtask/src/release_policy.rs:29-98 | Every version's family has distinct names and lists dependencies first |
| ReleasePolicy.WasmFromSix | xtask/src/release_policy.rs:87-98 | The wasm package belongs to a version's family exactly from core 0.6.0 on, its pre-releases included, and every other package always does |
| ReleasePolicy.PrintedBaseReadsBack | xtask/src/release_policy.rs:131-164 | Reading back a printed line gives that line exactly when its components are below 10^9, and the length error otherwise |
| ReleasePolicy.AcceptedBaseIsCanonical | xtask/src/release_policy.rs:131-164 | Every accepted base ref is the text of the line it names |
| ReleasePolicy.BaseNeverOverflows | xtask/src/release_policy.rs:141-152 | No base ref makes the numeric parse overflow |
| SemVer.VersionOrder | xtask/src/release_policy.rs:214-218 | The order behind `<` and `max` is total, antisymmetric and transitive |
| SemVer.PrecedenceIs | xtask/src/release_policy.rs:214-218 | Section 11 of Semantic Versioning 2.0.0 exactly, from fields and characters: major, minor, patch, a pre-release before its release, then the first differing identifier, numbers by value and below the rest, the rest by first differing character, a proper prefix first |
| SemVer.OrderIs | xtask/src/release_policy.rs:214-218 | The total order is precedence, refined by build metadata under the same rules exactly where precedence ties |
| SemVer.PrecedenceTransitive | xtask/src/release_policy.rs:214-218 | The precedence that PrecedenceIs describes is transitive, numeric and alphanumeric identifiers mixed |
| SemVer.PrecedenceSymmetry | xtask/src/release_policy.rs:214-218 | Versions tie in precedence exactly when they differ in build metadata only |
| SemVer.CandidatePrecedence | xtask/src/release_policy.rs:225-250 | Candidates of one core rank by the value of their ordinal |
| SemVer.MaxIsGreatest | xtask/src/release_policy.rs:214-218 | Nothing in the list exceeds its `max` |
| SupportLine.AdvanceIsSuccessor | xtask/src/release_policy.rs:202-251 | Against any reachable history the filter-and-max check accepts exactly the successors of the line's last release, whatever other lines have published and in whatever order the tags are listed |
| SupportLine.OnlyOwnLineCounts | xtask/src/release_base.rs:48-71 | The answer, its error included, depends only on which versions of the line are among the listed tags |
| SupportLine.AcceptedHistories | xtask/src/release_policy.rs:202-251 | With any releases of other lines in between, the accepted sequences from one stable baseline are exactly those whose own releases are contiguous: stable patches, and candidate ordinals from the first one chosen |
| SupportLine.AcceptedIncreases | xtask/src/release_policy.rs:202-251 | Every accepted sequence rises strictly in section 11 precedence |
| SupportLine.NextStableReachable | xtask/src/release_policy.rs:202-251 | The next stable is accepted from every reachable history, and nothing is once the patch number is exhausted |
| ReleaseVersions.AdjustmentRises | xtask/src/release.rs:224-299 | Every accepted adjustment raises the version strictly in precedence, whichever of the five branches accepts it |
| ReleaseVersions.NextCandidatePrecedes | xtask/src/release.rs:248-260 | The text taken for the next candidate, which NextCandidateExactly identifies, ranks above the unchanged release |
| ReleaseVersions.NextCandidateExactly | xtask/src/release.rs:224-260 | From candidate N to candidate M an adjustment is accepted exactly when nothing else changed and M is N + 1 within 64 bits, or any positive M from the stub |
| ReleaseVersions.OnlyCandidatesFollow | xtask/src/release.rs:224-299 | Between two pre-releases only candidates are accepted |
| ReleaseVersions.PromotionExactly | xtask/src/release.rs:261-271 | A pre-release is promoted exactly to its own core's stable version, through a derived pre-release of that core that did not fall back |
| ReleaseVersions.PrereleaseExactly | xtask/src/release.rs:272-292 | From a stable version exactly two ways are accepted: a pre-release of the higher stable version derived, or the first candidate of the very next patch when nothing was derived |
| ReleaseVersions.ActivationExactly | xtask/src/release.rs:135-148 | Activation yields the target's stub exactly for stable versions whose core rises, and names the first fault otherwise |
| ReleaseVersions.SupportPreparation | xtask/src/release.rs:150-192 | On a support line a preparation is accepted exactly when the selected version follows the line's last release, is above the workspace's, and is derived or a supported adjustment |
| ReleaseVersions.RunRises | xtask/src/release.rs:106-192 | Every run of activations and preparations raises the workspace version strictly in precedence |
| ReleaseVersions.StubsComeFromActivation | xtask/src/release.rs:135-161 | An rc.0 version is left by activations and never by preparations |
| ReleaseVersions.ActivatedLineReleases | xtask/src/release.rs:135-148 | The target of an activation is accepted as the first release from its own stub |
| WorkspaceManifest.Workspace.Synchronize | xtask/src/versions.rs:48-100 | Afterwards every internal requirement equals the workspace version; reports whether any differed; checking refuses instead of repairing |
| WorkspaceManifest.Workspace.Rewrite | xtask/src/versions.rs:69-88 | Rewrites exactly the named requirements, fails exactly when one is missing, and reports a change exactly when there is one |
| WorkspaceManifest.Workspace.Activate | xtask/src/release.rs:106-133 | Success leaves the activation version with all requirements synchronized; a refused target changes nothing |
| WorkspaceManifest.Workspace.Prepare | xtask/src/release.rs:150-222 | Success leaves exactly the selected version, reached directly or by a supported adjustment; otherwise the reported error is the first gate's |
| PackageOrder.OrderedPublishablePackages | xtask/src/versions.rs:162-197 | Succeeds exactly when the locally publishable packages are the family's, one a name, and then returns them in the family's order |
| PackageOrder.OrderIndependent | xtask/src/versions.rs:162-197 | Every permutation of the metadata gives the same order |
| PackageOrder.IndexPackages | xtask/src/versions.rs:166-186 | The index holds exactly the shipped packages seen, and every refusal is justified by the whole metadata |
| PackageOrder.DrainInOrder | xtask/src/versions.rs:188-195 | Draining succeeds exactly when every family member is indexed, and leaves only names outside the family; in use, none |
| PackageOrder.ValidateInternalDependencies | xtask/src/versions.rs:287-358 | Accepts exactly when every package has the expected dependency set with local identity, path and requirement; otherwise names the first package that has not |
| PackageOrder.ValidatedOrderIsTopological | xtask/src/versions.rs:287-358 | Every prefix of the validated order is dependency-closed |
| PackageOrder.PublishedTooLateUnreachable | xtask/src/versions.rs:324-330 | The dependency-set check already rules out a dependency published too late |
| Inventory.ParseInventory | xtask/src/package_content.rs:127-162 | The line loop returns the set of lines or the first error, as the specification has it |
| Inventory.AcceptedExactly | xtask/src/package_content.rs:127-162 | A text is accepted with a set exactly when it is the bytewise-sorted, LF-terminated rendering of that nonempty set of valid paths |
| Inventory.AcceptedInjective | xtask/src/package_content.rs:127-162 | No two accepted texts list the same paths |
| Inventory.ErrorIsFirst | xtask/src/package_content.rs:138-160 | A reported line is the first that breaks the order or names a bad path |
| Inventory.ValidateAcceptsInventoryPaths | xtask/src/package_content.rs:174-194 | On Unix the textual rules decide alone; the component check adds nothing |
| Inventory.CompareInventories | xtask/src/package_content.rs:196-204 | Applying the difference to the expected set gives the actual one, and it is empty exactly for equal sets |
| Inventory.CheckPackage | xtask/src/package_content.rs:61-102 | The check refines its specification, errors in the source's order |
| Inventory.CheckPassesExactly | xtask/src/package_content.rs:61-102 | The check passes exactly when the committed text is the canonical rendering of the listed paths plus the lockfile |
| BoundedProcess.ValidateLimits | xtask/src/bounded_process.rs:232-248 | Accepts exactly the limits whose sentinels fit in a word and inputs within 4 MiB |
| BoundedProcess.NewCapture | xtask/src/bounded_process.rs:479-489 | Refuses exactly the limits whose sentinel does not fit |
| BoundedProcess.Capture.Drain | xtask/src/bounded_process.rs:499-536 | The buffer is always the part of the stream taken so far and never exceeds limit plus one; no zero-length read is issued, so a zero result is end of file; reading stops only at a block, the end, the sentinel or a failure |
| BoundedProcess.Feed.WriteInput | xtask/src/bounded_process.rs:620-656 | The child has received exactly the input before the offset; the handle is dropped only when all is written or the child hung up |
| BoundedProcess.Pump | xtask/src/bounded_process.rs:766-799 | Progress is reported only when work was done; without failure neither limit is exceeded, no call failed and nothing more can be moved; a reported failure or excess did happen |
| BoundedProcess.Watch | xtask/src/bounded_process.rs:800-831 | The child is polled at most once a pass and never after reaping; the retained-pipes failure needs a full grace period; an idle pass after reaping spends a grace tick |
| BoundedProcess.EventLoop | xtask/src/bounded_process.rs:761-832 | Ends without failure only when the child is reaped, both captures are complete within their limits and no call failed; every failure reported did happen, retained pipes only a full grace period after the child was reaped; after the pass that reaps the child at most a fixed number of passes follow |
| BoundedProcess.Process.TerminateTree | xtask/src/bounded_process.rs:571-576 | The group is killed, and the child itself unless it is known to have exited |
| BoundedProcess.Process.ReapUntil | xtask/src/bounded_process.rs:603-618 | Returns the reaped status, or gives up only past the deadline or on a polling error |
| BoundedProcess.FailWith | xtask/src/bounded_process.rs:834-844 | Every failure kills the group first; unless a cleanup failure is attached, the child was reaped |
| BoundedProcess.OutputInner | xtask/src/bounded_process.rs:696-851 | Success means the child was reaped and each output is its complete stream within its limit; what was sent is a prefix of the input; every failure did happen and, once the child exists, killed the group; still waiting means the child was alive on all but a bounded number of passes |
| BoundedProcess.RunBounded | xtask/src/bounded_process.rs:274-290 | Refused limits start nothing; a run under accepted ones that ends succeeds exactly when it was clean: both streams ended within their limits, the child was reaped and no call to the system failed |
| BoundedProcess.ReportedIsNotClean | xtask/src/bounded_process.rs:834-844 | No failure can be reported of a clean run |
| Utf8.ValidConcat | crates/yaml-sigil-core/src/decomposition.rs:31-33 | Valid texts join to valid text |
| Utf8.ValidCut | crates/yaml-sigil-core/src/decomposition.rs:31-33 | Valid text may be cut before any byte that does not continue a character |
| Framing.FindLastMarker | crates/yaml-sigil-core/src/decomposition.rs:78-91 | The skipping scan finds the greatest marker position over all positions |
| Framing.MarkersDisjoint | crates/yaml-sigil-core/src/decomposition.rs:57-76 | No marker begins inside another one |
| Framing.Decompose | crates/yaml-sigil-core/src/decomposition.rs:100-127 | The decomposition refines its specification |
| Framing.DefensiveExitsUnreachable | crates/yaml-sigil-core/src/decomposition.rs:108-118 | The marker found has a length and ends within the artifact |
| Framing.OutcomeIs | crates/yaml-sigil-core/src/decomposition.rs:100-127 | Malformed is exactly invalid text, a leading BOM or a final marker without carrier; unsigned is exactly other text without markers |
| Framing.SignedIsWrapped | crates/yaml-sigil-core/src/decomposition.rs:100-127 | Every signed outcome tiles the artifact into an accepted payload, one marker line, and a nonempty valid carrier without markers of its own |
| Framing.PayloadBeforeMarker | crates/yaml-sigil-core/src/payload.rs:23-38 | The text before any marker passes payload validation |
| Framing.WrapDecomposes | crates/yaml-sigil-core/src/decomposition.rs:100-127 | Wrapping an accepted payload decomposes back at the same bounds exactly when the carrier is proper |
| Framing.LayersArePayload | crates/yaml-sigil-core/src/payload.rs:23-38 | A payload wrapped in any proper layers is an accepted payload again |
| Framing.LayersPeel | crates/yaml-sigil-core/src/decomposition.rs:57-127 | Repeated decomposition of any number of layers peels the carriers in reverse order and ends at the payload |
| Pagination.ReadQuery | examples/github-keys/github.rs:234-262 | Accepts exactly a query naming the next page and the page size once each, in either order, and nothing else |
| Pagination.HasNextPage | examples/github-keys/github.rs:170-267 | Over all Link headers: true exactly for one next link that advances one page of the same resource among plain links, false exactly for plain links only, and refused otherwise |
| Pagination.ReadLink | examples/github-keys/github.rs:183-214 | The parameter loop reads the one `rel` parameter, or finds the link malformed, as the specification has it |
| Pagination.DocumentedLink | examples/github-keys/github.rs:183-214 | A link in the form GitHub documents reads back as its target and its one relation |
| Pagination.ScanIsNextPage | examples/github-keys/github.rs:177-266 | Taking the links one at a time, refusing a second next link, finds exactly the one next link among plain ones |
| KeyDiscovery.ParseCandidates | examples/github-keys/keys.rs:55-75 | Yields each supported key once at its first line, or the first faulty line's error |
| KeyDiscovery.JoinedLines | examples/github-keys/github.rs:92-92 | Joining listed keys and reading the lines back loses and invents nothing |
| KeyDiscovery.FetchResourcePages | examples/github-keys/github.rs:109-128 | Requests pages 1, 2, ... in order, at most ten, whatever the outcome, and yields what the specification collects |
| KeyDiscovery.GetPage | examples/github-keys/github.rs:115-120 | One request, and its status, links, type, size and records checked in the source's order |
| KeyDiscovery.CollectSound | examples/github-keys/github.rs:109-128 | Keys come only from a complete page list; bytes read plus remaining budget is constant; the keys are exactly those of the pages |
| KeyDiscovery.CollectTotal | examples/github-keys/github.rs:109-128 | Every complete page list within the budget is collected |
| KeyDiscovery.FetchPages | examples/github-keys/github.rs:82-107 | The lookup refines its specification; whatever the outcome it requests the first resource's pages in order, and the second's only once the first was read whole, at most ten each |
| KeyDiscovery.DiscoveryExactly | examples/github-keys/github.rs:82-128 | A lookup succeeds exactly when both resources are complete page lists within the shared budget, every key can be read and some key is supported |
| KeyDiscovery.LookupIsDiscovered | examples/github-keys/github.rs:82-128 | The pages, one to ten of each resource, determine the number of requests, the budget left over both resources, and the result |
| KeyDiscovery.AttributedIs | examples/github-keys/github.rs:92-100 | The result holds every supported key of both resources once, attributed to the first resource listing it |
| KeyDiscovery.FirstSeenTwice | examples/github-keys/github.rs:92-100 | Removing repeats per resource and again on merging equals removing them from the whole listing |
| KeyDiscovery.FirstSeenGrows | examples/github-keys/github.rs:92-100 | Keys seen first keep their places when more follow |
| AgentSlot.Open | examples/github-keys/agent.rs:54-84 | Keeps each supported key once, as its first identity in the agent's order; fails exactly on an inadmissible key or when none is supported |
| AgentSlot.Select | examples/github-keys/agent.rs:103-141 | Selects exactly when one identity matches signer and fingerprint; several are refused |
| AgentSlot.RunsSane | examples/github-keys/agent.rs:144-173 | Over every interleaving of callers, replies, timeouts and cancellations at most one caller holds the connection, and only its own request may be unanswered |
| AgentSlot.SlotIsIdle | examples/github-keys/agent.rs:144-173 | The slot never offers a connection with an unanswered request |
| AgentSlot.RepliesAreOwn | examples/github-keys/agent.rs:144-173 | Every signature returned is the reply to the caller's own message |
| AgentSlot.FailureCloses | examples/github-keys/agent.rs:150-168 | A call that fails, times out or is cancelled after taking the connection closes it |
| AgentSlot.ClosedStays | examples/github-keys/agent.rs:144-173 | Once closed, no call ever sends anything or returns a signature |
| AgentSlot.OneFailureEndsAll | examples/github-keys/agent.rs:144-173 | Over whole runs: once one call holding the connection fails, times out or is cancelled, nothing is sent any more, and only calls answered before it ever return a signature, each its own |
| AgentSlot.CallIsRun | examples/github-keys/agent.rs:144-173 | One call's own events return the connection exactly after a sound reply, and otherwise leave the slot empty and free |
| AgentSlot.AgentSigner.TrySign | examples/github-keys/agent.rs:144-173 | Returns the signature of its own message exactly after a sound reply on a present connection, and otherwise leaves none |

## Left out

- Finalization.Finalize: does not model the checkout, policy, App-scope and source-commit checks before the package loop; the source commit, its date and the published states are parameters.
- Finalization.TargetFor: carries the source commit and tagger date that the source passes beside its specification record.
- Loading a binding from Git history, and the read-only rebind command; a binding's base, freshness and anchor are given.
- Reading a Latest tag's version and package ordinal from its text is the parameter `Service.rank`; that it yields no build metadata is an assumption about it.
- A Release posted for a tag that does not exist, for which the forge would create a lightweight tag; finalization reads the exact tag just before.
- FinalizationConvergence.Converges: assumes that other actors keep the family's objects exact, because a conflicting tag or Release created by others is refused for good by design, and that Latest moves only between attempts; what a move during one can do is `LatestWindow`.
- Lifecycle.RunsSound: reads the registry and the store of one qualification together, so a crate published between the two reads is seen by the next qualification; outsiders create none of the family's tags or Releases.
- The registry client, archives and checksums: the list of published states is a parameter.
- Identity checks on runs, pull requests, signers and commits: conjunctions of field equalities.
- WorkspaceManifest.Workspace.Prepare: the outcomes of release-plz, of the checkout checks and of Cargo's validation are parameters; manifests are reduced to their version and internal requirements.
- Restoring inherited manifests, changelogs and managed-diff checks.
- PackageOrder.ValidateInternalDependencies: a requirement is a plain version or something else, and a caret requirement matches its own version.
- Target kinds, crate types and the traits dependency of a package.
- Inventory paths with the Windows separator and Windows path components.
- BoundedProcess.EventLoop: bounds the number of passes, because a child that never exits keeps the source's loop waiting forever.
- BoundedProcess.RunBounded: leaves out spawning details, `/proc` scanning for adopted descendants, disposable Cargo state and the Windows path; signals are recorded, not delivered.
- YAML, JSON Schema, base64, protobuf and all cryptography behind the framing.
- Resource limits applied before decomposition.
- Pagination.HasNextPage: URI syntax is a parameter, and a page number is a 64-bit word.
- KeyDiscovery.FetchPages: HTTP, JSON decoding and OpenSSH decoding are oracles; the wording of rate-limit errors is left out, and a candidate's fingerprint is taken as determined by its key.
- AgentSlot.AgentSigner.TrySign: the agent protocol is a first-in first-out exchange of requests and replies; connecting and its timeout are left out.
