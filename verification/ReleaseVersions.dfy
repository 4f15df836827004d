/** Version steps of local release preparation: activation of a line, and exact release selection. */
module ReleaseVersions {
  import opened Wrappers
  import opened Sequences
  import opened Decimal
  import opened SemVer
  import opened ReleasePolicy
  import opened SupportLine

  datatype VersionError =
    | CurrentNotStable | TargetNotStable | NotAdvancing | HasBuildMetadata | CoordinationStub
    | UnsupportedAdjustment | WorkspaceChanged | NotSynchronized | MissingRequirement
    | WrongLine(cause: AdvanceError) | NotReady | ToolFailed | Invalid

  predicate IdentifierChar(c: char) {
    IsDigit(c) || 'a' <= c <= 'z' || 'A' <= c <= 'Z' || c == '-'
  }

  /** Section 9 of Semantic Versioning 2.0.0, which `semver::Version` guarantees. */
  predicate ValidPre(pre: string) {
    pre != "" ==>
      forall id :: id in Split(pre, '.') ==>
        id != "" && (forall k :: 0 <= k < |id| ==> IdentifierChar(id[k])) && (AllDigits(id) ==> Canonical(id))
  }

  function ActivationVersion(current: Version, target: Version): Result<Version, VersionError> {
    if !current.Stable() then Err(CurrentNotStable)
    else if !target.Stable() then Err(TargetNotStable)
    else
      var selected := target.(pre := "rc.0");
      if !Less(current, selected) then Err(NotAdvancing) else Ok(selected)
  }

  function RequireRealReleaseVersion(version: Version): Result<(), VersionError> {
    if version.build != "" then Err(HasBuildMetadata)
    else if version.pre == "rc.0" then Err(CoordinationStub)
    else Ok(())
  }

  datatype Adjustment = FirstRelease | NextCandidate | StablePromotion | NewPrerelease | NextPatchCandidate

  predicate RealCandidate(pre: string) {
    var ordinal := StripPrefix(pre, "rc.");
    ordinal.Some? && ordinal.value != "" && ordinal.value != "0" && AllDigits(ordinal.value)
  }

  function NextCandidateText(pre: string): Option<string> {
    match StripPrefix(pre, "rc.")
    case None => None
    case Some(ordinal) =>
      match ParseU64(ordinal)
      case None => None
      case Some(n) =>
        if n == 0 || CheckedIncrement(n).None? then None else Some(CandidateText(CheckedIncrement(n).value))
  }

  predicate LessOrEqual(a: Version, b: Version) {
    a == b || Less(a, b)
  }

  function ExactVersionAdjustment(original: Version, derived: Version, selected: Version):
    Result<Adjustment, VersionError>
  {
    var sameCore := derived.SameCore(selected);
    if sameCore && original.pre == "rc.0" && derived == original && Less(original, selected)
       && (selected.pre == "" || RealCandidate(selected.pre)) then Ok(FirstRelease)
    else if sameCore && derived == original && NextCandidateText(original.pre) == Some(selected.pre)
    then Ok(NextCandidate)
    else if sameCore && original.pre != "" && selected.pre == "" && original.SameCore(selected)
            && derived.pre != "" && LessOrEqual(original, derived) && Less(derived, selected) then Ok(StablePromotion)
    else if sameCore && original.pre == "" && selected.pre != "" && derived.pre == ""
            && Less(original, selected) && Less(selected, derived) then Ok(NewPrerelease)
    else if original.Stable() && derived == original
            && selected.major == original.major && selected.minor == original.minor
            && CheckedIncrement(original.patch) == Some(selected.patch) && selected.pre == "rc.1"
            && selected.build == ""
    then Ok(NextPatchCandidate)
    else Err(UnsupportedAdjustment)
  }

  /** With differing cores or pre-releases, the total order is precedence. */
  lemma LessIsPrecedes(a: Version, b: Version)
    requires Less(a, b) && (!a.SameCore(b) || a.pre != b.pre)
    ensures Precedes(a, b)
  {
    PrecedenceSymmetry(a, b);
  }

  lemma OrdinalDigits(pre: string, ordinal: string)
    requires ValidPre(pre) && pre == "rc." + ordinal && ParseU64(ordinal).Some?
    ensures AllDigits(ordinal) && Split(pre, '.') == ["rc", ordinal] && ParseU64(ordinal) == Some(Value(ordinal))
  {
    assert pre == "rc" + ['.'] + ordinal;
    DigitsOrPlusAlone(ordinal);
    SplitAtFirst("rc", ordinal, '.');
    SplitSingle(ordinal, '.');
    var ids := Split(pre, '.');
    assert ids == ["rc", ordinal] && ids[1] in ids;
    assert IdentifierChar(ordinal[0]);
  }

  lemma DigitsOrPlusAlone(s: string)
    requires ParseU64(s).Some?
    ensures '.' !in s
  {
    assert AllDigits(if s[0] == '+' then s[1..] else s);
    assert s == [s[0]] + s[1..];
  }

  lemma NextCandidatePrecedes(a: Version, b: Version)
    requires ValidPre(a.pre) && a.SameCore(b) && NextCandidateText(a.pre) == Some(b.pre)
    ensures Precedes(a, b)
  {
    hide ValidPre, Split, Lexicographic;
    var ordinal := StripPrefix(a.pre, "rc.").value;
    OrdinalDigits(a.pre, ordinal);
    var n := Value(ordinal);
    CandidateIdentifiers(n + 1);
    PrintThenValue(n + 1);
    SecondIdentifierDecides("rc", ordinal, Print(n + 1));
  }

  /** Every accepted adjustment raises the version strictly in section 11 precedence. */
  lemma AdjustmentRises(original: Version, derived: Version, selected: Version)
    requires ValidPre(original.pre) && ExactVersionAdjustment(original, derived, selected).Ok?
    ensures Precedes(original, selected)
  {
    match ExactVersionAdjustment(original, derived, selected).value
    case FirstRelease =>
      assert selected.pre != "rc.0" by {
        assert "rc.0"[3..] == "0";
      }
      LessIsPrecedes(original, selected);
    case NextCandidate => NextCandidatePrecedes(original, selected);
    case StablePromotion =>
    case NewPrerelease => LessIsPrecedes(original, selected);
    case NextPatchCandidate =>
  }

  // Acceptance by version texts alone.

  lemma CandidateParts(n: nat)
    ensures StripPrefix("rc." + Print(n), "rc.") == Some(Print(n))
    ensures Print(n) == "0" <==> n == 0
    ensures ParseU64(Print(n)) == if n <= MAX_U64 then Some(n) else None
  {
    assert ("rc." + Print(n))[3..] == Print(n);
    PrintThenValue(n);
    assert IsDigit(Print(n)[0]);
  }

  lemma PrintInjective(m: nat, n: nat)
    ensures "rc." + Print(m) == "rc." + Print(n) <==> m == n
  {
    CandidateParts(m);
    CandidateParts(n);
    PrintThenValue(m);
    PrintThenValue(n);
  }

  lemma CandidateMeans(n: nat)
    ensures RealCandidate("rc." + Print(n)) <==> n > 0
    ensures NextCandidateText("rc." + Print(n)) == if 0 < n < MAX_U64 then Some("rc." + Print(n + 1)) else None
  {
    CandidateParts(n);
    var ordinal := StripPrefix("rc." + Print(n), "rc.");
    assert ordinal == Some(Print(n));
  }

  /** Every candidate of the stub's core is above the stub. */
  lemma StubIsLowest(stub: Version, selected: Version, m: nat)
    requires stub.pre == "rc." + Print(0) && selected.pre == "rc." + Print(m) && stub.SameCore(selected) && m > 0
    ensures Less(stub, selected)
  {
    hide Print;
    CandidatePrecedence(stub, selected, 0, m);
  }

  /** From candidate to candidate: the unchanged core's next ordinal, or any positive one from the stub. */
  lemma NextCandidateExactly(original: Version, derived: Version, selected: Version, n: nat, m: nat)
    requires original.pre == "rc." + Print(n) && selected.pre == "rc." + Print(m)
    ensures ExactVersionAdjustment(original, derived, selected).Ok? <==>
      && derived == original && selected.SameCore(original)
      && (if n == 0 then m > 0 else m == n + 1 && n + 1 <= MAX_U64)
  {
    hide Less, Print, RealCandidate, NextCandidateText;
    CandidateMeans(n);
    CandidateMeans(m);
    PrintInjective(m, n + 1);
    PrintInjective(n, 0);
    assert "rc." + Print(0) == "rc.0" by {
      CandidateParts(0);
    }
    if n == 0 && m > 0 && selected.SameCore(original) {
      StubIsLowest(original, selected, m);
    }
  }

  lemma CandidateDigits(pre: string)
    requires ValidPre(pre) && RealCandidate(pre)
    ensures pre == "rc." + Print(Value(pre[3..])) && Value(pre[3..]) > 0
  {
    var ordinal := pre[3..];
    assert pre == "rc" + ['.'] + ordinal;
    assert '.' !in ordinal;
    SplitAtFirst("rc", ordinal, '.');
    SplitSingle(ordinal, '.');
    assert Split(pre, '.')[1] == ordinal && ordinal in Split(pre, '.');
    ValueThenPrint(ordinal);
  }

  /** No other pre-release leads to a pre-release: both are candidates. */
  lemma OnlyCandidatesFollow(original: Version, derived: Version, selected: Version)
    requires ValidPre(original.pre) && ValidPre(selected.pre) && original.pre != "" && selected.pre != ""
    requires ExactVersionAdjustment(original, derived, selected).Ok?
    ensures exists n: nat, m: nat :: original.pre == "rc." + Print(n) && selected.pre == "rc." + Print(m)
  {
    if original.pre == "rc.0" {
      assert original.pre == "rc." + Print(0);
      CandidateDigits(selected.pre);
    } else {
      var ordinal := StripPrefix(original.pre, "rc.").value;
      OrdinalDigits(original.pre, ordinal);
      assert ordinal in Split(original.pre, '.');
      ValueThenPrint(ordinal);
      var n := Value(ordinal);
      assert original.pre == "rc." + Print(n) && selected.pre == "rc." + Print(n + 1);
    }
  }

  /** From a pre-release to a stable version: its own core's, through a derived pre-release that did not fall back. */
  lemma PromotionExactly(original: Version, derived: Version, selected: Version)
    requires original.pre != "" && selected.pre == ""
    ensures ExactVersionAdjustment(original, derived, selected).Ok? <==>
      && original.SameCore(selected) && derived.SameCore(selected) && derived.pre != ""
      && !Less(derived, original)
  {
    hide Compare;
    OrderSymmetry(original, derived);
    OrderSymmetry(original, selected);
    OrderIs(original, selected);
    OrderIs(derived, selected);
    PrecedenceIs(original, selected);
    PrecedenceIs(derived, selected);
  }

  /**
   From a stable version to a pre-release: of the stable version derived above it, or the first
   candidate of the very next patch when nothing was derived.
   */
  lemma PrereleaseExactly(original: Version, derived: Version, selected: Version)
    requires original.pre == ""
    ensures ExactVersionAdjustment(original, derived, selected).Ok? <==>
      && selected.pre != "" && derived.pre == ""
      && ((derived.SameCore(selected) && CoreBelow(original, selected))
          || (derived == original && original.build == "" && selected.build == "" && selected.pre == "rc.1"
              && selected.major == original.major && selected.minor == original.minor
              && selected.patch == original.patch + 1))
  {
    hide Compare;
    OrderIs(original, selected);
    OrderIs(selected, derived);
    PrecedenceIs(original, selected);
    PrecedenceIs(selected, derived);
  }

  /** An activation is accepted exactly from a stable version to one whose core is above. */
  lemma ActivationExactly(current: Version, target: Version)
    ensures ActivationVersion(current, target) ==
      if !current.Stable() then Err(CurrentNotStable)
      else if !target.Stable() then Err(TargetNotStable)
      else if CoreBelow(current, target) then Ok(target.(pre := "rc.0"))
      else Err(NotAdvancing)
  {
    hide Compare;
    var stub := target.(pre := "rc.0");
    OrderIs(current, stub);
    PrecedenceIs(current, stub);
  }

  // The workspace.

  /** The committed version, after one step that either succeeds or is abandoned. */
  datatype Step =
    | Activate(target: Version)
    | Prepare(line: ReleaseLine, selected: Version, derived: Version, tags: seq<Version>)

  /** The version `prepare` leaves for review: the selected one, reached directly or by an adjustment. */
  function Prepared(
    current: Version, line: ReleaseLine, selected: Version, derived: Version, tags: seq<Version>):
    Result<Version, VersionError>
  {
    if RequireAdvancement(line, selected, tags).Err? then Err(WrongLine(RequireAdvancement(line, selected, tags).error))
    else
      var _ :- RequireRealReleaseVersion(selected);
      if !Less(current, selected) then Err(NotAdvancing)
      else if derived == selected then Ok(selected)
      else
        var _ :- ExactVersionAdjustment(current, derived, selected);
        Ok(selected)
  }

  /**
   On a support line a preparation is accepted exactly when the selected version follows the last
   one published on the line, is above the workspace's, and is derived or a supported adjustment.
   */
  lemma SupportPreparation(
    current: Version, line: ReleaseLine, selected: Version, derived: Version, history: seq<Version>,
    tags: seq<Version>)
    requires Chain(line, history) && SameOnLine(line, tags, history)
    ensures Prepared(current, line, selected, derived, tags).Ok? <==>
      && Successor(line, Last(history), selected) && Less(current, selected)
      && (derived == selected || ExactVersionAdjustment(current, derived, selected).Ok?)
  {
    hide RequireAdvancement, ExactVersionAdjustment, Less, SameOnLine, Print;
    AdvanceIsSuccessor(line, history, tags, selected);
    if Successor(line, Last(history), selected) && selected.pre != "" {
      SuccessorIsRelease(line, Last(history), selected);
    }
  }

  /** A successor is never a coordination stub. */
  lemma SuccessorIsRelease(line: ReleaseLine, previous: Version, selected: Version)
    requires Successor(line, previous, selected)
    ensures selected.pre != "rc.0"
  {
    hide Print;
    CandidateParts(0);
    if selected.pre != "" && previous.pre == "" {
      var n :| IsCandidate(selected, n);
      PrintInjective(n, 0);
    } else if selected.pre != "" {
      var n :| IsCandidate(previous, n) && IsCandidate(selected, n + 1);
      PrintInjective(n + 1, 0);
    }
  }

  function Outcome(current: Version, step: Step): Result<Version, VersionError> {
    match step
    case Activate(target) => ActivationVersion(current, target)
    case Prepare(line, selected, derived, tags) => Prepared(current, line, selected, derived, tags)
  }

  /** The committed versions of a run, starting with the initial one; abandoned steps add none. */
  function Versions(current: Version, steps: seq<Step>): (versions: seq<Version>)
    ensures |versions| > 0 && versions[0] == current
    decreases |steps|
  {
    if steps == [] then [current]
    else if Outcome(current, steps[0]).Err? then Versions(current, steps[1..])
    else [current] + Versions(Outcome(current, steps[0]).value, steps[1..])
  }

  lemma OutcomeRises(current: Version, step: Step)
    requires current.build == "" && Outcome(current, step).Ok?
    ensures Precedes(current, Outcome(current, step).value) && Outcome(current, step).value.build == ""
  {
    var next := Outcome(current, step).value;
    OrderSymmetry(current, next);
    LessIsPrecedes(current, next);
  }

  /** Every run of activations and preparations raises the workspace version strictly in precedence. */
  lemma {:induction false} RunRises(current: Version, steps: seq<Step>, i: nat, j: nat)
    requires current.build == "" && i < j < |Versions(current, steps)|
    ensures Precedes(Versions(current, steps)[i], Versions(current, steps)[j])
    decreases |steps|
  {
    var versions := Versions(current, steps);
    var outcome := Outcome(current, steps[0]);
    if outcome.Err? {
      RunRises(current, steps[1..], i, j);
    } else {
      OutcomeRises(current, steps[0]);
      var rest := Versions(outcome.value, steps[1..]);
      assert versions == [current] + rest;
      if i > 0 {
        RunRises(outcome.value, steps[1..], i - 1, j - 1);
      } else if j > 1 {
        RunRises(outcome.value, steps[1..], 0, j - 1);
        PrecedenceTransitive(current, outcome.value, versions[j]);
      }
    }
  }

  /** A preparation never yields a coordination stub, and an activation always does. */
  lemma StubsComeFromActivation(current: Version, step: Step)
    requires Outcome(current, step).Ok?
    ensures step.Activate? <==> Outcome(current, step).value.pre == "rc.0"
    ensures step.Activate? ==> current.pre == ""
  {
  }

  /** An activated line can be released directly: its target is a supported first release. */
  lemma ActivatedLineReleases(current: Version, target: Version)
    requires ActivationVersion(current, target).Ok?
    ensures var stub := ActivationVersion(current, target).value;
      Prepared(stub, Main, target, stub, []) == Ok(target)
  {
  }
}
