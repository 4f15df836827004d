/** Advancement of a support line against the versions already published on it. */
module SupportLine {
  import opened Wrappers
  import opened Sequences
  import opened Decimal
  import opened SemVer
  import opened ReleasePolicy

  datatype AdvanceError =
    | OutsideLine | BuildMetadata | NoStableBaseline | NotNextPatch | AlreadyPublished
    | NotACandidate | InvalidOrdinal | NoncanonicalOrdinal | SkippedOrdinal

  function Filter(versions: seq<Version>, keep: Version -> bool): (kept: seq<Version>)
    ensures forall v :: v in kept <==> v in versions && keep(v)
    ensures (forall v :: v in versions ==> !keep(v)) ==> kept == []
  {
    if versions == [] then []
    else if keep(versions[0]) then [versions[0]] + Filter(versions[1..], keep)
    else Filter(versions[1..], keep)
  }

  function Stables(line: ReleaseLine, published: seq<Version>): seq<Version> {
    Filter(published, v => line.Admits(v) && v.pre == "" && v.build == "")
  }

  function OfPatch(line: ReleaseLine, published: seq<Version>, patch: u64): seq<Version> {
    Filter(published, v => line.Admits(v) && v.patch == patch)
  }

  function Ordinal(v: Version): Result<u64, AdvanceError> {
    match StripPrefix(v.pre, "rc.")
    case None => Err(NotACandidate)
    case Some(value) =>
      match ParseU64(value)
      case None => Err(InvalidOrdinal)
      case Some(n) => if n == 0 || Print(n) != value then Err(NoncanonicalOrdinal) else Ok(n)
  }

  function RequireAdvancement(
    line: ReleaseLine, selected: Version, published: seq<Version>): Result<(), AdvanceError>
  {
    if !line.Admits(selected) then Err(OutsideLine)
    else if line.Main? then Ok(())
    else if selected.build != "" then Err(BuildMetadata)
    else
      var stables := Stables(line, published);
      if stables == [] then Err(NoStableBaseline)
      else if CheckedIncrement(Max(stables).patch) != Some(selected.patch) then Err(NotNextPatch)
      else if selected in published then Err(AlreadyPublished)
      else if selected.pre == "" then Ok(())
      else
        var next :- Ordinal(selected);
        var candidates := OfPatch(line, published, selected.patch);
        if candidates == [] then Ok(())
        else
          var last :- Ordinal(Max(candidates));
          if CheckedIncrement(last) != Some(next) then Err(SkippedOrdinal) else Ok(())
  }

  // The intended progression, one release at a time.

  function Last(history: seq<Version>): Version
    requires history != []
  {
    history[|history| - 1]
  }

  predicate IsCandidate(v: Version, n: int) {
    0 < n <= MAX_U64 && v.pre == CandidateText(n)
  }

  lemma OrdinalOfCandidate(v: Version, n: u64)
    ensures Ordinal(v) == Ok(n) <==> IsCandidate(v, n)
  {
    if IsCandidate(v, n) {
      ParsePrinted(n);
      assert v.pre[3..] == Print(n);
    }
  }

  /** A stable release opens the next patch; a candidate leads to the next ordinal or to its stable. */
  ghost predicate Successor(line: ReleaseLine, previous: Version, next: Version) {
    && line.Admits(next)
    && next.build == ""
    && (if previous.pre == ""
        then next.patch == previous.patch + 1 && (next.pre == "" || exists n :: IsCandidate(next, n))
        else next.patch == previous.patch
             && (next.pre == "" || exists n :: IsCandidate(previous, n) && IsCandidate(next, n + 1)))
  }

  ghost predicate Baseline(line: ReleaseLine, v: Version) {
    line.Support? && line.Admits(v) && v.Stable()
  }

  /** Each release of the history follows its predecessor. */
  ghost predicate Chain(line: ReleaseLine, history: seq<Version>) {
    && history != []
    && Baseline(line, history[0])
    && forall k :: 1 <= k < |history| ==> Successor(line, history[k - 1], history[k])
  }

  /** Both listings hold the same versions of the line. */
  ghost predicate SameOnLine(line: ReleaseLine, published: seq<Version>, other: seq<Version>) {
    forall v :: line.Admits(v) ==> (v in published <==> v in other)
  }

  /** The line's own releases among those of all lines, in order of publication. */
  function OnLine(line: ReleaseLine, published: seq<Version>): (own: seq<Version>)
    ensures SameOnLine(line, own, published)
    ensures forall v :: v in own ==> line.Admits(v)
  {
    Filter(published, v => line.Admits(v))
  }

  /** Each release of the line, after its baseline, was accepted against everything published before it. */
  ghost predicate Accepted(line: ReleaseLine, published: seq<Version>)
    decreases |published|
  {
    && published != []
    && var before := published[..|published| - 1];
    if !line.Admits(Last(published)) then Accepted(line, before)
    else if OnLine(line, before) == [] then Baseline(line, Last(published))
    else Accepted(line, before) && RequireAdvancement(line, Last(published), before).Ok?
  }

  lemma ChainPrefix(line: ReleaseLine, history: seq<Version>, n: nat)
    requires Chain(line, history) && 0 < n <= |history|
    ensures Chain(line, history[..n])
  {
  }

  /** Members of a chain are stable versions or candidates of the line. */
  lemma {:induction false} ChainMember(line: ReleaseLine, history: seq<Version>, k: nat)
    requires Chain(line, history) && k < |history|
    ensures line.Admits(history[k]) && history[k].build == ""
    ensures history[k].pre == "" || exists n :: IsCandidate(history[k], n)
  {
    if k > 0 {
      assert Successor(line, history[k - 1], history[k]);
      if history[k - 1].pre != "" && history[k].pre != "" {
        var n :| IsCandidate(history[k - 1], n) && IsCandidate(history[k], n + 1);
      }
    }
  }

  lemma SuccessorPrecedes(line: ReleaseLine, previous: Version, next: Version)
    requires line.Support? && line.Admits(previous) && Successor(line, previous, next)
    ensures Precedes(previous, next)
  {
    if previous.pre != "" && next.pre != "" {
      var n :| IsCandidate(previous, n) && IsCandidate(next, n + 1);
      CandidatePrecedence(previous, next, n, n + 1);
    }
  }

  /** Chains rise strictly in precedence. */
  lemma {:induction false} ChainIncreases(line: ReleaseLine, history: seq<Version>, i: nat, j: nat)
    requires Chain(line, history) && i < j < |history|
    ensures Precedes(history[i], history[j])
    decreases j
  {
    assert Successor(line, history[j - 1], history[j]);
    ChainMember(line, history, j - 1);
    SuccessorPrecedes(line, history[j - 1], history[j]);
    if i < j - 1 {
      ChainIncreases(line, history, i, j - 1);
      PrecedenceTransitive(history[i], history[j - 1], history[j]);
    }
  }

  /** The position of the last stable release: the end of a chain, or where its open candidates start. */
  lemma {:induction false} LastStable(line: ReleaseLine, history: seq<Version>) returns (s: nat)
    requires Chain(line, history)
    ensures s < |history| && history[s].Stable() && line.Admits(history[s])
    ensures forall k :: s < k < |history| ==> history[k].pre != "" && history[k].patch == history[s].patch + 1
  {
    var n := |history| - 1;
    ChainMember(line, history, n);
    if history[n].pre == "" {
      return n;
    }
    ChainPrefix(line, history, n);
    s := LastStable(line, history[..n]);
    assert Successor(line, history[n - 1], history[n]);
  }

  lemma LessOfPrecedes(a: Version, b: Version)
    requires Precedes(a, b)
    ensures Less(a, b) && !Less(b, a) && a != b
  {
    PrecedenceSymmetry(a, b);
    OrderSymmetry(a, b);
  }

  /** When every other element precedes `top`, `max` is `top`. */
  lemma MaxIs(versions: seq<Version>, top: Version)
    requires top in versions
    requires forall v :: v in versions && v != top ==> Precedes(v, top)
    ensures Max(versions) == top
  {
    MaxIsGreatest(versions, top);
    if Max(versions) != top {
      LessOfPrecedes(Max(versions), top);
    }
  }

  lemma StableMax(line: ReleaseLine, history: seq<Version>, s: nat)
    requires Chain(line, history) && s < |history| && history[s].Stable() && line.Admits(history[s])
    requires forall k :: s < k < |history| ==> history[k].pre != ""
    ensures Max(Stables(line, history)) == history[s]
  {
    var stables := Stables(line, history);
    assert history[s] in stables;
    forall v | v in stables && v != history[s]
      ensures Precedes(v, history[s])
    {
      var k :| 0 <= k < |history| && history[k] == v;
      ChainIncreases(line, history, k, s);
    }
    MaxIs(stables, history[s]);
  }

  /** The open candidates end the chain, so the newest one is their maximum. */
  lemma CandidateMax(line: ReleaseLine, history: seq<Version>, patch: u64)
    requires Chain(line, history) && Last(history).patch == patch
    ensures var same := OfPatch(line, history, patch);
      same != [] && Max(same) == Last(history)
  {
    hide Max, Filter, Precedence;
    var n := |history| - 1;
    var same := OfPatch(line, history, patch);
    ChainMember(line, history, n);
    assert history[n] in same;
    forall v | v in same && v != history[n]
      ensures Precedes(v, history[n])
    {
      var k :| 0 <= k < |history| && history[k] == v;
      ChainIncreases(line, history, k, n);
    }
    MaxIs(same, history[n]);
  }

  lemma PatchBound(line: ReleaseLine, history: seq<Version>, k: nat)
    requires Chain(line, history) && k < |history|
    ensures history[k].patch <= Last(history).patch
  {
    var n := |history| - 1;
    ChainMember(line, history, k);
    ChainMember(line, history, n);
    if k < n {
      ChainIncreases(line, history, k, n);
    }
  }

  /** Nothing new is already published. */
  lemma SuccessorIsNew(line: ReleaseLine, history: seq<Version>, selected: Version)
    requires Chain(line, history) && Successor(line, Last(history), selected)
    ensures selected !in history
  {
    var extended := history + [selected];
    assert forall k :: 1 <= k < |extended| ==> Successor(line, extended[k - 1], extended[k]);
    forall k | 0 <= k < |history|
      ensures history[k] != selected
    {
      ChainIncreases(line, extended, k, |history|);
      LessOfPrecedes(extended[k], extended[|history|]);
    }
  }

  /** What the published history answers, once its last release is stable. */
  lemma AdvanceFromStable(line: ReleaseLine, history: seq<Version>, selected: Version)
    requires Chain(line, history) && Last(history).pre == ""
    ensures RequireAdvancement(line, selected, history).Ok? <==> Successor(line, Last(history), selected)
  {
    var last := Last(history);
    ChainMember(line, history, |history| - 1);
    StableMax(line, history, |history| - 1);
    var candidates := OfPatch(line, history, selected.patch);
    if line.Admits(selected) && selected.patch == last.patch + 1 {
      forall v | v in history
        ensures v.patch != selected.patch
      {
        var k :| 0 <= k < |history| && history[k] == v;
        PatchBound(line, history, k);
      }
      OrdinalMeans(selected);
    }
  }

  lemma OrdinalMeans(v: Version)
    ensures Ordinal(v).Ok? <==> exists n :: IsCandidate(v, n)
    ensures Ordinal(v).Ok? ==> IsCandidate(v, Ordinal(v).value)
  {
    if Ordinal(v).Ok? {
      OrdinalOfCandidate(v, Ordinal(v).value);
    }
    forall n | IsCandidate(v, n)
      ensures Ordinal(v).Ok?
    {
      OrdinalOfCandidate(v, n);
    }
  }

  /** What the published history answers while candidates of the next patch are open. */
  lemma CandidateAnswers(line: ReleaseLine, history: seq<Version>, selected: Version, n: u64)
    requires Chain(line, history) && IsCandidate(Last(history), n)
    requires line.Admits(selected) && selected.patch == Last(history).patch && selected.build == ""
    requires selected !in history
    ensures RequireAdvancement(line, selected, history).Ok? <==>
      selected.pre == "" || (Ordinal(selected).Ok? && Ordinal(selected).value == n + 1)
  {
    hide Max, Filter, Precedence, Ordinal;
    var s := LastStable(line, history);
    StableMax(line, history, s);
    CandidateMax(line, history, Last(history).patch);
    OrdinalOfCandidate(Last(history), n);
  }

  lemma CandidateSuccessor(line: ReleaseLine, last: Version, selected: Version, n: u64)
    requires IsCandidate(last, n)
    requires line.Admits(selected) && selected.patch == last.patch && selected.build == ""
    ensures Successor(line, last, selected) <==>
      selected.pre == "" || (Ordinal(selected).Ok? && Ordinal(selected).value == n + 1)
  {
    OrdinalMeans(selected);
    if Successor(line, last, selected) && selected.pre != "" {
      var m :| IsCandidate(last, m) && IsCandidate(selected, m + 1);
      OrdinalOfCandidate(last, m);
      OrdinalOfCandidate(last, n);
      OrdinalOfCandidate(selected, m + 1);
    }
  }

  lemma CandidateNextPatch(line: ReleaseLine, history: seq<Version>, selected: Version)
    requires Chain(line, history) && Last(history).pre != "" && RequireAdvancement(line, selected, history).Ok?
    ensures selected.patch == Last(history).patch && selected !in history && selected.build == ""
  {
    hide Max, Filter, Precedence, Ordinal;
    var s := LastStable(line, history);
    StableMax(line, history, s);
  }

  lemma AdvanceFromCandidate(line: ReleaseLine, history: seq<Version>, selected: Version)
    requires Chain(line, history) && Last(history).pre != ""
    ensures RequireAdvancement(line, selected, history).Ok? <==> Successor(line, Last(history), selected)
  {
    ChainMember(line, history, |history| - 1);
    var n :| IsCandidate(Last(history), n);
    if RequireAdvancement(line, selected, history).Ok? {
      CandidateNextPatch(line, history, selected);
      CandidateAnswers(line, history, selected, n);
      CandidateSuccessor(line, Last(history), selected, n);
    } else if Successor(line, Last(history), selected) {
      SuccessorIsNew(line, history, selected);
      CandidateAnswers(line, history, selected, n);
      CandidateSuccessor(line, Last(history), selected, n);
    }
  }

  lemma AdvanceInChain(line: ReleaseLine, history: seq<Version>, selected: Version)
    requires Chain(line, history)
    ensures RequireAdvancement(line, selected, history).Ok? <==> Successor(line, Last(history), selected)
  {
    if Last(history).pre == "" {
      if Successor(line, Last(history), selected) {
        SuccessorIsNew(line, history, selected);
      }
      AdvanceFromStable(line, history, selected);
    } else {
      AdvanceFromCandidate(line, history, selected);
    }
  }

  // Other lines' releases, listed in any order.

  lemma SameMax(versions: seq<Version>, other: seq<Version>)
    requires versions != [] && other != [] && forall v :: v in versions <==> v in other
    ensures Max(versions) == Max(other)
  {
    MaxIsGreatest(versions, Max(other));
    MaxIsGreatest(other, Max(versions));
    OrderSymmetry(Max(versions), Max(other));
  }

  lemma SameFiltered(versions: seq<Version>, other: seq<Version>)
    requires forall v :: v in versions <==> v in other
    ensures versions == [] <==> other == []
    ensures versions != [] ==> Max(versions) == Max(other)
  {
    assert versions != [] ==> versions[0] in other;
    assert other != [] ==> other[0] in versions;
    if versions != [] {
      SameMax(versions, other);
    }
  }

  /** Only the versions of the line count, in whatever order and beside whatever else they are listed. */
  lemma OnlyOwnLineCounts(line: ReleaseLine, selected: Version, published: seq<Version>, other: seq<Version>)
    requires SameOnLine(line, published, other)
    ensures RequireAdvancement(line, selected, published) == RequireAdvancement(line, selected, other)
  {
    hide Max, Filter, Ordinal;
    SameFiltered(Stables(line, published), Stables(line, other));
    SameFiltered(OfPatch(line, published, selected.patch), OfPatch(line, other, selected.patch));
  }

  /**
   The history-wide check accepts exactly the successors of the line's last release, whatever
   other lines have published and in whatever order the tags are listed.
   */
  lemma AdvanceIsSuccessor(line: ReleaseLine, history: seq<Version>, published: seq<Version>, selected: Version)
    requires Chain(line, history) && SameOnLine(line, published, history)
    ensures RequireAdvancement(line, selected, published).Ok? <==> Successor(line, Last(history), selected)
  {
    OnlyOwnLineCounts(line, selected, published, history);
    AdvanceInChain(line, history, selected);
  }

  lemma ChainStep(line: ReleaseLine, history: seq<Version>, n: nat)
    requires |history| == n + 1 && n > 0
    ensures Chain(line, history) <==>
      Chain(line, history[..n]) && Successor(line, Last(history[..n]), history[n])
  {
    if Chain(line, history[..n]) && Successor(line, Last(history[..n]), history[n]) {
      forall k | 1 <= k < |history|
        ensures Successor(line, history[k - 1], history[k])
      {
        if k < n {
          assert Successor(line, history[..n][k - 1], history[..n][k]);
        }
      }
    }
  }

  lemma {:induction false} FilterSnoc(versions: seq<Version>, v: Version, keep: Version -> bool)
    ensures Filter(versions + [v], keep) == Filter(versions, keep) + if keep(v) then [v] else []
  {
    if versions == [] {
      assert [v][1..] == [];
    } else {
      assert (versions + [v])[1..] == versions[1..] + [v];
      FilterSnoc(versions[1..], v, keep);
    }
  }

  lemma OnLineGrows(line: ReleaseLine, published: seq<Version>, n: nat)
    requires |published| == n + 1
    ensures OnLine(line, published)
      == OnLine(line, published[..n]) + if line.Admits(published[n]) then [published[n]] else []
  {
    assert published == published[..n] + [published[n]];
    FilterSnoc(published[..n], published[n], v => line.Admits(v));
  }

  /**
   From one stable baseline, and with any releases of other lines in between, the accepted
   histories are exactly those whose own releases form a chain.
   */
  lemma {:induction false} AcceptedHistories(line: ReleaseLine, published: seq<Version>)
    ensures Accepted(line, published) <==> Chain(line, OnLine(line, published))
    decreases |published|
  {
    hide Filter;
    if published != [] {
      var n := |published| - 1;
      var before, own := published[..n], OnLine(line, published[..n]);
      OnLineGrows(line, published, n);
      AcceptedHistories(line, before);
      if !line.Admits(published[n]) {
        assert OnLine(line, published) == own;
      } else if own == [] {
        assert OnLine(line, published) == [published[n]];
      } else {
        ChainStep(line, own + [published[n]], |own|);
        assert (own + [published[n]])[..|own|] == own;
        if Chain(line, own) {
          AdvanceIsSuccessor(line, own, before, published[n]);
        }
      }
    }
  }

  /** Every accepted sequence of support releases rises strictly in section 11 precedence. */
  lemma AcceptedIncreases(line: ReleaseLine, published: seq<Version>, i: nat, j: nat)
    requires Accepted(line, published) && i < j < |OnLine(line, published)|
    ensures Precedes(OnLine(line, published)[i], OnLine(line, published)[j])
  {
    AcceptedHistories(line, published);
    ChainIncreases(line, OnLine(line, published), i, j);
  }

  /** From every accepted history the next stable patch is accepted, short of patch overflow. */
  lemma NextStableReachable(line: ReleaseLine, published: seq<Version>)
    requires Accepted(line, published)
    ensures OnLine(line, published) != []
    ensures var last := Last(OnLine(line, published));
      && (last.pre != "" ==> RequireAdvancement(line, last.(pre := ""), published).Ok?)
      && (last.pre == "" && last.patch < MAX_U64 ==>
            RequireAdvancement(line, last.(patch := last.patch + 1), published).Ok?)
      && (last.pre == "" && last.patch == MAX_U64 ==>
            forall v :: !RequireAdvancement(line, v, published).Ok?)
  {
    hide Filter, RequireAdvancement;
    AcceptedHistories(line, published);
    var own := OnLine(line, published);
    var last := Last(own);
    ChainMember(line, own, |own| - 1);
    if last.pre != "" {
      AdvanceIsSuccessor(line, own, published, last.(pre := ""));
    } else if last.patch < MAX_U64 {
      AdvanceIsSuccessor(line, own, published, last.(patch := last.patch + 1));
    } else {
      forall v
        ensures !RequireAdvancement(line, v, published).Ok?
      {
        AdvanceIsSuccessor(line, own, published, v);
      }
    }
  }
}
