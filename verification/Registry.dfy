/** Which registry states authorize publication and finalization. */
module Registry {
  import opened Wrappers
  import opened ReleasePolicy
  import opened Forge
  import opened Finalization

  datatype Operation = Auto | Release | Validate | Recover

  /** Automatic publication is for main alone, a dispatched release for support bases alone. */
  predicate Fits(operation: Operation, line: ReleaseLine) {
    (operation.Auto? ==> line.Main?) && (operation.Release? ==> line.Support?)
  }

  datatype Decision = Decision(publish: bool, finalize: bool)

  datatype DecisionError =
    | WrongFamily | NotAPrefix | AlreadyPublished | NeedsRecovery | NothingPublished | Unconfirmed

  function Count(states: seq<bool>): (n: nat)
    ensures n <= |states|
  {
    if states == [] then 0 else Count(states[..|states| - 1]) + if states[|states| - 1] then 1 else 0
  }

  /** Published crates are exactly the first ones in dependency order. */
  predicate IsPrefix(states: seq<bool>) {
    forall k :: 0 <= k < |states| ==> (states[k] <==> k < Count(states))
  }

  /** The verdict for a family of `n`, of which the first `k` are published. */
  function Verdict(operation: Operation, k: nat, n: nat): Result<Decision, DecisionError> {
    match operation
    case Validate => Ok(Decision(false, false))
    case Auto => if k == 0 then Ok(Decision(true, true))
      else if k == n then Ok(Decision(false, false)) else Err(NeedsRecovery)
    case Release => if k == 0 then Ok(Decision(true, true))
      else if k == n then Err(AlreadyPublished) else Err(NeedsRecovery)
    case Recover => if k == 0 then Err(NothingPublished) else Ok(Decision(k != n, true))
  }

  function DecisionFor(operation: Operation, states: seq<bool>, n: nat): Result<Decision, DecisionError> {
    if |states| != n then Err(WrongFamily)
    else if operation.Validate? then Ok(Decision(false, false))
    else if !IsPrefix(states) then Err(NotAPrefix)
    else Verdict(operation, Count(states), n)
  }

  lemma {:induction false} CountPrefix(states: seq<bool>, k: nat)
    requires k <= |states| && forall i :: 0 <= i < |states| ==> (states[i] <==> i < k)
    ensures Count(states) == k
  {
    if states != [] {
      var n := |states| - 1;
      CountPrefix(states[..n], if k <= n then k else n);
    }
  }

  /** A gap before a published crate is what breaks the prefix. */
  lemma {:induction false} PrefixOrGap(states: seq<bool>)
    ensures IsPrefix(states) <==> forall i, j :: 0 <= i < j < |states| && states[j] ==> states[i]
  {
    if forall i, j :: 0 <= i < j < |states| && states[j] ==> states[i] {
      var k := 0;
      while k < |states| && states[k]
        invariant k <= |states| && forall i :: 0 <= i < k ==> states[i]
      {
        k := k + 1;
      }
      CountPrefix(states, k);
    }
  }

  /**
   Publication is permitted only while some crate is missing, from none for a fresh release and
   from some for a recovery; finalization alone only to a recovery of the complete family.
   */
  lemma PermitsFit(operation: Operation, states: seq<bool>, n: nat)
    requires n > 0 && DecisionFor(operation, states, n).Ok?
    ensures var d := DecisionFor(operation, states, n).value;
      && (d.publish ==> d.finalize && IsPrefix(states) && !states[n - 1] && (states[0] <==> operation.Recover?))
      && (d.finalize && !d.publish ==> operation.Recover? && AllPublished(states))
  {
    if !operation.Validate? {
      assert states[0] <==> 0 < Count(states);
      assert states[n - 1] <==> n - 1 < Count(states);
    }
  }

  /** Exactly the first `p` crates are published. */
  ghost predicate FirstPublished(states: seq<bool>, p: nat) {
    forall i :: 0 <= i < |states| ==> (states[i] <==> i < p)
  }

  ghost predicate NonePublished(states: seq<bool>) {
    forall i :: 0 <= i < |states| ==> !states[i]
  }

  ghost predicate Interrupted(states: seq<bool>) {
    exists p: nat :: 0 < p < |states| && FirstPublished(states, p)
  }

  lemma FirstCounted(states: seq<bool>, p: nat)
    requires p <= |states| && FirstPublished(states, p)
    ensures IsPrefix(states) && Count(states) == p
  {
    hide Count;
    CountPrefix(states, p);
  }

  /** The first and the last state tell none, some and all apart. */
  lemma Counted(states: seq<bool>)
    requires IsPrefix(states) && states != []
    ensures NonePublished(states) <==> Count(states) == 0
    ensures AllPublished(states) <==> Count(states) == |states|
    ensures Interrupted(states) <==> 0 < Count(states) < |states|
  {
    hide Count;
    assert states[0] <==> 0 < Count(states);
    assert states[|states| - 1] <==> |states| - 1 < Count(states);
    assert FirstPublished(states, Count(states));
    if Interrupted(states) {
      var p: nat :| 0 < p < |states| && FirstPublished(states, p);
      FirstCounted(states, p);
    }
  }

  lemma NotInOrder(states: seq<bool>)
    requires !IsPrefix(states)
    ensures !NonePublished(states) && !AllPublished(states) && !Interrupted(states)
  {
    hide Count, IsPrefix;
    if NonePublished(states) {
      FirstCounted(states, 0);
    } else if AllPublished(states) {
      FirstCounted(states, |states|);
    } else if Interrupted(states) {
      var p: nat :| 0 < p < |states| && FirstPublished(states, p);
      FirstCounted(states, p);
    }
  }

  /**
   The whole table, from the states alone: a fresh publication from none, nothing automatic and
   no fresh release once some are out, and a recovery that finalizes exactly when some crate is
   published and publishes exactly when one is also missing.
   */
  lemma DecisionTable(operation: Operation, states: seq<bool>, n: nat)
    requires n > 0
    ensures DecisionFor(operation, states, n) ==
      if |states| != n then Err(WrongFamily)
      else if operation.Validate? then Ok(Decision(false, false))
      else if NonePublished(states) then
        if operation.Recover? then Err(NothingPublished) else Ok(Decision(true, true))
      else if Interrupted(states) then
        if operation.Recover? then Ok(Decision(true, true)) else Err(NeedsRecovery)
      else if AllPublished(states) then
        match operation
        case Auto => Ok(Decision(false, false))
        case Release => Err(AlreadyPublished)
        case Recover => Ok(Decision(false, true))
        case Validate => Ok(Decision(false, false))
      else Err(NotAPrefix)
  {
    hide IsPrefix, Count, NonePublished, Interrupted, AllPublished;
    if |states| == n {
      if IsPrefix(states) {
        Counted(states);
      } else {
        NotInOrder(states);
      }
    }
  }

  method Decide(operation: Operation, states: seq<bool>, n: nat) returns (r: Result<Decision, DecisionError>)
    ensures r == DecisionFor(operation, states, n)
  {
    if |states| != n {
      return Err(WrongFamily);
    }
    if operation.Validate? {
      return Ok(Decision(false, false));
    }
    PrefixOrGap(states);
    var missingSeen := false;
    for k := 0 to |states|
      invariant missingSeen <==> exists i :: 0 <= i < k && !states[i]
      invariant forall i, j :: 0 <= i < j < k && states[j] ==> states[i]
    {
      if !states[k] {
        missingSeen := true;
      } else if missingSeen {
        return Err(NotAPrefix);
      }
    }
    var published := 0;
    for k := 0 to |states|
      invariant published == Count(states[..k])
    {
      assert states[..k + 1][..k] == states[..k];
      if states[k] {
        published := published + 1;
      }
    }
    assert states[..|states|] == states;
    match operation
    case Validate => return Ok(Decision(false, false));
    case Auto =>
      return if published == 0 then Ok(Decision(true, true))
        else if published == |states| then Ok(Decision(false, false)) else Err(NeedsRecovery);
    case Release =>
      return if published == 0 then Ok(Decision(true, true))
        else if published == |states| then Err(AlreadyPublished) else Err(NeedsRecovery);
    case Recover =>
      return if published == 0 then Err(NothingPublished) else Ok(Decision(published != |states|, true));
  }

  /** Confirmation authorizes nothing: it only accepts the complete family. */
  function RegistryDecision(
    operation: Operation, states: seq<bool>, confirmation: bool, n: nat): Result<Decision, DecisionError>
  {
    if !confirmation then DecisionFor(operation, states, n)
    else if |states| != n || !AllPublished(states) then Err(Unconfirmed)
    else Ok(Decision(false, false))
  }

  /** The operation of a fresh publication on a line. */
  function Fresh(line: ReleaseLine): Operation {
    if line.Main? then Auto else Operation.Release
  }

  /**
   Who may do what: a fresh publication is for the line's own operation over an untouched family,
   the rest of one for a recovery, and confirmation and validation may do nothing.
   */
  lemma GrantsExactly(operation: Operation, line: ReleaseLine, states: seq<bool>, confirmation: bool, n: nat)
    requires n > 0
    ensures var decision := RegistryDecision(operation, states, confirmation, n);
      var granted := if Fits(operation, line) && decision.Ok? then decision.value else Decision(false, false);
      var publishes := && |states| == n && !confirmation
        && ((NonePublished(states) && operation == Fresh(line)) || (Interrupted(states) && operation.Recover?));
      && (granted.publish <==> publishes)
      && (granted.finalize <==>
            publishes || (|states| == n && !confirmation && AllPublished(states) && operation.Recover?))
  {
    hide IsPrefix, Count, NonePublished, Interrupted, AllPublished;
    DecisionTable(operation, states, n);
    if |states| == n {
      OneOrTheOther(states);
    }
  }

  lemma OneOrTheOther(states: seq<bool>)
    requires states != []
    ensures !(NonePublished(states) && AllPublished(states))
    ensures Interrupted(states) ==> !NonePublished(states) && !AllPublished(states)
  {
    assert NonePublished(states) ==> !states[0];
    assert AllPublished(states) ==> states[|states| - 1];
    assert Interrupted(states) ==> states[0] && !states[|states| - 1];
  }
}
