/** The workspace manifest as release preparation rewrites it. */
module WorkspaceManifest {
  import opened Wrappers
  import opened SemVer
  import opened ReleasePolicy
  import opened SupportLine
  import opened ReleaseVersions

  /** The manifest an external tool leaves: its version and its internal requirements. */
  datatype Manifest = Manifest(version: Version, requirements: map<string, Version>)

  class Workspace {
    var version: Version
    var requirements: map<string, Version>

    constructor (version: Version, requirements: map<string, Version>)
      ensures this.version == version && this.requirements == requirements
    {
      this.version, this.requirements := version, requirements;
    }

    /** The four packages whose requirements the workspace keeps. */
    static function Required(): seq<string> {
      [CORE, TRANSCRIPTION, SIGNING, VERIFICATION]
    }

    ghost predicate Synchronized()
      reads this
    {
      forall name :: name in Required() ==> name in requirements && requirements[name] == version
    }

    method SetReleaseVersion(expected: Version, selected: Version) returns (r: Result<(), VersionError>)
      modifies this`version
      ensures r == if old(version) == expected then Ok(()) else Err(WorkspaceChanged)
      ensures version == if r.Ok? then selected else old(version)
    {
      if version != expected {
        return Err(WorkspaceChanged);
      }
      version := selected;
      return Ok(());
    }

    /** `requirements` with each of `names` set to `version`. */
    static function Rewritten(requirements: map<string, Version>, names: seq<string>, version: Version):
      map<string, Version>
    {
      requirements + map name | name in names :: version
    }

    static lemma RewriteStep(requirements: map<string, Version>, names: seq<string>, i: nat, version: Version)
      requires i < |names| && forall k :: 0 <= k < i ==> names[k] in requirements && names[k] != names[i]
      ensures var before := Rewritten(requirements, names[..i], version);
        && (names[i] in before <==> names[i] in requirements)
        && (names[i] in before ==> before[names[i]] == requirements[names[i]])
        && before[names[i] := version] == Rewritten(requirements, names[..i + 1], version)
    {
      assert names[..i + 1] == names[..i] + [names[i]];
    }

    static method Rewrite(requirements: map<string, Version>, names: seq<string>, version: Version)
      returns (r: Result<(map<string, Version>, bool), VersionError>)
      requires forall i, j :: 0 <= i < j < |names| ==> names[i] != names[j]
      ensures r.Ok? <==> forall name :: name in names ==> name in requirements
      ensures r.Ok? ==> r.value.0 == Rewritten(requirements, names, version)
      ensures r.Ok? ==> (r.value.1 <==> r.value.0 != requirements)
    {
      hide Rewritten;
      var updated := requirements;
      var changed := false;
      RewriteNone(requirements, version);
      for i := 0 to |names|
        invariant forall k :: 0 <= k < i ==> names[k] in requirements
        invariant updated == Rewritten(requirements, names[..i], version)
        invariant changed ==>
          exists k :: 0 <= k < i && names[k] in updated && updated[names[k]] != requirements[names[k]]
        invariant !changed ==> updated == requirements
      {
        var name := names[i];
        RewriteStep(requirements, names, i, version);
        if name !in updated {
          return Err(MissingRequirement);
        }
        if updated[name] != version {
          updated := updated[name := version];
          changed := true;
        } else {
          assert updated[name := version] == updated;
        }
      }
      assert names[..|names|] == names;
      return Ok((updated, changed));
    }

    static lemma RewriteNone(requirements: map<string, Version>, version: Version)
      ensures Rewritten(requirements, [], version) == requirements
    {
    }

    /** Rewrites every internal requirement to the workspace version; `check` refuses instead. */
    method Synchronize(check: bool) returns (r: Result<bool, VersionError>)
      modifies this`requirements
      ensures r.Ok? <==>
        (forall name :: name in Required() ==> name in old(requirements)) && (check ==> old(Synchronized()))
      ensures r.Ok? ==> Synchronized() && r.value == !old(Synchronized())
      ensures requirements == if r.Ok? then Rewritten(old(requirements), Required(), version) else old(requirements)
    {
      RequiredDistinct();
      var rewritten :- Rewrite(requirements, Required(), version);
      var (updated, changed) := rewritten;
      assert CORE in Required();
      assert Synchronized() ==> updated == requirements;
      assert updated == requirements ==> forall name :: name in Required() ==> updated[name] == version;
      if changed && check {
        return Err(NotSynchronized);
      }
      requirements := updated;
      return Ok(changed);
    }

    static lemma RequiredDistinct()
      ensures forall i, j :: 0 <= i < j < |Required()| ==> Required()[i] != Required()[j]
    {
      forall i, j | 0 <= i < j < |Required()|
        ensures Required()[i] != Required()[j]
      {
        NamesDiffer(i, j);
      }
    }

    /** `ready` stands for the checkout checks, `valid` for Cargo's own validation. */
    method Activate(target: Version, ready: bool, valid: bool) returns (r: Result<(), VersionError>)
      modifies this
      ensures r.Ok? ==> ActivationVersion(old(version), target) == Ok(version) && Synchronized()
      ensures ActivationVersion(old(version), target).Err? ==> r == Err(ActivationVersion(old(version), target).error)
      ensures r.Err? ==> version == old(version) || ActivationVersion(old(version), target) == Ok(version)
      ensures ready && valid && old(Synchronized()) && ActivationVersion(old(version), target).Ok? ==> r.Ok?
    {
      var selected :- ActivationVersion(version, target);
      if !ready {
        return Err(NotReady);
      }
      assert Less(version, selected);
      OrderSymmetry(version, selected);
      r := SetReleaseVersion(version, selected);
      if r.Err? {
        return;
      }
      assert old(Synchronized()) ==> CORE in Required() && requirements[CORE] != version;
      var synchronized :- Synchronize(false);
      if !valid {
        return Err(Invalid);
      }
      if !synchronized {
        return Err(NotSynchronized);
      }
      return Ok(());
    }

    /** `update` and `set` are what the two release-plz runs leave behind. */
    method Prepare(
      line: ReleaseLine, selected: Version, tags: seq<Version>, ready: bool, valid: bool,
      update: Manifest, set_: Manifest)
      returns (r: Result<(), VersionError>)
      modifies this
      ensures var prepared := Prepared(old(version), line, selected, update.version, tags);
        && (r.Ok? ==> prepared == Ok(version))
        && (prepared.Err? && ready ==> r == Err(prepared.error))
      ensures r.Ok? && update.version != selected ==> Synchronized()
      ensures r.Err? ==> version in [old(version), update.version, set_.version, selected]
      ensures ready && valid && Prepared(old(version), line, selected, update.version, tags).Ok?
        && (update.version == selected
            || (set_.version == update.version
                && forall name :: name in Required() ==>
                    name in set_.requirements && set_.requirements[name] == selected))
        ==> r.Ok?
    {
      var advancement := RequireAdvancement(line, selected, tags);
      if advancement.Err? {
        return Err(WrongLine(advancement.error));
      }
      var _ :- RequireRealReleaseVersion(selected);
      if !ready {
        return Err(NotReady);
      }
      var current := version;
      if !Less(current, selected) {
        return Err(NotAdvancing);
      }
      version, requirements := update.version, update.requirements;
      if update.version != selected {
        var _ :- ExactVersionAdjustment(current, update.version, selected);
        version, requirements := set_.version, set_.requirements;
        var _ :- SetReleaseVersion(update.version, selected);
        var _ :- Synchronize(true);
      }
      if !valid {
        return Err(Invalid);
      }
      return Ok(());
    }
  }
}
