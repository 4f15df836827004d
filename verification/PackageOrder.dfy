/** Selecting the publishable packages of a workspace in dependency order. */
module PackageOrder {
  import opened Wrappers
  import opened SemVer
  import opened ReleasePolicy

  /** A requirement is either a plain version, which Cargo reads as a caret, or something else. */
  datatype Requirement = Caret(version: Version) | Other

  datatype Dependency = Dependency(
    name: string, source: Option<string>, rename: Option<string>, path: Option<string>, requirement: Requirement)

  datatype Package = Package(
    name: string, source: Option<string>, publish: Option<seq<string>>, dependencies: seq<Dependency>)

  datatype OrderError =
    | ExcludesCratesIo
    | UnexpectedPackage(name: string)
    | DuplicatePackage(name: string)
    | MissingPackage(name: string)

  const CRATES_IO := "crates-io"

  function PublishesToCratesIo(publish: Option<seq<string>>): Result<bool, OrderError> {
    match publish
    case None => Ok(true)
    case Some(registries) =>
      if registries == [] then Ok(false)
      else if CRATES_IO in registries then Ok(true)
      else Err(ExcludesCratesIo)
  }

  predicate Local(p: Package) {
    p.source.None?
  }

  /** A workspace package that crates.io receives. */
  predicate Ships(p: Package) {
    Local(p) && PublishesToCratesIo(p.publish) == Ok(true)
  }

  predicate InFamily(family: seq<PackagePolicy>, name: string) {
    exists k | 0 <= k < |family| :: family[k].package == name
  }

  /** `p` is the one shipped package of its name, and it occurs once. */
  ghost predicate Sole(packages: multiset<Package>, p: Package) {
    packages[p] == 1 && Ships(p) && forall q :: q in packages && Ships(q) && q.name == p.name ==> q == p
  }

  ghost predicate HasSole(packages: multiset<Package>, name: string) {
    exists p :: Sole(packages, p) && p.name == name
  }

  /** What ships is exactly the family, one package a name, and no local package hides from crates.io. */
  ghost predicate Orderable(packages: multiset<Package>, family: seq<PackagePolicy>) {
    && (forall p :: p in packages && Local(p) ==> PublishesToCratesIo(p.publish).Ok?)
    && (forall p :: p in packages && Ships(p) ==> InFamily(family, p.name))
    && (forall k :: 0 <= k < |family| ==> HasSole(packages, family[k].package))
  }

  /** The shipped packages in the family's order. */
  ghost predicate InOrder(packages: multiset<Package>, family: seq<PackagePolicy>, ordered: seq<Package>) {
    && |ordered| == |family|
    && (forall k :: 0 <= k < |family| ==> ordered[k].name == family[k].package && Sole(packages, ordered[k]))
    && (forall p :: p in packages && Ships(p) ==> p in ordered)
  }

  /** The order depends on the workspace's packages, not on how metadata lists them. */
  lemma OrderIndependent(a: seq<Package>, b: seq<Package>, family: seq<PackagePolicy>,
                         first: seq<Package>, second: seq<Package>)
    requires multiset(a) == multiset(b)
    requires InOrder(multiset(a), family, first) && InOrder(multiset(b), family, second)
    ensures first == second
  {
    forall k | 0 <= k < |family|
      ensures first[k] == second[k]
    {
      assert Sole(multiset(a), first[k]) && Sole(multiset(a), second[k]);
    }
  }

  ghost predicate Indexed(seen: multiset<Package>, family: seq<PackagePolicy>, byName: map<string, Package>) {
    && (forall p :: p in seen && Local(p) ==> PublishesToCratesIo(p.publish).Ok?)
    && (forall p :: p in seen && Ships(p) ==>
          InFamily(family, p.name) && p.name in byName && byName[p.name] == p && seen[p] == 1)
    && (forall n :: n in byName ==> byName[n] in seen && Ships(byName[n]) && byName[n].name == n)
  }

  lemma IndexedNext(seen: multiset<Package>, family: seq<PackagePolicy>, byName: map<string, Package>, p: Package)
    requires Indexed(seen, family, byName)
    requires Local(p) ==> PublishesToCratesIo(p.publish).Ok?
    requires Ships(p) ==> InFamily(family, p.name) && p.name !in byName
    ensures Indexed(seen + multiset{p}, family, if Ships(p) then byName[p.name := p] else byName)
  {
    if Ships(p) {
      assert p !in seen;
    }
  }

  lemma DuplicateRefuted(all: multiset<Package>, seen: multiset<Package>, family: seq<PackagePolicy>,
                         byName: map<string, Package>, p: Package)
    requires Indexed(seen, family, byName) && seen + multiset{p} <= all
    requires Ships(p) && p.name in byName
    ensures !Orderable(all, family)
  {
    var q := byName[p.name];
    assert q in all && p in all;
    if InFamily(family, p.name) {
      var k :| 0 <= k < |family| && family[k].package == p.name;
      assert p == q ==> all[p] >= (seen + multiset{p})[p] >= 2;
      assert !HasSole(all, family[k].package);
    }
  }

  lemma IndexedIsSole(all: multiset<Package>, family: seq<PackagePolicy>, byName: map<string, Package>, n: string)
    requires Indexed(all, family, byName) && n in byName
    ensures Sole(all, byName[n])
  {
  }

  lemma IndexedOrderable(all: multiset<Package>, family: seq<PackagePolicy>, byName: map<string, Package>)
    requires Indexed(all, family, byName)
    ensures Orderable(all, family) <==> forall k :: 0 <= k < |family| ==> family[k].package in byName
  {
    forall k | 0 <= k < |family|
      ensures HasSole(all, family[k].package) <==> family[k].package in byName
    {
      var n := family[k].package;
      if n in byName {
        IndexedIsSole(all, family, byName, n);
      }
      if HasSole(all, n) {
        var p :| Sole(all, p) && p.name == n;
        assert p in all;
      }
    }
  }

  lemma SplitAt(packages: seq<Package>, i: nat)
    requires i < |packages|
    ensures multiset(packages[..i + 1]) == multiset(packages[..i]) + multiset{packages[i]}
    ensures multiset(packages[..i + 1]) <= multiset(packages)
  {
    assert packages[..i + 1] == packages[..i] + [packages[i]];
    assert packages == packages[..i + 1] + packages[i + 1..];
  }

  method IndexPackages(packages: seq<Package>, family: seq<PackagePolicy>)
    returns (r: Result<map<string, Package>, OrderError>)
    ensures r.Ok? ==> Indexed(multiset(packages), family, r.value)
    ensures r.Err? ==> !Orderable(multiset(packages), family)
  {
    var byName: map<string, Package> := map[];
    for i := 0 to |packages|
      invariant Indexed(multiset(packages[..i]), family, byName)
    {
      var package := packages[i];
      SplitAt(packages, i);
      assert package in multiset(packages);
      if Local(package) {
        var publishes := PublishesToCratesIo(package.publish);
        if publishes.Err? {
          return Err(publishes.error);
        }
        if publishes.value {
          if !InFamily(family, package.name) {
            return Err(UnexpectedPackage(package.name));
          }
          if package.name in byName {
            DuplicateRefuted(multiset(packages), multiset(packages[..i]), family, byName, package);
            return Err(DuplicatePackage(package.name));
          }
          IndexedNext(multiset(packages[..i]), family, byName, package);
          byName := byName[package.name := package];
        } else {
          IndexedNext(multiset(packages[..i]), family, byName, package);
        }
      } else {
        IndexedNext(multiset(packages[..i]), family, byName, package);
      }
    }
    assert packages[..|packages|] == packages;
    return Ok(byName);
  }

  ghost predicate Distinct(family: seq<PackagePolicy>) {
    forall i, j :: 0 <= i < j < |family| ==> family[i].package != family[j].package
  }

  /** Removes the family's members one by one; the index is empty afterwards. */
  method DrainInOrder(index: map<string, Package>, family: seq<PackagePolicy>)
    returns (r: Result<seq<Package>, OrderError>, rest: map<string, Package>)
    requires Distinct(family)
    ensures r.Ok? <==> forall k :: 0 <= k < |family| ==> family[k].package in index
    ensures r.Ok? ==> && |r.value| == |family|
                      && (forall k :: 0 <= k < |family| ==>
                            family[k].package in index && r.value[k] == index[family[k].package])
    ensures r.Ok? ==> rest.Keys == set n | n in index && !InFamily(family, n)
    ensures r.Err? ==> && r.error.MissingPackage? && r.error.name !in index
                       && InFamily(family, r.error.name)
  {
    var byName := index;
    var ordered: seq<Package> := [];
    for i := 0 to |family|
      invariant |ordered| == i
      invariant forall k :: 0 <= k < i ==> family[k].package in index && ordered[k] == index[family[k].package]
      invariant forall n :: n in byName <==> n in index && !InFamily(family[..i], n)
      invariant forall n :: n in byName ==> byName[n] == index[n]
    {
      var name := family[i].package;
      assert !InFamily(family[..i], name);
      if name !in byName {
        return Err(MissingPackage(name)), byName;
      }
      ordered := ordered + [byName[name]];
      byName := byName - {name};
      assert forall n :: InFamily(family[..i + 1], n) <==> InFamily(family[..i], n) || n == name by {
        assert family[..i + 1] == family[..i] + [family[i]];
        forall n | InFamily(family[..i], n) || n == name
          ensures InFamily(family[..i + 1], n)
        {
          if n == name {
            assert family[..i + 1][i].package == n;
          } else {
            var k :| 0 <= k < i && family[..i][k].package == n;
            assert family[..i + 1][k].package == n;
          }
        }
      }
    }
    assert family[..|family|] == family;
    return Ok(ordered), byName;
  }

  method OrderedPublishablePackages(packages: seq<Package>, expected: Version)
    returns (r: Result<seq<Package>, OrderError>)
    ensures r.Ok? <==> Orderable(multiset(packages), ForVersion(expected))
    ensures r.Ok? ==> InOrder(multiset(packages), ForVersion(expected), r.value)
  {
    var family := ForVersion(expected);
    FamilyOrdered(expected);
    hide ForVersion, Indexed, Orderable, Sole;
    var index := IndexPackages(packages, family);
    if index.Err? {
      return Err(index.error);
    }
    var ordered, rest := DrainInOrder(index.value, family);
    IndexedOrderable(multiset(packages), family, index.value);
    if ordered.Ok? {
      DrainedInOrder(multiset(packages), family, index.value, ordered.value);
      assert rest == map[];
    }
    return ordered;
  }

  lemma DrainedInOrder(
    all: multiset<Package>, family: seq<PackagePolicy>, index: map<string, Package>, ordered: seq<Package>)
    requires Indexed(all, family, index) && |ordered| == |family|
    requires forall k :: 0 <= k < |family| ==> family[k].package in index && ordered[k] == index[family[k].package]
    ensures InOrder(all, family, ordered)
    ensures forall n :: n in index ==> InFamily(family, n)
  {
    forall k | 0 <= k < |family|
      ensures ordered[k].name == family[k].package && Sole(all, ordered[k])
    {
      IndexedIsSole(all, family, index, family[k].package);
    }
    forall p | p in all && Ships(p)
      ensures p in ordered
    {
      var k :| 0 <= k < |family| && family[k].package == p.name;
      assert ordered[k] == p;
    }
    forall n | n in index
      ensures InFamily(family, n)
    {
      assert index[n] in all;
    }
  }

  // Internal dependencies.

  datatype DependencyFault =
    | UnexpectedSet | PublishedTooLate | UnexpectedIdentity | NoLocalPath | UnexpectedPath | NotCanonical

  datatype DependencyError = DependencyError(index: nat, fault: DependencyFault)

  function FindPolicy(family: seq<PackagePolicy>, name: string): (r: Option<nat>)
    ensures r.Some? ==> r.value < |family| && family[r.value].package == name
    ensures r.Some? ==> forall k :: 0 <= k < r.value ==> family[k].package != name
    ensures r.None? <==> !InFamily(family, name)
    decreases |family|
  {
    if family == [] then None
    else
      var n := |family| - 1;
      match FindPolicy(family[..n], name)
      case Some(k) => Some(k)
      case None =>
        assert forall k :: 0 <= k < n ==> family[..n][k] == family[k];
        if family[n].package == name then Some(n) else None
  }

  function InternalNames(family: seq<PackagePolicy>, dependencies: seq<Dependency>): seq<string> {
    if dependencies == [] then []
    else
      var n := |dependencies| - 1;
      InternalNames(family, dependencies[..n])
      + if InFamily(family, dependencies[n].name) then [dependencies[n].name] else []
  }

  function SetOf(names: seq<string>): set<string> {
    set n | n in names
  }

  predicate ExpectedSet(family: seq<PackagePolicy>, i: nat, dependencies: seq<Dependency>)
    requires i < |family|
  {
    var actual := InternalNames(family, dependencies);
    var wanted := SetOf(family[i].internalDependencies);
    |actual| == |wanted| && SetOf(actual) == wanted
  }

  function LocalPath(root: string, policy: PackagePolicy): string {
    root + "/" + policy.path
  }

  function DependencyFaultOf(root: string, family: seq<PackagePolicy>, expected: Version, i: nat, d: Dependency):
    Option<DependencyFault>
  {
    match FindPolicy(family, d.name)
    case None => None
    case Some(k) =>
      if k >= i then Some(PublishedTooLate)
      else if d.source.Some? || d.rename.Some? then Some(UnexpectedIdentity)
      else if d.path.None? then Some(NoLocalPath)
      else if d.path.value != LocalPath(root, family[k]) then Some(UnexpectedPath)
      else if d.requirement != Caret(expected) then Some(NotCanonical)
      else None
  }

  /** A dependency outside the family, or on an earlier member by its local path and exact version. */
  ghost predicate ProperDependency(root: string, family: seq<PackagePolicy>, expected: Version, i: nat, d: Dependency) {
    InFamily(family, d.name) ==>
      && d.source.None? && d.rename.None? && d.requirement == Caret(expected)
      && exists k ::
           0 <= k < i && k < |family| && family[k].package == d.name && d.path == Some(LocalPath(root, family[k]))
  }

  ghost predicate ProperPackage(root: string, family: seq<PackagePolicy>, expected: Version, i: nat, package: Package)
    requires i < |family|
  {
    && ExpectedSet(family, i, package.dependencies)
    && forall d :: d in package.dependencies ==> ProperDependency(root, family, expected, i, d)
  }

  lemma FaultlessIsProper(root: string, family: seq<PackagePolicy>, expected: Version, i: nat, d: Dependency)
    requires Distinct(family)
    ensures DependencyFaultOf(root, family, expected, i, d).None? <==> ProperDependency(root, family, expected, i, d)
  {
    var found := FindPolicy(family, d.name);
    if found.Some? {
      assert forall k :: 0 <= k < |family| && family[k].package == d.name ==> k == found.value;
    }
  }

  /** Accepts exactly when every package is proper; otherwise names the first that is not. */
  method ValidateInternalDependencies(root: string, packages: seq<Package>, expected: Version)
    returns (r: Result<(), DependencyError>)
    requires |packages| <= |ForVersion(expected)|
    ensures r.Ok? ==> forall i :: 0 <= i < |packages| ==>
      ProperPackage(root, ForVersion(expected), expected, i, packages[i])
    ensures r.Err? ==>
      && r.error.index < |packages|
      && !ProperPackage(root, ForVersion(expected), expected, r.error.index, packages[r.error.index])
      && forall i :: 0 <= i < r.error.index ==> ProperPackage(root, ForVersion(expected), expected, i, packages[i])
  {
    var family := ForVersion(expected);
    FamilyOrdered(expected);
    hide ForVersion, DependencyFaultOf, ProperDependency, ExpectedSet;
    for i := 0 to |packages|
      invariant forall k :: 0 <= k < i ==> ProperPackage(root, family, expected, k, packages[k])
    {
      var dependencies := packages[i].dependencies;
      if !ExpectedSet(family, i, dependencies) {
        return Err(DependencyError(i, UnexpectedSet));
      }
      for j := 0 to |dependencies|
        invariant forall k :: 0 <= k < j ==> ProperDependency(root, family, expected, i, dependencies[k])
      {
        var fault := DependencyFaultOf(root, family, expected, i, dependencies[j]);
        FaultlessIsProper(root, family, expected, i, dependencies[j]);
        if fault.Some? {
          assert dependencies[j] in dependencies;
          return Err(DependencyError(i, fault.value));
        }
      }
    }
    return Ok(());
  }

  lemma {:induction false} InternalNamesAre(family: seq<PackagePolicy>, dependencies: seq<Dependency>, name: string)
    ensures name in InternalNames(family, dependencies)
      <==> InFamily(family, name) && exists d :: d in dependencies && d.name == name
  {
    if dependencies != [] {
      var n := |dependencies| - 1;
      InternalNamesAre(family, dependencies[..n], name);
      assert dependencies == dependencies[..n] + [dependencies[n]];
    }
  }

  /** The family's own order already rules out a dependency published too late. */
  lemma PublishedTooLateUnreachable(root: string, expected: Version, i: nat, package: Package, d: Dependency)
    requires i < |ForVersion(expected)| && ExpectedSet(ForVersion(expected), i, package.dependencies)
    requires d in package.dependencies
    ensures DependencyFaultOf(root, ForVersion(expected), expected, i, d) != Some(PublishedTooLate)
  {
    var family := ForVersion(expected);
    FamilyOrdered(expected);
    hide ForVersion;
    if InFamily(family, d.name) {
      InternalNamesAre(family, package.dependencies, d.name);
      assert d.name in SetOf(InternalNames(family, package.dependencies));
      var k :| 0 <= k < i && family[k].package == d.name;
      assert FindPolicy(family, d.name) == Some(k);
    }
  }

  /** Every internal dependency of the first `k` packages is among them. */
  ghost predicate PrefixClosed(family: seq<PackagePolicy>, ordered: seq<Package>, k: nat)
    requires k <= |ordered|
  {
    forall i, d :: 0 <= i < k && d in ordered[i].dependencies && InFamily(family, d.name) ==>
      exists j :: 0 <= j < i && ordered[j].name == d.name
  }

  /** The validated order is topological, so publishing may stop after any package. */
  lemma ValidatedOrderIsTopological(
    root: string, packages: multiset<Package>, expected: Version, ordered: seq<Package>, k: nat)
    requires InOrder(packages, ForVersion(expected), ordered) && k <= |ordered|
    requires forall i :: 0 <= i < |ordered| ==> ProperPackage(root, ForVersion(expected), expected, i, ordered[i])
    ensures PrefixClosed(ForVersion(expected), ordered, k)
  {
    var family := ForVersion(expected);
    hide ForVersion;
    forall i, d | 0 <= i < k && d in ordered[i].dependencies && InFamily(family, d.name)
      ensures exists j :: 0 <= j < i && ordered[j].name == d.name
    {
      assert ProperPackage(root, family, expected, i, ordered[i]);
      var j :| 0 <= j < i && family[j].package == d.name && d.path == Some(LocalPath(root, family[j]));
      assert ordered[j].name == d.name;
    }
  }
}
