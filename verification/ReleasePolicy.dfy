/** The package family of each version, release lines, and support-line progression. */
module ReleasePolicy {
  import opened Wrappers
  import opened Sequences
  import opened Decimal
  import opened SemVer

  datatype PackagePolicy = PackagePolicy(
    package: string, tagPrefix: string, path: string, internalDependencies: seq<string>)

  const CORE := "yaml-sigil-core"
  const TRANSCRIPTION := "yaml-sigil-transcription"
  const SIGNING := "yaml-sigil-signing"
  const VERIFICATION := "yaml-sigil-verification"
  const WASM := "yaml-sigil-wasm"

  function Policy(package: string, internalDependencies: seq<string>): PackagePolicy {
    PackagePolicy(package, package + "-v", "crates/" + package, internalDependencies)
  }

  const ALL_PACKAGES: seq<PackagePolicy> := [
    Policy(CORE, []),
    Policy(TRANSCRIPTION, [CORE]),
    Policy(SIGNING, [CORE, TRANSCRIPTION]),
    Policy(VERIFICATION, [CORE, SIGNING, TRANSCRIPTION]),
    Policy(WASM, [CORE, TRANSCRIPTION, SIGNING, VERIFICATION])
  ]

  /** Versions before 0.6 keep the historical four-package family. */
  function ForVersion(version: Version): seq<PackagePolicy> {
    if version.major > 0 || version.minor >= 6 then ALL_PACKAGES else ALL_PACKAGES[..4]
  }

  /** Distinct names, and every internal dependency is an earlier member. */
  ghost predicate DependencyOrdered(family: seq<PackagePolicy>) {
    && (forall i, j :: 0 <= i < j < |family| ==> family[i].package != family[j].package)
    && (forall i, d :: 0 <= i < |family| && d in family[i].internalDependencies ==>
          exists j :: 0 <= j < i && family[j].package == d)
  }

  lemma DependencyAt(i: nat, d: string)
    requires i < |ALL_PACKAGES| && d in ALL_PACKAGES[i].internalDependencies
    ensures exists j :: 0 <= j < i && ALL_PACKAGES[j].package == d
  {
    if d == CORE {
      assert ALL_PACKAGES[0].package == d;
    } else if d == TRANSCRIPTION {
      assert ALL_PACKAGES[1].package == d;
    } else if d == SIGNING {
      assert ALL_PACKAGES[2].package == d;
    } else {
      assert ALL_PACKAGES[3].package == d;
    }
  }

  lemma NamesDiffer(i: nat, j: nat)
    requires i < j < |ALL_PACKAGES|
    ensures ALL_PACKAGES[i].package != ALL_PACKAGES[j].package
  {
    assert CORE[11] == 'c' && TRANSCRIPTION[11] == 't' && SIGNING[11] == 's'
      && VERIFICATION[11] == 'v' && WASM[11] == 'w';
  }

  /** The compiled tag prefixes differ in one letter. */
  lemma PrefixesDiffer(i: nat, j: nat, a: string, b: string)
    requires i < |ALL_PACKAGES| && j < |ALL_PACKAGES|
    requires ALL_PACKAGES[i].tagPrefix + a == ALL_PACKAGES[j].tagPrefix + b
    ensures i == j && a == b
  {
    assert CORE[11] == 'c' && TRANSCRIPTION[11] == 't' && SIGNING[11] == 's'
      && VERIFICATION[11] == 'v' && WASM[11] == 'w';
    var tag := ALL_PACKAGES[i].tagPrefix + a;
    assert tag[11] == ALL_PACKAGES[i].package[11] && tag[11] == ALL_PACKAGES[j].package[11];
    assert a == tag[|ALL_PACKAGES[i].tagPrefix|..];
    assert b == tag[|ALL_PACKAGES[j].tagPrefix|..];
  }

  /** The wasm package belongs to exactly the versions from 0.6 on, pre-releases of 0.6.0 included. */
  lemma WasmFromSix(version: Version)
    ensures (exists p :: p in ForVersion(version) && p.package == WASM) <==>
      !CoreBelow(version, Version(0, 6, 0, "", ""))
    ensures forall p :: p in ALL_PACKAGES && p.package != WASM ==> p in ForVersion(version)
  {
    NamesDiffer(0, 4);
    NamesDiffer(1, 4);
    NamesDiffer(2, 4);
    NamesDiffer(3, 4);
    assert ALL_PACKAGES[4] in ALL_PACKAGES && ALL_PACKAGES[4].package == WASM;
  }

  /** Every version's family is listed in dependency order. */
  lemma FamilyOrdered(version: Version)
    ensures DependencyOrdered(ForVersion(version))
    ensures |ForVersion(version)| == 4 || |ForVersion(version)| == 5
  {
    var family := ForVersion(version);
    forall i, j | 0 <= i < j < |family|
      ensures family[i].package != family[j].package
    {
      NamesDiffer(i, j);
    }
    forall i, d | 0 <= i < |family| && d in family[i].internalDependencies
      ensures exists j :: 0 <= j < i && family[j].package == d
    {
      DependencyAt(i, d);
      var j :| 0 <= j < i && ALL_PACKAGES[j].package == d;
      assert family[j].package == d;
    }
  }

  // Release lines.

  datatype ReleaseLine = Main | Support(major: u64, minor: u64) {

    function BaseRef(): string {
      match this
      case Main => MAIN_REF
      case Support(major, minor) => SUPPORT_PREFIX + Print(major) + "." + Print(minor)
    }

    predicate Admits(version: Version) {
      Main? || (version.major == major && version.minor == minor)
    }

    predicate MakesLatest(version: Version) {
      Main? && version.pre == ""
    }
  }

  const MAIN_REF := "refs/heads/main"
  const SUPPORT_PREFIX := "refs/heads/support/"

  datatype BaseError = NotABase | NotTwoComponents | Noncanonical | Overflow

  function Component(value: string): Result<u64, BaseError> {
    if value == "" || |value| > 9 || (|value| > 1 && value[0] == '0') || !AllDigits(value) then Err(Noncanonical)
    else match ParseU64(value)
      case None => Err(Overflow)
      case Some(n) => Ok(n)
  }

  function FromBaseRef(value: string): Result<ReleaseLine, BaseError> {
    if value == MAIN_REF then Ok(Main)
    else match StripPrefix(value, SUPPORT_PREFIX)
      case None => Err(NotABase)
      case Some(line) =>
        match SplitOnce(line, '.')
        case None => Err(NotTwoComponents)
        case Some((major, minor)) =>
          var m :- Component(major);
          var n :- Component(minor);
          Ok(Support(m, n))
  }

  /** Base refs carry components of at most nine digits. */
  predicate Representable(line: ReleaseLine) {
    line.Support? ==> line.major < 1_000_000_000 && line.minor < 1_000_000_000
  }

  lemma NineDigits()
    ensures Pow10(9) == 1_000_000_000
  {
    assert Pow10(3) == 1000;
    assert Pow10(6) == 1_000_000;
  }

  lemma ComponentPrint(n: u64)
    ensures Component(Print(n)) == if n < 1_000_000_000 then Ok(n) else Err(Noncanonical)
  {
    NineDigits();
    PrintLength(n, 9);
    ParsePrinted(n);
  }

  /** An accepted component is the canonical text of its value; `Overflow` is unreachable. */
  lemma ComponentAccepts(value: string)
    ensures Component(value) != Err(Overflow)
    ensures Component(value).Ok? ==> Component(value).value < 1_000_000_000 && Print(Component(value).value) == value
  {
    if value != "" && |value| <= 9 && !(|value| > 1 && value[0] == '0') && AllDigits(value) {
      NineDigits();
      ValueThenPrint(value);
      PrintLength(Value(value), 9);
      assert IsDigit(value[0]);
    }
  }

  lemma DigitsHaveNoDot(n: nat)
    ensures '.' !in Print(n)
  {
    assert AllDigits(Print(n));
  }

  /** Reading back a printed line succeeds exactly for representable lines. */
  lemma PrintedBaseReadsBack(line: ReleaseLine)
    ensures FromBaseRef(line.BaseRef()) == if Representable(line) then Ok(line) else Err(Noncanonical)
  {
    if line.Support? {
      var tail := Print(line.major) + "." + Print(line.minor);
      var value := line.BaseRef();
      assert value == SUPPORT_PREFIX + tail;
      assert value[|SUPPORT_PREFIX|..] == tail;
      assert value[11] == 's' && MAIN_REF[11] == 'm';
      DigitsHaveNoDot(line.major);
      SplitOnceUnique(Print(line.major), Print(line.minor), '.');
      ComponentPrint(line.major);
      ComponentPrint(line.minor);
    }
  }

  /** Every accepted base ref is the text of the line it names. */
  lemma AcceptedBaseIsCanonical(value: string)
    requires FromBaseRef(value).Ok?
    ensures FromBaseRef(value).value.BaseRef() == value
    ensures Representable(FromBaseRef(value).value)
  {
    hide Component, Print, StripPrefix, SplitOnce;
    if value != MAIN_REF {
      var tail := StripPrefix(value, SUPPORT_PREFIX).value;
      var (major, minor) := SplitOnce(tail, '.').value;
      ComponentAccepts(major);
      ComponentAccepts(minor);
      assert value == SUPPORT_PREFIX + (major + "." + minor);
    }
  }

  /** No base ref makes the numeric parse overflow. */
  lemma BaseNeverOverflows(value: string)
    ensures FromBaseRef(value) != Err(Overflow)
  {
    var stripped := StripPrefix(value, SUPPORT_PREFIX);
    if stripped.Some? {
      var split := SplitOnce(stripped.value, '.');
      if split.Some? {
        ComponentAccepts(split.value.0);
        ComponentAccepts(split.value.1);
      }
    }
  }
}
