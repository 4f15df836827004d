/**
 Versions and their order: precedence as in section 11 of Semantic Versioning 2.0.0,
 refined by build metadata to the total order that `semver::Version` gives `<` and `max`.
 */
module SemVer {
  import opened Decimal
  import opened Sequences

  /** `pre` and `build` hold the dotted text after `-` and `+`; empty means absent. */
  datatype Version = Version(major: u64, minor: u64, patch: u64, pre: string, build: string) {
    predicate Stable() {
      pre == "" && build == ""
    }

    predicate SameCore(other: Version) {
      major == other.major && minor == other.minor && patch == other.patch
    }

    function Text(): string {
      Print(major) + "." + Print(minor) + "." + Print(patch)
      + (if pre == "" then "" else "-" + pre) + (if build == "" then "" else "+" + build)
    }
  }

  lemma NumberThenRest(n: nat, rest: string, m: nat, other: string, separator: char)
    requires !IsDigit(separator) && Print(n) + [separator] + rest == Print(m) + [separator] + other
    ensures n == m && rest == other
  {
    assert AllDigits(Print(n)) && AllDigits(Print(m));
    SplitOnceUnique(Print(n), rest, separator);
    SplitOnceUnique(Print(m), other, separator);
    PrintThenValue(n);
    PrintThenValue(m);
  }

  /** What follows the last number of a core. */
  function Tail(v: Version): string {
    Print(v.patch) + if v.pre == "" then "" else "-" + v.pre
  }

  lemma TailDash(v: Version)
    ensures '-' in Tail(v) <==> v.pre != ""
  {
    assert AllDigits(Print(v.patch));
    assert v.pre != "" ==> Tail(v)[|Print(v.patch)|] == '-';
  }

  lemma TailInjective(a: Version, b: Version)
    requires Tail(a) == Tail(b)
    ensures a.patch == b.patch && a.pre == b.pre
  {
    TailDash(a);
    TailDash(b);
    if a.pre != "" {
      assert Tail(a) == Print(a.patch) + ['-'] + a.pre && Tail(b) == Print(b.patch) + ['-'] + b.pre;
      NumberThenRest(a.patch, a.pre, b.patch, b.pre, '-');
    } else {
      assert Tail(a) == Print(a.patch) && Tail(b) == Print(b.patch);
      PrintThenValue(a.patch);
      PrintThenValue(b.patch);
    }
  }

  /** Without build metadata the text determines the version. */
  lemma TextInjective(a: Version, b: Version)
    requires a.build == "" && b.build == "" && a.Text() == b.Text()
    ensures a == b
  {
    hide Print;
    var minors := (Print(a.minor) + ['.'] + Tail(a), Print(b.minor) + ['.'] + Tail(b));
    assert a.Text() == Print(a.major) + ['.'] + minors.0 && b.Text() == Print(b.major) + ['.'] + minors.1;
    NumberThenRest(a.major, minors.0, b.major, minors.1, '.');
    NumberThenRest(a.minor, Tail(a), b.minor, Tail(b), '.');
    TailInjective(a, b);
  }

  lemma BuildShown(v: Version)
    ensures v.build != "" ==> '+' in v.Text()
  {
    hide Print;
    if v.build != "" {
      assert v.Text()[|v.Text()| - |v.build| - 1] == '+';
    }
  }

  // Comparisons return -1, 0 or 1.

  function CompareInt(a: int, b: int): int {
    if a < b then -1 else if a == b then 0 else 1
  }

  function CompareChar(a: char, b: char): int {
    CompareInt(a as int, b as int)
  }

  function Lexicographic<T>(a: seq<T>, b: seq<T>, compare: (T, T) -> int): int {
    if a == [] && b == [] then 0
    else if a == [] then -1
    else if b == [] then 1
    else if compare(a[0], b[0]) != 0 then compare(a[0], b[0])
    else Lexicographic(a[1..], b[1..], compare)
  }

  /** Numeric identifiers compare by value and rank below alphanumeric ones. */
  function CompareIdentifier(a: string, b: string): int {
    if AllDigits(a) && AllDigits(b) then
      if Value(a) != Value(b) then CompareInt(Value(a), Value(b)) else CompareInt(|a|, |b|)
    else if AllDigits(a) then -1
    else if AllDigits(b) then 1
    else Lexicographic(a, b, CompareChar)
  }

  function CompareDotted(a: string, b: string): int {
    Lexicographic(Split(a, '.'), Split(b, '.'), CompareIdentifier)
  }

  /** A version without a pre-release ranks above every pre-release of its core. */
  function ComparePre(a: string, b: string): int {
    if a == "" && b == "" then 0
    else if a == "" then 1
    else if b == "" then -1
    else CompareDotted(a, b)
  }

  /** Section 11: build metadata is ignored. */
  function Precedence(a: Version, b: Version): int {
    if a.major != b.major then CompareInt(a.major, b.major)
    else if a.minor != b.minor then CompareInt(a.minor, b.minor)
    else if a.patch != b.patch then CompareInt(a.patch, b.patch)
    else ComparePre(a.pre, b.pre)
  }

  function Compare(a: Version, b: Version): int {
    if Precedence(a, b) != 0 then Precedence(a, b) else CompareDotted(a.build, b.build)
  }

  predicate Precedes(a: Version, b: Version) {
    Precedence(a, b) < 0
  }

  predicate Less(a: Version, b: Version) {
    Compare(a, b) < 0
  }

  // Laws of the comparisons.

  ghost predicate TotalOrder<T(!new)>(compare: (T, T) -> int) {
    && (forall a, b :: compare(a, b) == -compare(b, a))
    && (forall a, b :: compare(a, b) == 0 <==> a == b)
    && (forall a, b, c :: compare(a, b) < 0 && compare(b, c) < 0 ==> compare(a, c) < 0)
  }

  lemma {:induction false} LexicographicSymmetry<T(!new)>(a: seq<T>, b: seq<T>, compare: (T, T) -> int)
    requires TotalOrder(compare)
    ensures Lexicographic(a, b, compare) == -Lexicographic(b, a, compare)
    ensures Lexicographic(a, b, compare) == 0 <==> a == b
  {
    if a != [] && b != [] {
      LexicographicSymmetry(a[1..], b[1..], compare);
      assert a == [a[0]] + a[1..] && b == [b[0]] + b[1..];
    }
  }

  lemma {:induction false} LexicographicTransitive<T(!new)>(
    a: seq<T>, b: seq<T>, c: seq<T>, compare: (T, T) -> int)
    requires TotalOrder(compare)
    requires Lexicographic(a, b, compare) < 0 && Lexicographic(b, c, compare) < 0
    ensures Lexicographic(a, c, compare) < 0
  {
    if a != [] && compare(a[0], b[0]) == 0 && compare(b[0], c[0]) == 0 {
      LexicographicTransitive(a[1..], b[1..], c[1..], compare);
    }
  }

  lemma CharOrder()
    ensures TotalOrder(CompareChar)
  {
  }

  lemma IdentifierSymmetry(a: string, b: string)
    ensures CompareIdentifier(a, b) == -CompareIdentifier(b, a)
    ensures CompareIdentifier(a, b) == 0 <==> a == b
  {
    CharOrder();
    LexicographicSymmetry(a, b, CompareChar);
    if AllDigits(a) && AllDigits(b) && Value(a) == Value(b) && |a| == |b| {
      ValueInjective(a, b);
    }
  }

  lemma IdentifierTransitive(a: string, b: string, c: string)
    requires CompareIdentifier(a, b) < 0 && CompareIdentifier(b, c) < 0
    ensures CompareIdentifier(a, c) < 0
  {
    if !AllDigits(a) {
      CharOrder();
      LexicographicTransitive(a, b, c, CompareChar);
    }
  }

  lemma IdentifierOrder()
    ensures TotalOrder(CompareIdentifier)
  {
    forall a, b
      ensures CompareIdentifier(a, b) == -CompareIdentifier(b, a)
      ensures CompareIdentifier(a, b) == 0 <==> a == b
    {
      IdentifierSymmetry(a, b);
    }
    forall a, b, c | CompareIdentifier(a, b) < 0 && CompareIdentifier(b, c) < 0
      ensures CompareIdentifier(a, c) < 0
    {
      IdentifierTransitive(a, b, c);
    }
  }

  lemma DottedSymmetry(a: string, b: string)
    ensures CompareDotted(a, b) == -CompareDotted(b, a)
    ensures CompareDotted(a, b) == 0 <==> a == b
  {
    IdentifierOrder();
    LexicographicSymmetry(Split(a, '.'), Split(b, '.'), CompareIdentifier);
    SplitThenJoin(a, '.');
    SplitThenJoin(b, '.');
  }

  lemma DottedTransitive(a: string, b: string, c: string)
    requires CompareDotted(a, b) < 0 && CompareDotted(b, c) < 0
    ensures CompareDotted(a, c) < 0
  {
    IdentifierOrder();
    LexicographicTransitive(Split(a, '.'), Split(b, '.'), Split(c, '.'), CompareIdentifier);
  }

  /** Two versions tie in precedence exactly when they differ in build metadata only. */
  lemma PrecedenceSymmetry(a: Version, b: Version)
    ensures Precedence(a, b) == -Precedence(b, a)
    ensures Precedence(a, b) == 0 <==> a.SameCore(b) && a.pre == b.pre
  {
    DottedSymmetry(a.pre, b.pre);
  }

  lemma PrecedenceTransitive(a: Version, b: Version, c: Version)
    requires Precedes(a, b) && Precedes(b, c)
    ensures Precedes(a, c)
  {
    if a.pre != "" && b.pre != "" && c.pre != "" && CompareDotted(a.pre, b.pre) < 0 && CompareDotted(b.pre, c.pre) < 0 {
      DottedTransitive(a.pre, b.pre, c.pre);
    }
  }

  lemma OrderSymmetry(a: Version, b: Version)
    ensures Compare(a, b) == -Compare(b, a)
    ensures Compare(a, b) == 0 <==> a == b
  {
    PrecedenceSymmetry(a, b);
    DottedSymmetry(a.build, b.build);
  }

  lemma OrderTransitive(a: Version, b: Version, c: Version)
    requires Less(a, b) && Less(b, c)
    ensures Less(a, c)
  {
    PrecedenceSymmetry(a, b);
    PrecedenceSymmetry(b, c);
    PrecedenceSymmetry(a, c);
    if Precedes(a, b) && Precedes(b, c) {
      PrecedenceTransitive(a, b, c);
    } else if Precedence(a, b) == 0 && Precedence(b, c) == 0 {
      DottedTransitive(a.build, b.build, c.build);
    }
  }

  /** The order of `semver::Version` is total, so `max` picks one version. */
  lemma VersionOrder()
    ensures TotalOrder(Compare)
  {
    forall a, b
      ensures Compare(a, b) == -Compare(b, a)
      ensures Compare(a, b) == 0 <==> a == b
    {
      OrderSymmetry(a, b);
    }
    forall a, b, c | Compare(a, b) < 0 && Compare(b, c) < 0
      ensures Compare(a, c) < 0
    {
      OrderTransitive(a, b, c);
    }
  }

  // Section 11 rule by rule, from the fields and characters alone.

  /** `a` ends first, or at the first place where they differ `below` holds. */
  ghost predicate FirstBelow<T(!new)>(a: seq<T>, b: seq<T>, below: (T, T) -> bool) {
    a < b || exists k :: 0 <= k < |a| && k < |b| && a[..k] == b[..k] && below(a[k], b[k])
  }

  ghost predicate CharBelow(a: char, b: char) {
    a < b
  }

  /** Numbers by value, and by length where leading zeros leave a tie; numbers below the rest; characters decide. */
  ghost predicate IdentifierBelow(a: string, b: string) {
    if AllDigits(a) && AllDigits(b) then Value(a) < Value(b) || (Value(a) == Value(b) && |a| < |b|)
    else if AllDigits(a) || AllDigits(b) then AllDigits(a)
    else FirstBelow(a, b, CharBelow)
  }

  ghost predicate DottedBelow(a: string, b: string) {
    FirstBelow(Split(a, '.'), Split(b, '.'), IdentifierBelow)
  }

  ghost predicate CoreBelow(a: Version, b: Version) {
    || a.major < b.major
    || (a.major == b.major && a.minor < b.minor)
    || (a.major == b.major && a.minor == b.minor && a.patch < b.patch)
  }

  lemma {:induction false} LexicographicIs<T(!new)>(
    a: seq<T>, b: seq<T>, compare: (T, T) -> int, below: (T, T) -> bool)
    requires TotalOrder(compare) && forall x, y :: below(x, y) <==> compare(x, y) < 0
    ensures Lexicographic(a, b, compare) < 0 <==> FirstBelow(a, b, below)
  {
    if a != [] && b != [] && a[0] == b[0] {
      LexicographicIs(a[1..], b[1..], compare, below);
      assert a == [a[0]] + a[1..] && b == [b[0]] + b[1..];
      forall k | 0 < k < |a| && k < |b|
        ensures a[..k] == b[..k] <==> a[1..][..k - 1] == b[1..][..k - 1]
        ensures a[k] == a[1..][k - 1] && b[k] == b[1..][k - 1]
      {
        assert a[..k] == [a[0]] + a[1..][..k - 1] && b[..k] == [b[0]] + b[1..][..k - 1];
      }
      if k :| 0 <= k < |a[1..]| && k < |b[1..]| && a[1..][..k] == b[1..][..k] && below(a[1..][k], b[1..][k]) {
        assert a[..k + 1] == b[..k + 1] && below(a[k + 1], b[k + 1]);
      }
    } else if a != [] && b != [] {
      assert a[..0] == b[..0];
    }
  }

  lemma IdentifierIs(a: string, b: string)
    ensures CompareIdentifier(a, b) < 0 <==> IdentifierBelow(a, b)
  {
    LexicographicIs(a, b, CompareChar, CharBelow);
  }

  lemma DottedIs(a: string, b: string)
    ensures CompareDotted(a, b) < 0 <==> DottedBelow(a, b)
  {
    hide CompareIdentifier, IdentifierBelow, Lexicographic;
    IdentifierOrder();
    forall x, y
      ensures IdentifierBelow(x, y) <==> CompareIdentifier(x, y) < 0
    {
      IdentifierIs(x, y);
    }
    LexicographicIs(Split(a, '.'), Split(b, '.'), CompareIdentifier, IdentifierBelow);
  }

  /**
   Section 11 exactly: the first of major, minor and patch that differs decides; a pre-release
   precedes the release of its core; of two, the first identifier that differs decides, or the
   shorter list precedes.
   */
  lemma PrecedenceIs(a: Version, b: Version)
    ensures Precedes(a, b) <==>
      || CoreBelow(a, b)
      || (a.SameCore(b) && a.pre != "" && (b.pre == "" || DottedBelow(a.pre, b.pre)))
  {
    hide CompareDotted, DottedBelow;
    DottedIs(a.pre, b.pre);
  }

  /** The total order is precedence, and build metadata by the same rules where precedence ties. */
  lemma OrderIs(a: Version, b: Version)
    ensures Less(a, b) <==>
      || Precedes(a, b)
      || (a.SameCore(b) && a.pre == b.pre && DottedBelow(a.build, b.build))
  {
    hide CompareDotted, DottedBelow, Precedence;
    PrecedenceSymmetry(a, b);
    DottedIs(a.build, b.build);
  }

  /** `Iterator::max`: the greatest element, absent for an empty sequence. */
  function Max(versions: seq<Version>): (m: Version)
    requires versions != []
    ensures m in versions
  {
    if |versions| == 1 then versions[0]
    else
      var rest := Max(versions[1..]);
      if Less(rest, versions[0]) then versions[0] else rest
  }

  lemma {:induction false} MaxIsGreatest(versions: seq<Version>, v: Version)
    requires v in versions
    ensures !Less(Max(versions), v)
  {
    var rest := versions[1..];
    OrderSymmetry(v, v);
    if |versions| > 1 {
      if v in rest {
        MaxIsGreatest(rest, v);
        var top := Max(rest);
        if Less(top, versions[0]) {
          OrderSymmetry(top, v);
          if Less(versions[0], v) {
            OrderTransitive(top, versions[0], v);
          }
        }
      } else {
        assert v == versions[0];
        OrderSymmetry(Max(rest), v);
      }
    }
  }

  // Release candidates.

  function CandidateText(n: nat): string {
    "rc." + Print(n)
  }

  lemma CandidateIdentifiers(n: nat)
    ensures Split(CandidateText(n), '.') == ["rc", Print(n)]
  {
    assert CandidateText(n) == "rc" + ['.'] + Print(n);
    SplitAtFirst("rc", Print(n), '.');
    SplitSingle(Print(n), '.');
  }

  /** After an equal first identifier the second one decides. */
  lemma SecondIdentifierDecides(head: string, a: string, b: string)
    ensures Lexicographic([head, a], [head, b], CompareIdentifier) == CompareIdentifier(a, b)
  {
    hide CompareIdentifier;
    IdentifierSymmetry(head, head);
    assert [head, a][1..] == [a] && [head, b][1..] == [b];
    assert Lexicographic([a], [b], CompareIdentifier) == CompareIdentifier(a, b);
  }

  /** Candidates of one core rank by ordinal, and below that core's stable version. */
  lemma CandidatePrecedence(a: Version, b: Version, m: nat, n: nat)
    requires a.SameCore(b) && a.pre == CandidateText(m) && b.pre == CandidateText(n)
    ensures Precedence(a, b) == CompareInt(m, n)
  {
    CandidateIdentifiers(m);
    CandidateIdentifiers(n);
    PrintThenValue(m);
    PrintThenValue(n);
    if m == n {
      PrecedenceSymmetry(a, b);
    } else {
      SecondIdentifierDecides("rc", Print(m), Print(n));
    }
  }
}
