/** Package inventories: a path list that has exactly one accepted spelling. */
module Inventory {
  import opened Wrappers
  import opened Sequences
  import opened Utf8

  type Text = seq<byte>
  type Path = seq<byte>

  const LF: byte := 0x0A
  const CR: byte := 0x0D
  const HASH: byte := 0x23
  const DOT: byte := 0x2E
  const SLASH: byte := 0x2F
  const BACKSLASH: byte := 0x5C

  /** The bytes of `Cargo.lock`. */
  const SYNTHETIC_LOCKFILE: Path := [0x43, 0x61, 0x72, 0x67, 0x6F, 0x2E, 0x6C, 0x6F, 0x63, 0x6B]

  datatype InventoryError =
    | Empty
    | MissingLineFeed
    | CarriageReturn
    | BlankPath(line: nat)
    | Comment(line: nat)
    | NotNormalized(line: nat)
    | Unsorted(line: nat)
    | Duplicate(line: nat)

  // Bytewise order.

  predicate Less(a: seq<byte>, b: seq<byte>) {
    b != [] && (a == [] || a[0] < b[0] || (a[0] == b[0] && Less(a[1..], b[1..])))
  }

  lemma {:induction false} LessTransitive(a: seq<byte>, b: seq<byte>, c: seq<byte>)
    requires Less(a, b) && Less(b, c)
    ensures Less(a, c)
  {
    if a != [] && a[0] == b[0] == c[0] {
      LessTransitive(a[1..], b[1..], c[1..]);
    }
  }

  /** Exactly one of `a < b`, `a == b` and `b < a` holds. */
  lemma {:induction false} LessTotal(a: seq<byte>, b: seq<byte>)
    ensures Less(a, b) || a == b || Less(b, a)
    ensures Less(a, b) ==> a != b && !Less(b, a)
  {
    if a != [] && b != [] && a[0] == b[0] {
      LessTotal(a[1..], b[1..]);
      assert a == [a[0]] + a[1..] && b == [b[0]] + b[1..];
    }
  }

  ghost predicate Ascending(paths: seq<Path>) {
    forall i, j :: 0 <= i < j < |paths| ==> Less(paths[i], paths[j])
  }

  ghost function SetOf(paths: seq<Path>): set<Path> {
    set p | p in paths
  }

  ghost predicate Least(s: set<Path>, m: Path) {
    m in s && forall p :: p in s && p != m ==> Less(m, p)
  }

  lemma {:induction false} LeastExists(s: set<Path>)
    requires s != {}
    ensures exists m :: Least(s, m)
    decreases |s|
  {
    var p :| p in s;
    var rest := s - {p};
    if rest == {} {
      assert s == {p};
      assert Least(s, p);
    } else {
      LeastExists(rest);
      var q :| Least(rest, q);
      LessTotal(p, q);
      if Less(q, p) {
        assert Least(s, q);
      } else {
        forall r | r in s && r != p
          ensures Less(p, r)
        {
          if r != q {
            LessTransitive(p, q, r);
          }
        }
        assert Least(s, p);
      }
    }
  }

  lemma ConsSorted(s: set<Path>, m: Path, rest: seq<Path>)
    requires Least(s, m) && SetOf(rest) == s - {m} && Ascending(rest)
    ensures SetOf([m] + rest) == s && Ascending([m] + rest)
  {
    var paths := [m] + rest;
    assert forall k :: 0 <= k < |rest| ==> rest[k] in SetOf(rest);
    assert forall p :: p in s ==> p == m || p in SetOf(rest);
    assert forall p :: p in SetOf(paths) <==> p == m || p in SetOf(rest);
  }

  lemma SetEmpty(paths: seq<Path>)
    ensures SetOf(paths) == {} <==> paths == []
  {
    if paths != [] {
      assert paths[0] in SetOf(paths);
    }
  }

  /** The elements of `s` in bytewise order. */
  ghost function Sorted(s: set<Path>): (paths: seq<Path>)
    ensures SetOf(paths) == s && Ascending(paths)
    decreases |s|
  {
    if s == {} then []
    else
      LeastExists(s);
      var m :| Least(s, m);
      var rest := Sorted(s - {m});
      ConsSorted(s, m, rest);
      [m] + rest
  }

  /** There is only one ascending list of a set. */
  lemma {:induction false} AscendingUnique(a: seq<Path>, b: seq<Path>)
    requires Ascending(a) && Ascending(b) && SetOf(a) == SetOf(b)
    ensures a == b
    decreases |a|
  {
    SetEmpty(a);
    SetEmpty(b);
    if a != [] {
      assert a[0] in SetOf(b);
      assert b[0] in SetOf(a);
      HeadIsLeast(a);
      HeadIsLeast(b);
      LessTotal(a[0], b[0]);
      TailSet(a);
      TailSet(b);
      AscendingUnique(a[1..], b[1..]);
    }
  }

  lemma HeadIsLeast(a: seq<Path>)
    requires Ascending(a) && a != []
    ensures Least(SetOf(a), a[0])
  {
  }

  lemma TailSet(a: seq<Path>)
    requires Ascending(a) && a != []
    ensures SetOf(a[1..]) == SetOf(a) - {a[0]}
  {
    forall k | 0 < k < |a|
      ensures a[k] != a[0]
    {
      LessTotal(a[0], a[k]);
    }
  }

  // Paths.

  datatype Component = RootDir | CurDir | ParentDir | Normal

  /** The components Unix sees in `path`: repeated separators vanish, and so does `.` except in front. */
  function Components(fields: seq<seq<byte>>, front: bool): seq<Component> {
    if fields == [] then []
    else
      var rest := Components(fields[1..], false);
      if fields[0] == [] then (if front && |fields| > 1 then [RootDir] else []) + rest
      else if fields[0] == [DOT] then (if front then [CurDir] else []) + rest
      else if fields[0] == [DOT, DOT] then [ParentDir] + rest
      else [Normal] + rest
  }

  predicate Plain(field: seq<byte>) {
    field != [] && field != [DOT] && field != [DOT, DOT]
  }

  function ValidatePath(path: Path, line: nat): Result<(), InventoryError> {
    if path == [] then Err(BlankPath(line))
    else if path[0] == HASH then Err(Comment(line))
    else if || BACKSLASH in path
            || (exists k | 0 <= k < |Split(path, SLASH)| :: !Plain(Split(path, SLASH)[k]))
            || (exists k | 0 <= k < |Components(Split(path, SLASH), true)| ::
                 Components(Split(path, SLASH), true)[k] != Normal)
         then Err(NotNormalized(line))
    else Ok(())
  }

  /** A relative path of plain components, not a comment, that fits on one line. */
  predicate InventoryPath(path: Path) {
    && path != [] && path[0] != HASH
    && BACKSLASH !in path && LF !in path && CR !in path
    && forall k :: 0 <= k < |Split(path, SLASH)| ==> Plain(Split(path, SLASH)[k])
  }

  lemma {:induction false} PlainComponents(fields: seq<seq<byte>>, front: bool)
    requires forall k :: 0 <= k < |fields| ==> Plain(fields[k])
    ensures forall k :: 0 <= k < |Components(fields, front)| ==> Components(fields, front)[k] == Normal
  {
    if fields != [] {
      PlainComponents(fields[1..], false);
    }
  }

  /** The operating system's view of the components adds nothing to the textual rules. */
  lemma ValidateAcceptsInventoryPaths(path: Path, line: nat)
    requires LF !in path && CR !in path
    ensures ValidatePath(path, line).Ok? <==> InventoryPath(path)
  {
    if forall k :: 0 <= k < |Split(path, SLASH)| ==> Plain(Split(path, SLASH)[k]) {
      PlainComponents(Split(path, SLASH), true);
    }
  }

  // Parsing.

  predicate Terminated(text: Text) {
    text != [] && text[|text| - 1] == LF
  }

  /** The lines of a text without carriage returns that ends with a line feed. */
  function Lines(text: Text): seq<Path>
    requires Terminated(text)
  {
    var fields := Split(text, LF);
    fields[..|fields| - 1]
  }

  function LineError(lines: seq<Path>, k: nat): Option<InventoryError>
    requires k < |lines|
  {
    match ValidatePath(lines[k], k + 1)
    case Err(error) => Some(error)
    case Ok(_) =>
      if k == 0 || Less(lines[k - 1], lines[k]) then None
      else if lines[k - 1] == lines[k] then Some(Duplicate(k + 1))
      else Some(Unsorted(k + 1))
  }

  function FirstError(lines: seq<Path>, k: nat): Option<InventoryError>
    requires k <= |lines|
    decreases |lines| - k
  {
    if k == |lines| then None
    else match LineError(lines, k)
      case Some(error) => Some(error)
      case None => FirstError(lines, k + 1)
  }

  ghost function InventoryOf(text: Text): Result<set<Path>, InventoryError> {
    if text == [] then Err(Empty)
    else if !Terminated(text) then Err(MissingLineFeed)
    else if CR in text then Err(CarriageReturn)
    else match FirstError(Lines(text), 0)
      case Some(error) => Err(error)
      case None => Ok(SetOf(Lines(text)))
  }

  method ParseInventory(text: Text) returns (r: Result<set<Path>, InventoryError>)
    ensures r == InventoryOf(text)
  {
    if text == [] {
      return Err(Empty);
    }
    if text[|text| - 1] != LF {
      return Err(MissingLineFeed);
    }
    if CR in text {
      return Err(CarriageReturn);
    }
    var lines := Lines(text);
    var paths: set<Path> := {};
    var previous: Option<Path> := None;
    for i := 0 to |lines|
      invariant paths == SetOf(lines[..i])
      invariant previous == if i == 0 then None else Some(lines[i - 1])
      invariant FirstError(lines, 0) == FirstError(lines, i)
    {
      var path := lines[i];
      var checked := ValidatePath(path, i + 1);
      if checked.Err? {
        return Err(checked.error);
      }
      if previous.Some? && !Less(previous.value, path) {
        return Err(if previous.value == path then Duplicate(i + 1) else Unsorted(i + 1));
      }
      paths := paths + {path};
      previous := Some(path);
      assert lines[..i + 1] == lines[..i] + [path];
    }
    assert lines[..|lines|] == lines;
    return Ok(paths);
  }

  // The canonical rendering.

  function RenderLines(paths: seq<Path>): Text {
    if paths == [] then [] else paths[0] + [LF] + RenderLines(paths[1..])
  }

  ghost function Render(s: set<Path>): Text {
    RenderLines(Sorted(s))
  }

  ghost predicate ValidInventory(s: set<Path>) {
    s != {} && forall p :: p in s ==> InventoryPath(p)
  }

  predicate NoLineFeeds(paths: seq<Path>) {
    forall k :: 0 <= k < |paths| ==> LF !in paths[k]
  }

  lemma {:induction false} LastField(text: Text)
    requires Terminated(text)
    ensures var fields := Split(text, LF); |fields| >= 2 && fields[|fields| - 1] == []
  {
    if |text| > 1 {
      LastField(text[1..]);
    } else {
      assert Split(text[1..], LF) == [[]];
    }
  }

  lemma {:induction false} JoinRenders(fields: seq<Path>)
    requires |fields| >= 1
    ensures Join(fields, LF) == RenderLines(fields[..|fields| - 1]) + fields[|fields| - 1]
  {
    if |fields| > 1 {
      JoinRenders(fields[1..]);
      var init := fields[..|fields| - 1];
      assert init[1..] == fields[1..][..|fields| - 2];
    }
  }

  /** A terminated text is the rendering of its lines. */
  lemma LinesRender(text: Text)
    requires Terminated(text)
    ensures RenderLines(Lines(text)) == text && NoLineFeeds(Lines(text)) && Lines(text) != []
  {
    LastField(text);
    SplitThenJoin(text, LF);
    JoinRenders(Split(text, LF));
  }

  lemma {:induction false} SplitRender(paths: seq<Path>)
    requires NoLineFeeds(paths)
    ensures Split(RenderLines(paths), LF) == paths + [[]]
  {
    if paths != [] {
      hide Split;
      SplitAtFirst(paths[0], RenderLines(paths[1..]), LF);
      SplitRender(paths[1..]);
    }
  }

  lemma {:induction false} RenderTerminated(paths: seq<Path>)
    requires paths != []
    ensures Terminated(RenderLines(paths))
  {
    if |paths| > 1 {
      RenderTerminated(paths[1..]);
    }
  }

  lemma {:induction false} RenderHasNoCr(paths: seq<Path>)
    ensures CR in RenderLines(paths) <==> exists k :: 0 <= k < |paths| && CR in paths[k]
  {
    if paths != [] {
      RenderHasNoCr(paths[1..]);
      if k: nat :| k < |paths| && CR in paths[k] {
        assert k > 0 ==> paths[1..][k - 1] == paths[k];
      }
      if k: nat :| k < |paths[1..]| && CR in paths[1..][k] {
        assert paths[k + 1] == paths[1..][k];
      }
    }
  }

  ghost predicate Sound(lines: seq<Path>, k: nat)
    requires k < |lines|
  {
    ValidatePath(lines[k], k + 1).Ok? && (k > 0 ==> Less(lines[k - 1], lines[k]))
  }

  lemma {:induction false} FirstErrorNone(lines: seq<Path>, k: nat)
    requires k <= |lines|
    ensures FirstError(lines, k).None? <==> forall i :: k <= i < |lines| ==> Sound(lines, i)
    decreases |lines| - k
  {
    if k < |lines| {
      LessTotal(lines[k], lines[k]);
      FirstErrorNone(lines, k + 1);
      assert LineError(lines, k).None? <==> Sound(lines, k);
    }
  }

  lemma {:induction false} StepsAscend(lines: seq<Path>, i: nat, j: nat)
    requires forall k :: 0 < k < |lines| ==> Less(lines[k - 1], lines[k])
    requires i < j < |lines|
    ensures Less(lines[i], lines[j])
  {
    if i + 1 < j {
      StepsAscend(lines, i, j - 1);
      LessTransitive(lines[i], lines[j - 1], lines[j]);
    }
  }

  ghost predicate AllInventoryPaths(lines: seq<Path>) {
    forall k :: 0 <= k < |lines| ==> InventoryPath(lines[k])
  }

  /** Lines pass exactly when they are ascending inventory paths. */
  lemma LinesPass(lines: seq<Path>)
    requires forall k :: 0 <= k < |lines| ==> LF !in lines[k] && CR !in lines[k]
    ensures FirstError(lines, 0).None? <==> Ascending(lines) && AllInventoryPaths(lines)
  {
    FirstErrorNone(lines, 0);
    forall k | 0 <= k < |lines|
      ensures ValidatePath(lines[k], k + 1).Ok? <==> InventoryPath(lines[k])
    {
      ValidateAcceptsInventoryPaths(lines[k], k + 1);
    }
    hide ValidatePath, InventoryPath, Less, FirstError;
    if FirstError(lines, 0).None? {
      forall k | 0 < k < |lines|
        ensures Less(lines[k - 1], lines[k])
      {
        assert Sound(lines, k);
      }
      forall k | 0 <= k < |lines|
        ensures InventoryPath(lines[k])
      {
        assert Sound(lines, k);
      }
      forall i, j | 0 <= i < j < |lines|
        ensures Less(lines[i], lines[j])
      {
        StepsAscend(lines, i, j);
      }
    } else {
      var k: nat :| k < |lines| && !Sound(lines, k);
      assert k > 0 && InventoryPath(lines[k]) ==> !Less(lines[k - 1], lines[k]);
    }
  }

  lemma AcceptedRenders(text: Text)
    requires InventoryOf(text).Ok?
    ensures ValidInventory(InventoryOf(text).value) && text == Render(InventoryOf(text).value)
  {
    var lines := Lines(text);
    LinesRender(text);
    RenderHasNoCr(lines);
    assert forall k :: 0 <= k < |lines| ==> CR !in lines[k];
    hide Lines, FirstError, InventoryPath;
    LinesPass(lines);
    assert lines[0] in SetOf(lines);
    AscendingUnique(lines, Sorted(SetOf(lines)));
  }

  lemma RenderAccepted(s: set<Path>)
    requires ValidInventory(s)
    ensures InventoryOf(Render(s)) == Ok(s)
  {
    var paths := Sorted(s);
    assert SetOf(paths) == s;
    assert paths == [] ==> SetOf(paths) == {};
    forall k | 0 <= k < |paths|
      ensures InventoryPath(paths[k])
    {
      assert paths[k] in SetOf(paths);
    }
    RenderTerminated(paths);
    SplitRender(paths);
    assert Lines(Render(s)) == paths;
    RenderHasNoCr(paths);
    LinesPass(paths);
  }

  /** A text is accepted with a set exactly when it is the set's canonical rendering. */
  lemma AcceptedExactly(text: Text, s: set<Path>)
    ensures InventoryOf(text) == Ok(s) <==> ValidInventory(s) && text == Render(s)
  {
    hide InventoryOf, Render;
    if InventoryOf(text).Ok? {
      AcceptedRenders(text);
    }
    if ValidInventory(s) {
      RenderAccepted(s);
    }
  }

  /** No two accepted texts list the same paths. */
  lemma AcceptedInjective(a: Text, b: Text)
    requires InventoryOf(a).Ok? && InventoryOf(a) == InventoryOf(b)
    ensures a == b
  {
    hide InventoryOf, Render;
    AcceptedRenders(a);
    AcceptedRenders(b);
  }

  // The package check.

  datatype Difference = Difference(missing: set<Path>, unexpected: set<Path>)

  function CompareInventories(expected: set<Path>, actual: set<Path>): (d: Difference)
    ensures d.missing == {} && d.unexpected == {} <==> expected == actual
    ensures actual == (expected - d.missing) + d.unexpected
  {
    Difference(expected - actual, actual - expected)
  }

  datatype CommandOutcome = NotRun | Ran(success: bool, stdout: seq<byte>)

  datatype CheckError =
    | CommittedInventory(error: InventoryError)
    | CommandFailed
    | NotUtf8
    | ListedInventory(listed: InventoryError)
    | ContentsDiffer(difference: Difference)

  ghost function PackageResult(committed: Text, outcome: CommandOutcome): Result<nat, CheckError> {
    match InventoryOf(committed)
    case Err(error) => Err(CommittedInventory(error))
    case Ok(expected) =>
      if outcome.NotRun? || !outcome.success then Err(CommandFailed)
      else if !Valid(outcome.stdout) then Err(NotUtf8)
      else match InventoryOf(outcome.stdout)
        case Err(error) => Err(ListedInventory(error))
        case Ok(listed) =>
          var difference := CompareInventories(expected, listed + {SYNTHETIC_LOCKFILE});
          if difference.missing == {} && difference.unexpected == {} then Ok(|listed + {SYNTHETIC_LOCKFILE}|)
          else Err(ContentsDiffer(difference))
  }

  method CheckPackage(committed: Text, outcome: CommandOutcome) returns (r: Result<nat, CheckError>)
    ensures r == PackageResult(committed, outcome)
  {
    var expected := ParseInventory(committed);
    if expected.Err? {
      return Err(CommittedInventory(expected.error));
    }
    if outcome.NotRun? || !outcome.success {
      return Err(CommandFailed);
    }
    if !Valid(outcome.stdout) {
      return Err(NotUtf8);
    }
    var listed := ParseInventory(outcome.stdout);
    if listed.Err? {
      return Err(ListedInventory(listed.error));
    }
    var actual := listed.value + {SYNTHETIC_LOCKFILE};
    var difference := CompareInventories(expected.value, actual);
    if difference.missing == {} && difference.unexpected == {} {
      return Ok(|actual|);
    }
    return Err(ContentsDiffer(difference));
  }

  lemma LockfileIsPath()
    ensures InventoryPath(SYNTHETIC_LOCKFILE)
  {
    hide Split;
    var path := SYNTHETIC_LOCKFILE;
    assert forall k :: 0 <= k < |path| ==> path[k] !in [LF, CR, SLASH, BACKSLASH];
    SplitSingle(path, SLASH);
  }

  /** The check passes exactly when the committed text is the rendering of what Cargo lists plus the lockfile. */
  lemma CheckPassesExactly(committed: Text, outcome: CommandOutcome)
    ensures PackageResult(committed, outcome).Ok?
      <==> && outcome.Ran? && outcome.success && Valid(outcome.stdout)
           && InventoryOf(outcome.stdout).Ok?
           && committed == Render(InventoryOf(outcome.stdout).value + {SYNTHETIC_LOCKFILE})
  {
    hide InventoryOf, Render, Valid, InventoryPath;
    LockfileIsPath();
    if outcome.Ran? && InventoryOf(outcome.stdout).Ok? {
      AcceptedRenders(outcome.stdout);
      AcceptedExactly(committed, InventoryOf(outcome.stdout).value + {SYNTHETIC_LOCKFILE});
      if PackageResult(committed, outcome).Ok? {
        AcceptedRenders(committed);
      }
    }
  }

  /** A reported line is the first one that breaks the order or names a bad path. */
  lemma {:induction false} ErrorIsFirst(lines: seq<Path>, k: nat)
    requires k <= |lines| && FirstError(lines, k).Some?
    ensures exists n :: && k <= n < |lines| && FirstError(lines, k) == LineError(lines, n)
                        && !Sound(lines, n) && forall i :: k <= i < n ==> Sound(lines, i)
    decreases |lines| - k
  {
    LessTotal(lines[k], lines[k]);
    assert LineError(lines, k).None? <==> Sound(lines, k);
    if LineError(lines, k).None? {
      ErrorIsFirst(lines, k + 1);
    }
  }
}
