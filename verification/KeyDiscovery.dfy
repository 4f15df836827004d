/** Discovery of an account's public keys over two paginated resources under one byte budget. */
module KeyDiscovery {
  import opened Wrappers
  import opened Sequences
  import opened Whitespace
  import opened Utf8
  import opened Pagination

  const MAX_DISCOVERY_BYTES: nat := 256 * 1024
  const MAX_PAGES_PER_RESOURCE: nat := 10

  datatype DiscoveryError =
    | NotFetched | BadStatus | BadLinks | NotJson | OverBudget | BadJson | BadRecord | PageLimit
    | MalformedKey(line: nat) | InadmissibleKey(line: nat) | NoKeys

  /** The 32 bytes of an Ed25519 point. */
  type Key = seq<byte>

  /** What OpenSSH decoding makes of a line; the decoder itself is a parameter. */
  datatype Decoded = Unreadable | OtherAlgorithm | Inadmissible | Ed25519(key: Key)

  datatype Candidate = Candidate(key: Key, source: Option<Endpoint>)

  // Text.

  function WithoutCr(line: string): string {
    if line != "" && line[|line| - 1] == '\r' then line[..|line| - 1] else line
  }

  /** `str::lines`: a final terminator opens no further line. */
  function Lines(text: string): seq<string> {
    var fields := Split(text, '\n');
    var n := |fields| - 1;
    var lines := if fields[n] == "" then fields[..n] else fields;
    seq(|lines|, i requires 0 <= i < |lines| => WithoutCr(lines[i]))
  }

  /** A key entry that is one nonblank line and not a comment. */
  predicate ListedKey(s: string) {
    && Trim(s) != "" && '\r' !in s && '\n' !in s
    && !(TrimStart(s) != "" && TrimStart(s)[0] == '#')
  }

  function JoinLines(keys: seq<string>): string {
    if keys == [] then "" else Join(keys, '\n')
  }

  lemma {:induction false} JoinThenSplit(keys: seq<string>)
    requires keys != [] && forall k :: 0 <= k < |keys| ==> '\n' !in keys[k]
    ensures Split(Join(keys, '\n'), '\n') == keys
  {
    if |keys| == 1 {
      SplitSingle(keys[0], '\n');
    } else {
      SplitAtFirst(keys[0], Join(keys[1..], '\n'), '\n');
      JoinThenSplit(keys[1..]);
    }
  }

  /** Joining key entries and reading the lines back loses and invents nothing. */
  lemma JoinedLines(keys: seq<string>)
    requires forall k :: 0 <= k < |keys| ==> ListedKey(keys[k])
    ensures Lines(JoinLines(keys)) == keys
  {
    hide White, Split, Join;
    if keys == [] {
      SplitSingle("", '\n');
    } else {
      JoinThenSplit(keys);
      assert Trim("") == "";
      assert ListedKey(keys[|keys| - 1]);
      forall k | 0 <= k < |keys|
        ensures WithoutCr(keys[k]) == keys[k]
      {
        assert ListedKey(keys[k]);
      }
    }
  }

  // Candidates.

  datatype LineClass = Skip | Faulty(inadmissible: bool) | Supported(key: Key)

  function Classify(line: string, decode: string -> Decoded): LineClass {
    var text := Trim(line);
    if text == "" || text[0] == '#' then Skip
    else match decode(text)
      case Unreadable => Faulty(false)
      case OtherAlgorithm => Skip
      case Inadmissible => Faulty(true)
      case Ed25519(key) => Supported(key)
  }

  /** The supported keys of `lines`, repeats included. */
  function SupportedKeys(lines: seq<string>, decode: string -> Decoded): seq<Key> {
    if lines == [] then []
    else
      var n := |lines| - 1;
      var c := Classify(lines[n], decode);
      SupportedKeys(lines[..n], decode) + if c.Supported? then [c.key] else []
  }

  function FirstFault(lines: seq<string>, decode: string -> Decoded): (r: Option<DiscoveryError>)
    ensures r.None? <==> forall k :: 0 <= k < |lines| ==> !Classify(lines[k], decode).Faulty?
  {
    if lines == [] then None
    else
      var n := |lines| - 1;
      var c := Classify(lines[n], decode);
      match FirstFault(lines[..n], decode)
      case Some(error) =>
        var k :| 0 <= k < n && Classify(lines[..n][k], decode).Faulty?;
        assert lines[k] == lines[..n][k];
        Some(error)
      case None =>
        assert forall k :: 0 <= k < n ==> lines[..n][k] == lines[k];
        if c.Faulty? then Some(if c.inadmissible then InadmissibleKey(n + 1) else MalformedKey(n + 1)) else None
  }

  /** Each element once, at its first occurrence. */
  function FirstSeen(keys: seq<Key>): seq<Key> {
    if keys == [] then []
    else
      var n := |keys| - 1;
      var seen := FirstSeen(keys[..n]);
      if keys[n] in seen then seen else seen + [keys[n]]
  }

  function KeysOf(candidates: seq<Candidate>): (keys: seq<Key>)
    ensures |keys| == |candidates|
  {
    seq(|candidates|, i requires 0 <= i < |candidates| => candidates[i].key)
  }

  predicate Known(candidates: seq<Candidate>, key: Key) {
    exists k | 0 <= k < |candidates| :: candidates[k].key == key
  }

  lemma KnownIsListed(candidates: seq<Candidate>, key: Key)
    ensures Known(candidates, key) <==> key in KeysOf(candidates)
  {
    if Known(candidates, key) {
      var k :| 0 <= k < |candidates| && candidates[k].key == key;
      assert KeysOf(candidates)[k] == key;
    }
  }

  lemma NothingRead(decode: string -> Decoded)
    ensures FirstFault([], decode).None? && SupportedKeys([], decode) == [] && FirstSeen([]) == []
  {
  }

  lemma SupportedNext(lines: seq<string>, i: nat, decode: string -> Decoded)
    requires i < |lines|
    ensures var c := Classify(lines[i], decode);
      var before := SupportedKeys(lines[..i], decode);
      SupportedKeys(lines[..i + 1], decode) == if c.Supported? then before + [c.key] else before
  {
    hide Classify;
    assert lines[..i + 1][..i] == lines[..i];
  }

  lemma FirstSeenNext(keys: seq<Key>, key: Key)
    ensures FirstSeen(keys + [key]) == if key in FirstSeen(keys) then FirstSeen(keys) else FirstSeen(keys) + [key]
  {
    assert (keys + [key])[..|keys|] == keys;
  }

  lemma FaultNext(lines: seq<string>, i: nat, decode: string -> Decoded)
    requires i < |lines| && FirstFault(lines[..i], decode).None?
    ensures var c := Classify(lines[i], decode);
      FirstFault(lines[..i + 1], decode)
      == if c.Faulty? then Some(if c.inadmissible then InadmissibleKey(i + 1) else MalformedKey(i + 1)) else None
  {
    hide Classify;
    assert lines[..i + 1][..i] == lines[..i];
  }

  method ParseCandidates(text: string, decode: string -> Decoded) returns (r: Result<seq<Candidate>, DiscoveryError>)
    ensures FirstFault(Lines(text), decode).Some? ==> r == Err(FirstFault(Lines(text), decode).value)
    ensures FirstFault(Lines(text), decode).None? ==>
      && r.Ok? && KeysOf(r.value) == FirstSeen(SupportedKeys(Lines(text), decode))
      && forall k :: 0 <= k < |r.value| ==> r.value[k].source.None?
  {
    hide Lines, Classify, FirstFault, FirstSeen, SupportedKeys;
    var lines := Lines(text);
    var candidates: seq<Candidate> := [];
    NothingRead(decode);
    assert lines[..0] == [];
    for i := 0 to |lines|
      invariant FirstFault(lines[..i], decode).None?
      invariant KeysOf(candidates) == FirstSeen(SupportedKeys(lines[..i], decode))
      invariant forall k :: 0 <= k < |candidates| ==> candidates[k].source.None?
    {
      var c := Classify(lines[i], decode);
      FaultNext(lines, i, decode);
      SupportedNext(lines, i, decode);
      match c
      case Skip =>
      case Faulty(inadmissible) =>
        FaultStays(lines, i + 1, decode);
        return Err(if inadmissible then InadmissibleKey(i + 1) else MalformedKey(i + 1));
      case Supported(key) =>
        FirstSeenNext(SupportedKeys(lines[..i], decode), key);
        KnownIsListed(candidates, key);
        if !Known(candidates, key) {
          assert KeysOf(candidates + [Candidate(key, None)]) == KeysOf(candidates) + [key];
          candidates := candidates + [Candidate(key, None)];
        }
    }
    assert lines[..|lines|] == lines;
    return Ok(candidates);
  }

  lemma {:induction false} FaultStays(lines: seq<string>, i: nat, decode: string -> Decoded)
    requires i <= |lines| && FirstFault(lines[..i], decode).Some?
    ensures FirstFault(lines, decode) == FirstFault(lines[..i], decode)
    decreases |lines|
  {
    if i < |lines| {
      assert lines[..|lines| - 1][..i] == lines[..i];
      FaultStays(lines[..|lines| - 1], i, decode);
    } else {
      assert lines[..i] == lines;
    }
  }

  // Pages.

  /** A response; `records` is its body read as JSON, each entry holding a key string or none. */
  datatype Response = Response(
    status: nat, header: LinkHeader, json: bool, body: seq<byte>, records: Option<seq<Option<string>>>)

  datatype Answer = NoResponse | Answered(response: Response)

  datatype Request = Request(endpoint: Endpoint, page: nat)

  /** Answers come in the order of the requests. */
  class Server {
    const answers: nat -> Answer
    var requests: seq<Request>

    constructor (answers: nat -> Answer)
      ensures this.answers == answers && requests == []
    {
      this.answers := answers;
      requests := [];
    }

    method Get(request: Request) returns (answer: Answer)
      modifies this
      ensures requests == old(requests) + [request]
      ensures answer == answers(|old(requests)|)
    {
      answer := answers(|requests|);
      requests := requests + [request];
    }
  }

  predicate ListedRecords(records: seq<Option<string>>) {
    forall k :: 0 <= k < |records| ==> records[k].Some? && ListedKey(records[k].value)
  }

  function RecordKeys(records: seq<Option<string>>): (keys: seq<string>)
    requires ListedRecords(records)
    ensures forall k :: 0 <= k < |keys| ==> ListedKey(keys[k])
  {
    seq(|records|, i requires 0 <= i < |records| => records[i].value)
  }

  /** The page's keys; the caller charges its body to the budget. */
  function ReadPage(response: Response, remaining: nat): Result<seq<string>, DiscoveryError> {
    if !response.json then Err(NotJson)
    else if |response.body| > remaining then Err(OverBudget)
    else if response.records.None? then Err(BadJson)
    else if !ListedRecords(response.records.value) then Err(BadRecord)
    else Ok(RecordKeys(response.records.value))
  }

  datatype PageContent = PageContent(keys: seq<string>, more: bool, bytes: nat)

  function PageOf(answer: Answer, endpoint: Endpoint, page: nat, remaining: nat): Result<PageContent, DiscoveryError> {
    if answer.NoResponse? then Err(NotFetched)
    else if answer.response.status != 200 then Err(BadStatus)
    else match NextPage(answer.response.header.Links(), endpoint, page)
      case None => Err(BadLinks)
      case Some(more) =>
        match ReadPage(answer.response, remaining)
        case Err(error) => Err(error)
        case Ok(keys) => Ok(PageContent(keys, more, |answer.response.body|))
  }

  /** What a resource yields from `page` on: its keys, or the first failure, and the requests made. */
  datatype Yield = Yield(result: Result<seq<string>, DiscoveryError>, left: nat, calls: nat)

  function Prepend(keys: seq<string>, y: Yield): Yield {
    Yield(if y.result.Ok? then Ok(keys + y.result.value) else y.result, y.left, y.calls + 1)
  }

  function Collect(answers: nat -> Answer, n: nat, endpoint: Endpoint, page: nat, remaining: nat): (y: Yield)
    ensures y.left <= remaining
    ensures page <= MAX_PAGES_PER_RESOURCE + 1 ==> y.calls <= MAX_PAGES_PER_RESOURCE + 1 - page
    decreases MAX_PAGES_PER_RESOURCE + 1 - page
  {
    if page > MAX_PAGES_PER_RESOURCE then Yield(Err(PageLimit), remaining, 0)
    else match PageOf(answers(n), endpoint, page, remaining)
      case Err(error) => Yield(Err(error), remaining, 1)
      case Ok(content) =>
        var rest := remaining - content.bytes;
        if content.more then Prepend(content.keys, Collect(answers, n + 1, endpoint, page + 1, rest))
        else Yield(Ok(content.keys), rest, 1)
  }

  function Requests(endpoint: Endpoint, calls: nat): seq<Request> {
    seq(calls, i requires 0 <= i < calls => Request(endpoint, i + 1))
  }

  /** `keys` read so far on the first `page - 1` pages, followed by what the rest yields, is the whole. */
  ghost predicate Continues(whole: Yield, keys: seq<string>, page: nat, rest: Yield) {
    && whole.left == rest.left
    && whole.calls == page - 1 + rest.calls
    && whole.result == if rest.result.Ok? then Ok(keys + rest.result.value) else rest.result
  }

  lemma PageWithinBudget(answer: Answer, endpoint: Endpoint, page: nat, remaining: nat)
    requires PageOf(answer, endpoint, page, remaining).Ok?
    ensures PageOf(answer, endpoint, page, remaining).value.bytes <= remaining
  {
  }

  method GetPage(server: Server, endpoint: Endpoint, page: nat, remaining: nat)
    returns (r: Result<PageContent, DiscoveryError>)
    modifies server
    ensures server.requests == old(server.requests) + [Request(endpoint, page)]
    ensures r == PageOf(server.answers(|old(server.requests)|), endpoint, page, remaining)
  {
    hide NextPage, ReadPage;
    var answer := server.Get(Request(endpoint, page));
    if answer.NoResponse? {
      return Err(NotFetched);
    }
    if answer.response.status != 200 {
      return Err(BadStatus);
    }
    var more := HasNextPage(answer.response.header, endpoint, page);
    if more.None? {
      return Err(BadLinks);
    }
    var keys := ReadPage(answer.response, remaining);
    if keys.Err? {
      return Err(keys.error);
    }
    return Ok(PageContent(keys.value, more.value, |answer.response.body|));
  }

  lemma CollectStarts(answers: nat -> Answer, n: nat, endpoint: Endpoint, budget: nat)
    ensures var y := Collect(answers, n, endpoint, 1, budget); Continues(y, [], 1, y)
  {
    var y := Collect(answers, n, endpoint, 1, budget);
    assert y.result.Ok? ==> [] + y.result.value == y.result.value;
  }

  lemma CollectStep(
    answers: nat -> Answer, n: nat, endpoint: Endpoint, page: nat, remaining: nat, whole: Yield, keys: seq<string>)
    requires page > 0 && Continues(whole, keys, page, Collect(answers, n, endpoint, page, remaining))
    ensures page > MAX_PAGES_PER_RESOURCE ==> whole == Yield(Err(PageLimit), remaining, page - 1)
    ensures page <= MAX_PAGES_PER_RESOURCE ==>
      match PageOf(answers(n), endpoint, page, remaining)
      case Err(error) => whole == Yield(Err(error), remaining, page)
      case Ok(content) =>
        && content.bytes <= remaining
        && var after := keys + content.keys;
        && if content.more
           then Continues(whole, after, page + 1,
                           Collect(answers, n + 1, endpoint, page + 1, remaining - content.bytes))
           else whole == Yield(Ok(after), remaining - content.bytes, page)
  {
    hide PageOf;
    if page <= MAX_PAGES_PER_RESOURCE && PageOf(answers(n), endpoint, page, remaining).Ok? {
      PageWithinBudget(answers(n), endpoint, page, remaining);
      var content := PageOf(answers(n), endpoint, page, remaining).value;
      var rest := Collect(answers, n + 1, endpoint, page + 1, remaining - content.bytes);
      assert rest.result.Ok? ==> keys + (content.keys + rest.result.value) == keys + content.keys + rest.result.value;
    }
  }

  method FetchResourcePages(server: Server, endpoint: Endpoint, budget: nat)
    returns (r: Result<seq<string>, DiscoveryError>, left: nat)
    modifies server
    ensures var y := Collect(server.answers, |old(server.requests)|, endpoint, 1, budget);
      && r == y.result && left == y.left && server.requests == old(server.requests) + Requests(endpoint, y.calls)
      && y.calls <= MAX_PAGES_PER_RESOURCE
  {
    hide PageOf, Collect, Continues;
    var keys: seq<string> := [];
    var remaining: nat := budget;
    ghost var start := |server.requests|;
    ghost var whole := Collect(server.answers, start, endpoint, 1, budget);
    CollectStarts(server.answers, start, endpoint, budget);
    for page := 1 to MAX_PAGES_PER_RESOURCE + 1
      invariant server.requests == old(server.requests) + Requests(endpoint, page - 1)
      invariant Continues(whole, keys, page, Collect(server.answers, start + page - 1, endpoint, page, remaining))
    {
      CollectStep(server.answers, start + page - 1, endpoint, page, remaining, whole, keys);
      var content := GetPage(server, endpoint, page, remaining);
      assert Requests(endpoint, page) == Requests(endpoint, page - 1) + [Request(endpoint, page)];
      if content.Err? {
        return Err(content.error), remaining;
      }
      remaining := remaining - content.value.bytes;
      keys := keys + content.value.keys;
      if !content.value.more {
        return Ok(keys), remaining;
      }
    }
    CollectStep(
      server.answers, start + MAX_PAGES_PER_RESOURCE, endpoint, MAX_PAGES_PER_RESOURCE + 1, remaining, whole, keys);
    return Err(PageLimit), remaining;
  }

  // Complete page lists.

  ghost predicate Proper(answer: Answer, endpoint: Endpoint, page: nat, more: bool) {
    && answer.Answered? && answer.response.status == 200
    && NextPage(answer.response.header.Links(), endpoint, page) == Some(more)
    && answer.response.json && answer.response.records.Some? && ListedRecords(answer.response.records.value)
  }

  /** The `k` answers from `n` on are the resource's pages from `page` to its last one, at most the tenth. */
  ghost predicate Complete(answers: nat -> Answer, n: nat, endpoint: Endpoint, page: nat, k: nat)
    decreases k
  {
    && 1 <= k && page <= MAX_PAGES_PER_RESOURCE
    && Proper(answers(n), endpoint, page, k > 1)
    && (k > 1 ==> Complete(answers, n + 1, endpoint, page + 1, k - 1))
  }

  function BodySize(answer: Answer): nat {
    if answer.Answered? then |answer.response.body| else 0
  }

  function TotalBytes(answers: nat -> Answer, n: nat, k: nat): nat
    decreases k
  {
    if k == 0 then 0 else BodySize(answers(n)) + TotalBytes(answers, n + 1, k - 1)
  }

  function PageKeys(answer: Answer): seq<string> {
    if answer.Answered? && answer.response.records.Some? && ListedRecords(answer.response.records.value)
    then RecordKeys(answer.response.records.value) else []
  }

  function AllKeys(answers: nat -> Answer, n: nat, k: nat): seq<string>
    decreases k
  {
    if k == 0 then [] else PageKeys(answers(n)) + AllKeys(answers, n + 1, k - 1)
  }

  lemma PageOfProper(answer: Answer, endpoint: Endpoint, page: nat, remaining: nat)
    ensures var p := PageOf(answer, endpoint, page, remaining);
      && (p.Ok? ==> Proper(answer, endpoint, page, p.value.more) && BodySize(answer) <= remaining)
      && (p.Ok? ==> p.value == PageContent(PageKeys(answer), p.value.more, BodySize(answer)))
      && forall more :: Proper(answer, endpoint, page, more) && BodySize(answer) <= remaining ==>
            p.Ok? && p.value.more == more
  {
    hide NextPage, ListedRecords;
  }

  /** A resource yields keys only from a complete page list within the budget, and then exactly its keys. */
  lemma {:induction false} CollectSound(answers: nat -> Answer, n: nat, endpoint: Endpoint, page: nat, remaining: nat)
    ensures var y := Collect(answers, n, endpoint, page, remaining);
      y.result.Ok? ==>
        && Complete(answers, n, endpoint, page, y.calls)
        && y.left + TotalBytes(answers, n, y.calls) == remaining
        && y.result.value == AllKeys(answers, n, y.calls)
    decreases MAX_PAGES_PER_RESOURCE + 1 - page
  {
    hide PageOf, Proper, PageKeys, BodySize;
    if page <= MAX_PAGES_PER_RESOURCE {
      PageOfProper(answers(n), endpoint, page, remaining);
      var p := PageOf(answers(n), endpoint, page, remaining);
      if p.Ok? && p.value.more {
        var rest := remaining - p.value.bytes;
        CollectSound(answers, n + 1, endpoint, page + 1, rest);
        var y := Collect(answers, n + 1, endpoint, page + 1, rest);
        assert y.result.Ok? ==> Complete(answers, n, endpoint, page, y.calls + 1);
      } else if p.Ok? {
        assert AllKeys(answers, n, 1) == PageKeys(answers(n)) + AllKeys(answers, n + 1, 0);
        assert TotalBytes(answers, n, 1) == BodySize(answers(n)) + TotalBytes(answers, n + 1, 0);
      }
    }
  }

  /** Every complete page list within the budget is collected. */
  lemma {:induction false} CollectTotal(
    answers: nat -> Answer, n: nat, endpoint: Endpoint, page: nat, remaining: nat, k: nat)
    requires Complete(answers, n, endpoint, page, k) && TotalBytes(answers, n, k) <= remaining
    ensures var y := Collect(answers, n, endpoint, page, remaining); y.result.Ok? && y.calls == k
    decreases k
  {
    hide PageOf, Proper, PageKeys, BodySize;
    PageOfProper(answers(n), endpoint, page, remaining);
    if k > 1 {
      CollectTotal(answers, n + 1, endpoint, page + 1, remaining - BodySize(answers(n)), k - 1);
    }
  }

  // Both resources.

  lemma {:induction false} FirstSeenMembers(keys: seq<Key>, key: Key)
    ensures key in FirstSeen(keys) <==> key in keys
  {
    if keys != [] {
      var n := |keys| - 1;
      FirstSeenMembers(keys[..n], key);
      FirstSeenMembers(keys[..n], keys[n]);
      assert keys == keys[..n] + [keys[n]];
    }
  }

  lemma {:induction false} FirstSeenDistinct(keys: seq<Key>)
    ensures forall i, j :: 0 <= i < j < |FirstSeen(keys)| ==> FirstSeen(keys)[i] != FirstSeen(keys)[j]
  {
    if keys != [] {
      FirstSeenDistinct(keys[..|keys| - 1]);
    }
  }

  /** What was seen first stays first when more follows. */
  lemma {:induction false} FirstSeenGrows(a: seq<Key>, b: seq<Key>)
    ensures FirstSeen(a) <= FirstSeen(a + b)
    decreases |b|
  {
    if b == [] {
      assert a + b == a;
    } else {
      var n := |b| - 1;
      FirstSeenGrows(a, b[..n]);
      assert a + b == a + b[..n] + [b[n]];
      FirstSeenNext(a + b[..n], b[n]);
    }
  }

  lemma {:induction false} FirstSeenAgain(keys: seq<Key>)
    ensures FirstSeen(FirstSeen(keys)) == FirstSeen(keys)
  {
    if keys != [] {
      var n := |keys| - 1;
      FirstSeenAgain(keys[..n]);
      FirstSeenNext(FirstSeen(keys[..n]), keys[n]);
    }
  }

  /** Removing repeats within each list first changes nothing. */
  lemma {:induction false} FirstSeenTwice(a: seq<Key>, b: seq<Key>)
    ensures FirstSeen(FirstSeen(a) + FirstSeen(b)) == FirstSeen(a + b)
    decreases |b|
  {
    hide FirstSeen;
    if b == [] {
      FirstSeenAgain(a);
      FirstSeenEmpty();
      assert a + b == a && FirstSeen(a) + FirstSeen(b) == FirstSeen(a);
    } else {
      var n := |b| - 1;
      var fa, fb := FirstSeen(a), FirstSeen(b[..n]);
      FirstSeenTwice(a, b[..n]);
      assert a + b == a + b[..n] + [b[n]] && b == b[..n] + [b[n]];
      FirstSeenNext(a + b[..n], b[n]);
      FirstSeenNext(b[..n], b[n]);
      FirstSeenMembers(b[..n], b[n]);
      FirstSeenMembers(a + b[..n], b[n]);
      if b[n] !in fb {
        assert fa + (fb + [b[n]]) == fa + fb + [b[n]];
        FirstSeenNext(fa + fb, b[n]);
      }
    }
  }

  lemma FirstSeenEmpty()
    ensures FirstSeen([]) == []
  {
  }

  /** The distinct keys of both resources, each attributed to the first that lists it. */
  function Attributed(first: seq<Key>, second: seq<Key>, e: (Endpoint, Endpoint)): seq<Candidate> {
    var keys := FirstSeen(first + second);
    seq(|keys|, i requires 0 <= i < |keys| => Candidate(keys[i], Some(if keys[i] in first then e.0 else e.1)))
  }

  /** Adds the candidates not yet known, in order, with their source. */
  method Merge(candidates: seq<Candidate>, found: seq<Candidate>, endpoint: Endpoint) returns (r: seq<Candidate>)
    requires FirstSeen(KeysOf(candidates)) == KeysOf(candidates)
    ensures candidates <= r && KeysOf(r) == FirstSeen(KeysOf(candidates) + KeysOf(found))
    ensures forall k :: |candidates| <= k < |r| ==> r[k].source == Some(endpoint)
  {
    hide FirstSeen;
    r := candidates;
    ghost var before := KeysOf(candidates);
    assert before + KeysOf(found[..0]) == before;
    for i := 0 to |found|
      invariant candidates <= r && KeysOf(r) == FirstSeen(before + KeysOf(found[..i]))
      invariant forall k :: |candidates| <= k < |r| ==> r[k].source == Some(endpoint)
    {
      var key := found[i].key;
      assert before + KeysOf(found[..i + 1]) == before + KeysOf(found[..i]) + [key];
      FirstSeenNext(before + KeysOf(found[..i]), key);
      KnownIsListed(r, key);
      if !Known(r, key) {
        assert KeysOf(r + [Candidate(key, Some(endpoint))]) == KeysOf(r) + [key];
        r := r + [Candidate(key, Some(endpoint))];
      }
    }
    assert found[..|found|] == found;
  }

  function KeyEndpoints(account: string): (Endpoint, Endpoint) {
    (Endpoint(account, "keys"), Endpoint(account, "ssh_signing_keys"))
  }

  /** One resource: its distinct supported keys, or the first failure. */
  function Resource(y: Yield, decode: string -> Decoded): Result<seq<Key>, DiscoveryError> {
    if y.result.Err? then Err(y.result.error)
    else match FirstFault(y.result.value, decode)
      case Some(error) => Err(error)
      case None => Ok(SupportedKeys(y.result.value, decode))
  }

  function FirstYield(answers: nat -> Answer, account: string): Yield {
    Collect(answers, 0, KeyEndpoints(account).0, 1, MAX_DISCOVERY_BYTES)
  }

  function SecondYield(answers: nat -> Answer, account: string): Yield {
    var first := FirstYield(answers, account);
    Collect(answers, first.calls, KeyEndpoints(account).1, 1, first.left)
  }

  function Discover(answers: nat -> Answer, account: string, decode: string -> Decoded):
    Result<seq<Candidate>, DiscoveryError>
  {
    match Resource(FirstYield(answers, account), decode)
    case Err(error) => Err(error)
    case Ok(first) =>
      match Resource(SecondYield(answers, account), decode)
      case Err(error) => Err(error)
      case Ok(second) =>
        var candidates := Attributed(first, second, KeyEndpoints(account));
        if candidates == [] then Err(NoKeys) else Ok(candidates)
  }

  ghost predicate AllListed(keys: seq<string>) {
    forall k :: 0 <= k < |keys| ==> ListedKey(keys[k])
  }

  lemma PageListed(answer: Answer, endpoint: Endpoint, page: nat, remaining: nat)
    ensures var p := PageOf(answer, endpoint, page, remaining);
      p.Ok? ==> p.value.bytes <= remaining && AllListed(p.value.keys)
  {
    hide NextPage, ListedKey;
  }

  /** The pages of the first resource in order, and those of the second once the first was read whole. */
  function DiscoveryRequests(answers: nat -> Answer, account: string, decode: string -> Decoded): seq<Request> {
    var first := FirstYield(answers, account);
    Requests(KeyEndpoints(account).0, first.calls)
    + if Resource(first, decode).Err? then []
      else Requests(KeyEndpoints(account).1, SecondYield(answers, account).calls)
  }

  lemma {:induction false} CollectedListed(
    answers: nat -> Answer, n: nat, endpoint: Endpoint, page: nat, remaining: nat)
    ensures var y := Collect(answers, n, endpoint, page, remaining);
      y.result.Ok? ==> AllListed(y.result.value)
    decreases MAX_PAGES_PER_RESOURCE + 1 - page
  {
    hide PageOf, ListedKey;
    if page <= MAX_PAGES_PER_RESOURCE {
      PageListed(answers(n), endpoint, page, remaining);
      var p := PageOf(answers(n), endpoint, page, remaining);
      if p.Ok? && p.value.more {
        CollectedListed(answers, n + 1, endpoint, page + 1, remaining - p.value.bytes);
      }
    }
  }

  method FetchResource(server: Server, endpoint: Endpoint, budget: nat, decode: string -> Decoded)
    returns (r: Result<seq<Candidate>, DiscoveryError>, left: nat)
    modifies server
    ensures var y := Collect(server.answers, |old(server.requests)|, endpoint, 1, budget);
      && left == y.left && server.requests == old(server.requests) + Requests(endpoint, y.calls)
      && y.calls <= MAX_PAGES_PER_RESOURCE
      && match Resource(y, decode)
         case Err(error) => r == Err(error)
         case Ok(keys) => r.Ok? && KeysOf(r.value) == FirstSeen(keys)
  {
    hide Collect, Lines, FirstSeen, FirstFault, SupportedKeys;
    CollectedListed(server.answers, |server.requests|, endpoint, 1, budget);
    var keys;
    keys, left := FetchResourcePages(server, endpoint, budget);
    if keys.Err? {
      return Err(keys.error), left;
    }
    JoinedLines(keys.value);
    r := ParseCandidates(JoinLines(keys.value), decode);
  }

  lemma AttributedTwice(
    first: seq<Key>, second: seq<Key>, e: (Endpoint, Endpoint), before: seq<Candidate>, after: seq<Candidate>)
    requires KeysOf(before) == FirstSeen(first) && before <= after
    requires KeysOf(after) == FirstSeen(first + second)
    requires forall k :: 0 <= k < |before| ==> before[k].source == Some(e.0)
    requires forall k :: |before| <= k < |after| ==> after[k].source == Some(e.1)
    ensures after == Attributed(first, second, e)
  {
    FirstSeenDistinct(first + second);
    hide FirstSeen;
    forall k | 0 <= k < |after|
      ensures after[k] == Attributed(first, second, e)[k]
    {
      assert KeysOf(after)[k] == after[k].key;
      FirstSeenMembers(first, after[k].key);
      if k < |before| {
        assert KeysOf(before)[k] == after[k].key;
      } else if after[k].key in KeysOf(before) {
        var j :| 0 <= j < |before| && KeysOf(before)[j] == after[k].key;
        assert KeysOf(after)[j] == before[j].key;
      }
    }
  }

  method FetchPages(server: Server, account: string, decode: string -> Decoded)
    returns (r: Result<seq<Candidate>, DiscoveryError>)
    requires server.requests == []
    modifies server
    ensures r == Discover(server.answers, account, decode)
    ensures server.requests == DiscoveryRequests(server.answers, account, decode)
    ensures |server.requests| <= 2 * MAX_PAGES_PER_RESOURCE
  {
    hide Collect, FirstSeen, Resource, Attributed;
    var remaining := MAX_DISCOVERY_BYTES;
    var endpoints := KeyEndpoints(account);
    FirstSeenEmpty();
    var found;
    found, remaining := FetchResource(server, endpoints.0, remaining, decode);
    if found.Err? {
      return found;
    }
    ghost var first := Resource(FirstYield(server.answers, account), decode).value;
    assert KeysOf([]) + KeysOf(found.value) == FirstSeen(first);
    FirstSeenAgain(first);
    var candidates := Merge([], found.value, endpoints.0);
    found, remaining := FetchResource(server, endpoints.1, remaining, decode);
    if found.Err? {
      return found;
    }
    ghost var second := Resource(SecondYield(server.answers, account), decode).value;
    FirstSeenTwice(first, second);
    ghost var before := candidates;
    candidates := Merge(candidates, found.value, endpoints.1);
    AttributedTwice(first, second, endpoints, before, candidates);
    return if candidates == [] then Err(NoKeys) else Ok(candidates);
  }

  /** `k` pages of the first resource and `m` of the second, complete, within the budget and all readable. */
  ghost predicate Lookup(answers: nat -> Answer, account: string, decode: string -> Decoded, k: nat, m: nat) {
    && Complete(answers, 0, KeyEndpoints(account).0, 1, k)
    && Complete(answers, k, KeyEndpoints(account).1, 1, m)
    && TotalBytes(answers, 0, k) + TotalBytes(answers, k, m) <= MAX_DISCOVERY_BYTES
    && FirstFault(AllKeys(answers, 0, k), decode).None?
    && FirstFault(AllKeys(answers, k, m), decode).None?
  }

  /** A lookup's keys, in the order the pages list them, repeats included. */
  ghost function Listed(answers: nat -> Answer, decode: string -> Decoded, n: nat, k: nat): seq<Key> {
    SupportedKeys(AllKeys(answers, n, k), decode)
  }

  lemma CompleteIsNonempty(answers: nat -> Answer, n: nat, endpoint: Endpoint, page: nat, k: nat)
    requires Complete(answers, n, endpoint, page, k)
    ensures k >= 1
  {
  }

  lemma LookupIsDiscovered(answers: nat -> Answer, account: string, decode: string -> Decoded, k: nat, m: nat)
    requires Lookup(answers, account, decode, k, m)
    ensures FirstYield(answers, account).calls == k && SecondYield(answers, account).calls == m
    ensures 1 <= k <= MAX_PAGES_PER_RESOURCE && 1 <= m <= MAX_PAGES_PER_RESOURCE
    ensures SecondYield(answers, account).left + TotalBytes(answers, 0, k) + TotalBytes(answers, k, m)
      == MAX_DISCOVERY_BYTES
    ensures var first, second := Listed(answers, decode, 0, k), Listed(answers, decode, k, m);
      Discover(answers, account, decode)
      == if first + second == [] then Err(NoKeys) else Ok(Attributed(first, second, KeyEndpoints(account)))
  {
    hide Collect, Complete, TotalBytes, AllKeys, FirstFault, SupportedKeys, FirstSeen;
    var e := KeyEndpoints(account);
    CompleteIsNonempty(answers, 0, e.0, 1, k);
    CompleteIsNonempty(answers, k, e.1, 1, m);
    CollectTotal(answers, 0, e.0, 1, MAX_DISCOVERY_BYTES, k);
    CollectSound(answers, 0, e.0, 1, MAX_DISCOVERY_BYTES);
    var left := FirstYield(answers, account).left;
    CollectTotal(answers, k, e.1, 1, left, m);
    CollectSound(answers, k, e.1, 1, left);
    var all := Listed(answers, decode, 0, k) + Listed(answers, decode, k, m);
    FirstSeenEmpty();
    if all != [] {
      FirstSeenMembers(all, all[0]);
    }
  }

  /**
   * A lookup succeeds exactly when both resources are complete page lists within the shared budget, every key
   * on them can be read and some key is supported.
   */
  lemma DiscoveryExactly(answers: nat -> Answer, account: string, decode: string -> Decoded)
    ensures Discover(answers, account, decode).Ok? <==>
      exists k, m ::
        Lookup(answers, account, decode, k, m) && Listed(answers, decode, 0, k) + Listed(answers, decode, k, m) != []
  {
    hide Collect, Complete, TotalBytes, AllKeys, FirstFault, SupportedKeys, FirstSeen, Attributed;
    if Discover(answers, account, decode).Ok? {
      var e := KeyEndpoints(account);
      var first, second := FirstYield(answers, account), SecondYield(answers, account);
      CollectSound(answers, 0, e.0, 1, MAX_DISCOVERY_BYTES);
      CollectSound(answers, first.calls, e.1, 1, first.left);
      assert Lookup(answers, account, decode, first.calls, second.calls);
      LookupIsDiscovered(answers, account, decode, first.calls, second.calls);
    }
    forall k, m | Lookup(answers, account, decode, k, m)
      ensures Discover(answers, account, decode).Ok?
        <==> Listed(answers, decode, 0, k) + Listed(answers, decode, k, m) != []
    {
      LookupIsDiscovered(answers, account, decode, k, m);
    }
  }

  /** The result names every supported key of both resources once, by the first resource that lists it. */
  lemma AttributedIs(first: seq<Key>, second: seq<Key>, e: (Endpoint, Endpoint))
    ensures var candidates := Attributed(first, second, e);
      && (forall key :: Known(candidates, key) <==> key in first || key in second)
      && (forall i, j :: 0 <= i < j < |candidates| ==> candidates[i].key != candidates[j].key)
      && (forall i :: 0 <= i < |candidates| ==>
            candidates[i].source == Some(if candidates[i].key in first then e.0 else e.1))
  {
    var candidates := Attributed(first, second, e);
    FirstSeenDistinct(first + second);
    forall key
      ensures Known(candidates, key) <==> key in first || key in second
    {
      FirstSeenMembers(first + second, key);
      KnownIsListed(candidates, key);
      assert KeysOf(candidates) == FirstSeen(first + second);
    }
  }
}
