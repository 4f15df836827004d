/** Reading the next page number out of Link headers. */
module Pagination {
  import opened Wrappers
  import opened Sequences
  import opened Decimal
  import opened Whitespace

  const PER_PAGE: nat := 100
  const API_HOST := "api.github.com"

  /** One of an account's two key resources. */
  datatype Endpoint = Endpoint(account: string, resource: string) {
    function Path(): string {
      "/users/" + account + "/" + resource
    }

    function Suffix(): string {
      "/" + resource
    }
  }

  datatype Uri = Uri(scheme: Option<string>, authority: Option<string>, path: string, query: Option<string>)

  /** A link with its relations; its target may fail to parse, and may hold a fragment. */
  datatype Link = Malformed | Link(relations: seq<string>, uri: Option<Uri>, fragment: bool)

  const NEXT := "next"

  predicate Digits(s: string) {
    s != "" && AllDigits(s)
  }

  function StripSuffix(s: string, suffix: string): (r: Option<string>)
    ensures r.Some? ==> s == r.value + suffix
    ensures r.None? ==> |suffix| > |s| || s[|s| - |suffix|..] != suffix
  {
    if |suffix| <= |s| && s[|s| - |suffix|..] == suffix then Some(s[..|s| - |suffix|]) else None
  }

  /** `/user/NUMERIC_ID` in front of the same resource. */
  predicate NumericAlias(path: string, endpoint: Endpoint) {
    var rest := StripPrefix(path, "/user/");
    rest.Some?
    && var id := StripSuffix(rest.value, endpoint.Suffix());
    id.Some? && Digits(id.value)
  }

  predicate OnResource(uri: Uri, fragment: bool, endpoint: Endpoint) {
    && uri.scheme == Some("https")
    && uri.authority == Some(API_HOST)
    && !fragment
    && (uri.path == endpoint.Path() || NumericAlias(uri.path, endpoint))
  }

  datatype Parameter = Page(number: nat) | PerPage(number: nat)

  function ParameterOf(text: string): Option<Parameter> {
    match SplitOnce(text, '=')
    case None => None
    case Some((name, value)) =>
      match ParseU64(value)
      case None => None
      case Some(n) =>
        if name == "page" then Some(Page(n)) else if name == "per_page" then Some(PerPage(n)) else None
  }

  /** The query names the page and the page size, each once and nothing else. */
  predicate Selects(parameters: seq<string>, page: nat, perPage: nat) {
    && |parameters| == 2
    && ( || (ParameterOf(parameters[0]) == Some(Page(page)) && ParameterOf(parameters[1]) == Some(PerPage(perPage)))
         || (ParameterOf(parameters[0]) == Some(PerPage(perPage)) && ParameterOf(parameters[1]) == Some(Page(page))))
  }

  method ReadQuery(parameters: seq<string>, page: nat) returns (advances: bool)
    ensures advances <==> Selects(parameters, page + 1, PER_PAGE)
  {
    hide ParameterOf;
    var nextPage: Option<nat>, perPage: Option<nat> := None, None;
    for i := 0 to |parameters|
      invariant forall k :: 0 <= k < i ==> ParameterOf(parameters[k]).Some?
      invariant i == (if nextPage.Some? then 1 else 0) + (if perPage.Some? then 1 else 0)
      invariant i == 1 && nextPage.Some? ==> ParameterOf(parameters[0]) == Some(Page(nextPage.value))
      invariant i == 1 && perPage.Some? ==> ParameterOf(parameters[0]) == Some(PerPage(perPage.value))
      invariant i == 2 ==> Selects(parameters[..2], nextPage.value, perPage.value)
    {
      match ParameterOf(parameters[i])
      case None => return false;
      case Some(Page(n)) =>
        if nextPage.Some? {
          return false;
        }
        nextPage := Some(n);
      case Some(PerPage(n)) =>
        if perPage.Some? {
          return false;
        }
        perPage := Some(n);
    }
    return nextPage == Some(page + 1) && perPage == Some(PER_PAGE);
  }

  predicate Plain(link: Link) {
    link.Link? && NEXT !in link.relations
  }

  /** A link to the page after `page` of the same resource. */
  predicate Advances(link: Link, endpoint: Endpoint, page: nat) {
    && link.Link? && NEXT in link.relations
    && link.uri.Some? && OnResource(link.uri.value, link.fragment, endpoint)
    && link.uri.value.query.Some? && Selects(Split(link.uri.value.query.value, '&'), page + 1, PER_PAGE)
  }

  predicate AllPlainBut(links: seq<Link>, k: nat) {
    forall i :: 0 <= i < |links| && i != k ==> Plain(links[i])
  }

  /** No next link, or exactly one and it advances by one page; anything else is refused. */
  function NextPage(links: seq<Link>, endpoint: Endpoint, page: nat): Option<bool> {
    if AllPlainBut(links, |links|) then Some(false)
    else if exists k | 0 <= k < |links| :: Advances(links[k], endpoint, page) && AllPlainBut(links, k) then Some(true)
    else None
  }

  // The header's text.

  /** Links of the form `<URL>; rel="..."`; parameters other than `rel` are passed over. */
  function RelationOf(parameters: seq<string>, found: Option<string>): Option<string> {
    if parameters == [] then found
    else match SplitOnce(Trim(parameters[0]), '=')
      case None => None
      case Some((name, value)) =>
        if name != "rel" then RelationOf(parameters[1..], found)
        else if found.Some? then None
        else RelationOf(parameters[1..], Some(TrimMatches(value, '"')))
  }

  predicate StartsWith(s: string, c: char) {
    s != "" && s[0] == c
  }

  function LinkOf(text: string, parse: string -> Option<Uri>): Link {
    match SplitOnce(Trim(text), '>')
    case None => Malformed
    case Some((target, parameters)) =>
      if !StartsWith(target, '<') || !StartsWith(TrimStart(parameters), ';') then Malformed
      else match RelationOf(Split(parameters, ';')[1..], None)
        case None => Malformed
        case Some(relation) => Link(Words(relation), parse(target[1..]), '#' in target[1..])
  }

  function LinksOf(texts: seq<string>, parse: string -> Option<Uri>): seq<Link> {
    if texts == [] then [] else [LinkOf(texts[0], parse)] + LinksOf(texts[1..], parse)
  }

  function AllLinks(values: seq<Option<string>>, parse: string -> Option<Uri>): seq<Link> {
    if values == [] then []
    else
      (if values[0].None? then [Malformed] else LinksOf(Split(values[0].value, ','), parse))
      + AllLinks(values[1..], parse)
  }

  /** The values of a response's Link headers, none for one that is not text; URI syntax is a parameter. */
  datatype LinkHeader = LinkHeader(values: seq<Option<string>>, parse: string -> Option<Uri>) {
    function Links(): seq<Link> {
      AllLinks(values, parse)
    }
  }

  method ReadRelation(parameters: seq<string>) returns (relation: Option<string>)
    ensures relation == RelationOf(parameters, None)
  {
    relation := None;
    for i := 0 to |parameters|
      invariant RelationOf(parameters, None) == RelationOf(parameters[i..], relation)
    {
      assert parameters[i..][1..] == parameters[i + 1..];
      var parameter := SplitOnce(Trim(parameters[i]), '=');
      if parameter.None? {
        return None;
      }
      var (name, value) := parameter.value;
      if name == "rel" {
        if relation.Some? {
          return None;
        }
        relation := Some(TrimMatches(value, '"'));
      }
    }
  }

  method ReadLink(text: string, parse: string -> Option<Uri>) returns (link: Link)
    ensures link == LinkOf(text, parse)
  {
    var parts := SplitOnce(Trim(text), '>');
    if parts.None? {
      return Malformed;
    }
    var (target, parameters) := parts.value;
    if !StartsWith(target, '<') || !StartsWith(TrimStart(parameters), ';') {
      return Malformed;
    }
    var relation := ReadRelation(Split(parameters, ';')[1..]);
    if relation.None? {
      return Malformed;
    }
    return Link(Words(relation.value), parse(target[1..]), '#' in target[1..]);
  }

  predicate WordChar(c: char) {
    'a' <= c <= 'z' || c == '-'
  }

  predicate Word(s: string) {
    s != "" && forall k :: 0 <= k < |s| ==> WordChar(s[k])
  }

  const QUOTE: string := ['"']

  function Quoted(word: string): string {
    QUOTE + word + QUOTE
  }

  /** The documented `rel` parameter. */
  function Rel(word: string): string {
    "rel=" + Quoted(word)
  }

  function Parameters(word: string): string {
    [';', ' '] + Rel(word)
  }

  function Documented(target: string, word: string): string {
    ['<'] + target + ['>'] + Parameters(word)
  }

  lemma RelationReadsBack(word: string)
    requires Word(word)
    ensures RelationOf([[' '] + Rel(word)], None) == Some(word)
  {
    hide SplitOnce, TrimMatches, Trim, Word;
    RelTrimmed(word);
    RelSplit(word);
    QuotesTrimmed(word);
    assert [[' '] + Rel(word)][1..] == [];
  }

  lemma RelTrimmed(word: string)
    ensures Trim([' '] + Rel(word)) == Rel(word)
  {
    hide Trim;
    var rel := Rel(word);
    assert rel[0] == 'r' && rel[|rel| - 1] == '"';
    TrimDropsSpace(rel);
  }

  lemma RelSplit(word: string)
    ensures SplitOnce(Rel(word), '=') == Some(("rel", Quoted(word)))
  {
    hide SplitOnce;
    SplitOnceUnique("rel", Quoted(word), '=');
    assert Rel(word) == "rel" + ['='] + Quoted(word);
  }

  lemma QuotesTrimmed(word: string)
    requires Word(word)
    ensures TrimMatches(Quoted(word), '"') == word
  {
    hide TrimMatches;
    assert WordChar(word[0]) && WordChar(word[|word| - 1]);
    TrimMatchesBoth(word, '"');
    assert Quoted(word) == ['"'] + word + ['"'];
  }

  lemma WordIsOne(word: string)
    requires Word(word)
    ensures Words(word) == [word]
  {
    hide Words;
    forall k | 0 <= k < |word|
      ensures !AsciiWhite(word[k])
    {
      assert WordChar(word[k]);
    }
    OneWord(word);
  }

  lemma ParametersSplit(word: string)
    requires Word(word)
    ensures Split(Parameters(word), ';')[1..] == [[' '] + Rel(word)]
  {
    hide Split;
    var rest := [' '] + Rel(word);
    forall k | 0 <= k < |rest|
      ensures rest[k] != ';'
    {
      if 6 <= k < 6 + |word| {
        assert rest[k] == word[k - 6] && WordChar(word[k - 6]);
      }
    }
    assert Parameters(word) == [] + [';'] + rest;
    SplitAtFirst([], rest, ';');
    SplitSingle(rest, ';');
  }

  /** A link in the form GitHub documents, `<URL>; rel="word"`, reads back as its target and its relation. */
  lemma DocumentedLink(target: string, word: string, parse: string -> Option<Uri>)
    requires '>' !in target && Word(word)
    ensures LinkOf(Documented(target, word), parse) == Link([word], parse(target), '#' in target)
  {
    hide SplitOnce, Split, Trim, RelationOf, Words, Word, Rel;
    var parameters, text := Parameters(word), Documented(target, word);
    LinkTrimmed(target, word);
    SplitOnceUnique(['<'] + target, parameters, '>');
    assert text == (['<'] + target) + ['>'] + parameters;
    assert SplitOnce(Trim(text), '>') == Some((['<'] + target, parameters));
    assert (['<'] + target)[1..] == target;
    ParametersSplit(word);
    RelationReadsBack(word);
    WordIsOne(word);
    assert TrimStart(parameters) == parameters;
  }

  lemma LinkTrimmed(target: string, word: string)
    ensures Trim(Documented(target, word)) == Documented(target, word)
  {
    hide Trim;
    var text := Documented(target, word);
    assert text[|text| - 1] == '"';
    TrimKeeps(text);
  }

  // Scanning.

  /** One more link: plain ones change nothing, the first proper next link is taken, anything else is refused. */
  function Step(next: bool, link: Link, endpoint: Endpoint, page: nat): Option<bool> {
    if Plain(link) then Some(next)
    else if next || !Advances(link, endpoint, page) then None
    else Some(true)
  }

  function Scan(next: bool, links: seq<Link>, endpoint: Endpoint, page: nat): Option<bool>
    decreases |links|
  {
    if links == [] then Some(next)
    else match Step(next, links[0], endpoint, page)
      case None => None
      case Some(later) => Scan(later, links[1..], endpoint, page)
  }

  lemma {:induction false} ScanAfterNext(links: seq<Link>, endpoint: Endpoint, page: nat)
    ensures Scan(true, links, endpoint, page) == if AllPlainBut(links, |links|) then Some(true) else None
    decreases |links|
  {
    hide Advances, Plain;
    if links != [] {
      ScanAfterNext(links[1..], endpoint, page);
      PlainTail(links, |links|);
    }
  }

  lemma PlainTail(links: seq<Link>, k: nat)
    requires links != [] && k > 0
    ensures AllPlainBut(links, k) <==> Plain(links[0]) && AllPlainBut(links[1..], k - 1)
  {
    hide Plain;
    if Plain(links[0]) && AllPlainBut(links[1..], k - 1) {
      forall i | 0 <= i < |links| && i != k
        ensures Plain(links[i])
      {
        assert i > 0 ==> links[i] == links[1..][i - 1];
      }
    }
    if AllPlainBut(links, k) {
      forall i | 0 <= i < |links[1..]| && i != k - 1
        ensures Plain(links[1..][i])
      {
        assert links[1..][i] == links[i + 1];
      }
    }
  }

  lemma PlainHead(links: seq<Link>)
    requires links != []
    ensures AllPlainBut(links, 0) <==> AllPlainBut(links[1..], |links| - 1)
  {
    hide Plain;
    forall i | 0 < i < |links|
      ensures links[i] == links[1..][i - 1]
    {
    }
    if AllPlainBut(links[1..], |links| - 1) {
      forall i | 0 <= i < |links| && i != 0
        ensures Plain(links[i])
      {
        assert Plain(links[1..][i - 1]);
      }
    }
  }

  /** The scan finds exactly the one next link among plain ones. */
  lemma {:induction false} ScanIsNextPage(links: seq<Link>, endpoint: Endpoint, page: nat)
    ensures Scan(false, links, endpoint, page) == NextPage(links, endpoint, page)
    decreases |links|
  {
    hide Advances, Plain, AllPlainBut;
    if links == [] {
      NoLinks(endpoint, page);
    } else {
      ScanIsNextPage(links[1..], endpoint, page);
      ScanAfterNext(links[1..], endpoint, page);
      NextPageCons(links, endpoint, page);
    }
  }

  lemma NoLinks(endpoint: Endpoint, page: nat)
    ensures NextPage([], endpoint, page) == Some(false)
  {
  }

  lemma AdvancingIsNotPlain(link: Link, endpoint: Endpoint, page: nat)
    ensures Advances(link, endpoint, page) ==> !Plain(link)
  {
  }

  lemma NextPageCons(links: seq<Link>, endpoint: Endpoint, page: nat)
    requires links != []
    ensures NextPage(links, endpoint, page) ==
      if Plain(links[0]) then NextPage(links[1..], endpoint, page)
      else if Advances(links[0], endpoint, page) && AllPlainBut(links[1..], |links| - 1) then Some(true)
      else None
  {
    hide Advances, Plain, AllPlainBut;
    PlainTail(links, |links|);
    PlainHead(links);
    AdvancingIsNotPlain(links[0], endpoint, page);
    var rest := links[1..];
    forall k | 0 < k < |links|
      ensures links[k] == rest[k - 1] && (AllPlainBut(links, k) <==> Plain(links[0]) && AllPlainBut(rest, k - 1))
    {
      PlainTail(links, k);
    }
    if k: nat :| k < |rest| && Advances(rest[k], endpoint, page) && AllPlainBut(rest, k) {
      assert links[k + 1] == rest[k];
    }
    if Plain(links[0]) && AllPlainBut(links, 0) {
      AllButPlainHead(links);
    }
  }

  lemma AllButPlainHead(links: seq<Link>)
    requires links != [] && Plain(links[0]) && AllPlainBut(links, 0)
    ensures AllPlainBut(links, |links|)
  {
  }

  function Continue(start: Option<bool>, links: seq<Link>, endpoint: Endpoint, page: nat): Option<bool> {
    if start.None? then None else Scan(start.value, links, endpoint, page)
  }

  lemma {:induction false} ScanConcat(next: bool, first: seq<Link>, rest: seq<Link>, endpoint: Endpoint, page: nat)
    ensures Scan(next, first + rest, endpoint, page)
      == Continue(Scan(next, first, endpoint, page), rest, endpoint, page)
    decreases |first|
  {
    hide Step;
    if first == [] {
      assert first + rest == rest;
    } else {
      assert (first + rest)[1..] == first[1..] + rest;
      var later := Step(next, first[0], endpoint, page);
      if later.Some? {
        ScanConcat(later.value, first[1..], rest, endpoint, page);
      }
    }
  }

  lemma MalformedStops(next: bool, endpoint: Endpoint, page: nat)
    ensures Step(next, Malformed, endpoint, page).None?
  {
  }

  /** Whether a next link leads to the page after `page` of the same resource. */
  method LeadsOn(link: Link, endpoint: Endpoint, page: nat) returns (ok: bool)
    requires link.Link? && NEXT in link.relations
    ensures ok <==> Advances(link, endpoint, page)
  {
    hide OnResource, Selects;
    if link.uri.None? || !OnResource(link.uri.value, link.fragment, endpoint) || link.uri.value.query.None? {
      return false;
    }
    ok := ReadQuery(Split(link.uri.value.query.value, '&'), page);
  }

  /** The links of one header, after those of the headers before it. */
  method ScanValue(texts: seq<string>, parse: string -> Option<Uri>, before: bool, endpoint: Endpoint, page: nat)
    returns (r: Option<bool>)
    ensures r == Scan(before, LinksOf(texts, parse), endpoint, page)
  {
    hide Advances, LinkOf;
    var next := before;
    MalformedStops(false, endpoint, page);
    MalformedStops(true, endpoint, page);
    for j := 0 to |texts|
      invariant Scan(before, LinksOf(texts, parse), endpoint, page)
        == Scan(next, LinksOf(texts[j..], parse), endpoint, page)
    {
      assert texts[j..][1..] == texts[j + 1..];
      var link := ReadLink(texts[j], parse);
      assert LinksOf(texts[j..], parse)[1..] == LinksOf(texts[j + 1..], parse);
      if link.Malformed? {
        return None;
      }
      if NEXT in link.relations {
        if next {
          return None;
        }
        var ok := LeadsOn(link, endpoint, page);
        if !ok {
          return None;
        }
        next := true;
      }
    }
    return Some(next);
  }

  method HasNextPage(header: LinkHeader, endpoint: Endpoint, page: nat) returns (r: Option<bool>)
    ensures r == NextPage(header.Links(), endpoint, page)
  {
    hide Advances, NextPage, LinkOf, LinksOf, Split;
    var values, parse := header.values, header.parse;
    ghost var whole := Scan(false, AllLinks(values, parse), endpoint, page);
    ScanIsNextPage(AllLinks(values, parse), endpoint, page);
    var next := false;
    MalformedStops(false, endpoint, page);
    MalformedStops(true, endpoint, page);
    for i := 0 to |values|
      invariant whole == Scan(next, AllLinks(values[i..], parse), endpoint, page)
    {
      assert values[i..][1..] == values[i + 1..];
      if values[i].None? {
        ScanConcat(next, [Malformed], AllLinks(values[i + 1..], parse), endpoint, page);
        return None;
      }
      var texts := Split(values[i].value, ',');
      ScanConcat(next, LinksOf(texts, parse), AllLinks(values[i + 1..], parse), endpoint, page);
      var scanned := ScanValue(texts, parse, next, endpoint, page);
      if scanned.None? {
        return None;
      }
      next := scanned.value;
    }
    return Some(next);
  }
}
