/** Trimming as Rust's `str` offers it. */
module Whitespace {

  /** Unicode's White_Space property. */
  predicate White(c: char) {
    || '\t' <= c <= '\r' || c == ' ' || c == '\U{85}' || c == '\U{A0}' || c == '\U{1680}'
    || '\U{2000}' <= c <= '\U{200A}' || c == '\U{2028}' || c == '\U{2029}' || c == '\U{202F}'
    || c == '\U{205F}' || c == '\U{3000}'
  }

  function TrimStart(s: string): string {
    if s != "" && White(s[0]) then TrimStart(s[1..]) else s
  }

  function TrimEnd(s: string): string {
    if s != "" && White(s[|s| - 1]) then TrimEnd(s[..|s| - 1]) else s
  }

  function Trim(s: string): string {
    TrimEnd(TrimStart(s))
  }

  function TrimMatches(s: string, c: char): string {
    if s != "" && s[0] == c then TrimMatches(s[1..], c)
    else if s != "" && s[|s| - 1] == c then TrimMatches(s[..|s| - 1], c)
    else s
  }

  predicate AsciiWhite(c: char) {
    c == ' ' || c == '\t' || c == '\n' || c == '\U{C}' || c == '\r'
  }

  function FirstWord(s: string): (word: string)
    ensures word <= s
  {
    if s == "" || AsciiWhite(s[0]) then "" else [s[0]] + FirstWord(s[1..])
  }

  /** `str::split_ascii_whitespace`: the runs between whitespace, none of them empty. */
  function Words(s: string): seq<string>
    decreases |s|
  {
    if s == "" then []
    else if AsciiWhite(s[0]) then Words(s[1..])
    else [FirstWord(s)] + Words(s[|FirstWord(s)|..])
  }

  lemma TrimKeeps(s: string)
    requires s != "" && !White(s[0]) && !White(s[|s| - 1])
    ensures Trim(s) == s
  {
  }

  lemma TrimDropsSpace(s: string)
    requires s != "" && !White(s[0]) && !White(s[|s| - 1])
    ensures Trim([' '] + s) == s
  {
    var spaced := [' '] + s;
    assert spaced[1..] == s;
    assert TrimStart(spaced) == TrimStart(s) == s;
    assert TrimEnd(s) == s;
  }

  lemma TrimMatchesBoth(s: string, c: char)
    requires s != "" && s[0] != c && s[|s| - 1] != c
    ensures TrimMatches([c] + s + [c], c) == s
  {
    var whole, half := [c] + s + [c], s + [c];
    assert whole[1..] == half && half[..|half| - 1] == s;
    assert TrimMatches(whole, c) == TrimMatches(half, c);
    assert TrimMatches(half, c) == TrimMatches(s, c);
    assert TrimMatches(s, c) == s;
  }

  lemma {:induction false} FirstWordIs(s: string)
    requires forall k :: 0 <= k < |s| ==> !AsciiWhite(s[k])
    ensures FirstWord(s) == s
  {
    if s != "" {
      FirstWordIs(s[1..]);
    }
  }

  lemma OneWord(s: string)
    requires s != "" && forall k :: 0 <= k < |s| ==> !AsciiWhite(s[k])
    ensures Words(s) == [s]
  {
    FirstWordIs(s);
    assert s[|s|..] == "";
  }
}
