/** Splitting, joining and prefix removal, as Rust's `str` offers them. */
module Sequences {
  import opened Wrappers

  function StripPrefix<T(==)>(s: seq<T>, prefix: seq<T>): (r: Option<seq<T>>)
    ensures r.Some? <==> prefix <= s
    ensures r.Some? ==> s == prefix + r.value
  {
    if prefix <= s then Some(s[|prefix|..]) else None
  }

  /** All fields of `s` between separators; never empty, as in `str::split`. */
  function Split<T(==)>(s: seq<T>, separator: T): (fields: seq<seq<T>>)
    ensures |fields| >= 1
    ensures forall k :: 0 <= k < |fields| ==> separator !in fields[k]
  {
    if s == [] then [[]]
    else
      var rest := Split(s[1..], separator);
      if s[0] == separator then [[]] + rest else [[s[0]] + rest[0]] + rest[1..]
  }

  function Join<T>(fields: seq<seq<T>>, separator: T): seq<T>
    requires |fields| >= 1
  {
    if |fields| == 1 then fields[0] else fields[0] + [separator] + Join(fields[1..], separator)
  }

  lemma {:induction false} SplitThenJoin<T>(s: seq<T>, separator: T)
    ensures Join(Split(s, separator), separator) == s
  {
    if s != [] {
      var rest := Split(s[1..], separator);
      SplitThenJoin(s[1..], separator);
      var fields := Split(s, separator);
      if s[0] == separator {
        assert fields[1..] == rest;
      } else {
        assert fields[1..] == rest[1..];
        assert s == [s[0]] + s[1..];
      }
    }
  }

  lemma {:induction false} SplitAtFirst<T>(field: seq<T>, rest: seq<T>, separator: T)
    requires separator !in field
    ensures Split(field + [separator] + rest, separator) == [field] + Split(rest, separator)
  {
    var s := field + [separator] + rest;
    if field == [] {
      assert s[1..] == rest;
    } else {
      assert s[1..] == field[1..] + [separator] + rest;
      SplitAtFirst(field[1..], rest, separator);
      assert [field[0]] + field[1..] == field;
    }
  }

  lemma {:induction false} SplitSingle<T>(field: seq<T>, separator: T)
    requires separator !in field
    ensures Split(field, separator) == [field]
  {
    if field != [] {
      SplitSingle(field[1..], separator);
      assert [field[0]] + field[1..] == field;
    }
  }

  /** The parts before and after the first separator, as `str::split_once`. */
  function SplitOnce<T(==)>(s: seq<T>, separator: T): (r: Option<(seq<T>, seq<T>)>)
    ensures r.None? <==> separator !in s
    ensures r.Some? ==> separator !in r.value.0 && s == r.value.0 + [separator] + r.value.1
  {
    if s == [] then None
    else if s[0] == separator then Some(([], s[1..]))
    else match SplitOnce(s[1..], separator)
      case None => None
      case Some((head, tail)) => Some(([s[0]] + head, tail))
  }

  lemma {:induction false} SplitOnceUnique<T>(head: seq<T>, tail: seq<T>, separator: T)
    requires separator !in head
    ensures SplitOnce(head + [separator] + tail, separator) == Some((head, tail))
  {
    var s := head + [separator] + tail;
    if head == [] {
      assert s[1..] == tail;
    } else {
      assert s[1..] == head[1..] + [separator] + tail;
      SplitOnceUnique(head[1..], tail, separator);
      assert [head[0]] + head[1..] == head;
    }
  }
}
