/** UTF-8 as the grammar in section 4 of RFC 3629 defines it. */
module Utf8 {

  type byte = b: int | 0 <= b < 256

  predicate Tail(b: byte) {
    0x80 <= b <= 0xBF
  }

  predicate TwoBytes(s: seq<byte>) {
    |s| >= 2 && 0xC2 <= s[0] <= 0xDF && Tail(s[1])
  }

  predicate ThreeBytes(s: seq<byte>) {
    && |s| >= 3 && Tail(s[1]) && Tail(s[2])
    && ( || (s[0] == 0xE0 && 0xA0 <= s[1])
         || 0xE1 <= s[0] <= 0xEC
         || (s[0] == 0xED && s[1] <= 0x9F)
         || 0xEE <= s[0] <= 0xEF)
  }

  predicate FourBytes(s: seq<byte>) {
    && |s| >= 4 && Tail(s[1]) && Tail(s[2]) && Tail(s[3])
    && ( || (s[0] == 0xF0 && 0x90 <= s[1])
         || 0xF1 <= s[0] <= 0xF3
         || (s[0] == 0xF4 && s[1] <= 0x8F))
  }

  /** The length of the character `s` starts with, or zero when it starts with none. */
  function CharLength(s: seq<byte>): (n: nat)
    ensures n <= |s| && n <= 4
    ensures forall k :: 0 < k < n ==> Tail(s[k])
  {
    if s == [] then 0
    else if s[0] <= 0x7F then 1
    else if TwoBytes(s) then 2
    else if ThreeBytes(s) then 3
    else if FourBytes(s) then 4
    else 0
  }

  predicate Valid(s: seq<byte>) {
    s == [] || (CharLength(s) > 0 && Valid(s[CharLength(s)..]))
  }

  /** A character is recognized by its own bytes alone. */
  lemma CharLengthLocal(a: seq<byte>, b: seq<byte>)
    requires CharLength(a) > 0 || 0 < CharLength(a + b) <= |a|
    ensures CharLength(a + b) == CharLength(a)
  {
    assert forall k :: 0 <= k < |a| ==> (a + b)[k] == a[k];
  }

  /** No character crosses into text that starts with a byte no character continues with. */
  lemma CharacterFits(a: seq<byte>, b: seq<byte>)
    requires a != [] && (b != [] ==> !Tail(b[0]))
    ensures CharLength(a + b) <= |a|
  {
    var n := CharLength(a + b);
    assert forall k :: 0 < k < n ==> Tail((a + b)[k]);
    if b != [] {
      assert (a + b)[|a|] == b[0];
    }
  }

  lemma {:induction false} ValidConcat(a: seq<byte>, b: seq<byte>)
    requires Valid(a) && Valid(b)
    ensures Valid(a + b)
    decreases |a|
  {
    if a == [] {
      assert a + b == b;
    } else {
      CharLengthLocal(a, b);
      var n := CharLength(a);
      assert (a + b)[n..] == a[n..] + b;
      ValidConcat(a[n..], b);
    }
  }

  /** Text may be cut before any byte that does not continue a character. */
  lemma {:induction false} ValidCut(a: seq<byte>, b: seq<byte>)
    requires Valid(a + b) && (b != [] ==> !Tail(b[0]))
    ensures Valid(a) && Valid(b)
    decreases |a|
  {
    if a == [] {
      assert a + b == b;
    } else {
      var n := CharLength(a + b);
      CharacterFits(a, b);
      CharLengthLocal(a, b);
      assert (a + b)[n..] == a[n..] + b;
      ValidCut(a[n..], b);
    }
  }
}
