/** Unsigned 64-bit numbers and their decimal text. */
module Decimal {
  import opened Wrappers

  const MAX_U64: int := 0xFFFF_FFFF_FFFF_FFFF

  type u64 = n: int | 0 <= n <= MAX_U64

  function CheckedIncrement(n: u64): Option<u64> {
    if n == MAX_U64 then None else Some(n + 1)
  }

  predicate IsDigit(c: char) {
    '0' <= c <= '9'
  }

  predicate AllDigits(s: string) {
    forall k :: 0 <= k < |s| ==> IsDigit(s[k])
  }

  /** Digits without a redundant leading zero. */
  predicate Canonical(s: string) {
    s != "" && AllDigits(s) && (|s| > 1 ==> s[0] != '0')
  }

  function DigitValue(c: char): (d: nat)
    requires IsDigit(c)
    ensures d < 10
  {
    (c - '0') as int
  }

  function Digit(d: nat): (c: char)
    requires d < 10
    ensures IsDigit(c) && DigitValue(c) == d
  {
    '0' + d as char
  }

  function Value(s: string): nat
    requires AllDigits(s)
  {
    if s == "" then 0 else 10 * Value(s[..|s| - 1]) + DigitValue(s[|s| - 1])
  }

  function Print(n: nat): (s: string)
    ensures Canonical(s)
    ensures n > 0 ==> s[0] != '0'
  {
    if n < 10 then [Digit(n)] else Print(n / 10) + [Digit(n % 10)]
  }

  lemma {:induction false} PrintThenValue(n: nat)
    ensures Value(Print(n)) == n
  {
    if n < 10 {
      assert Print(n)[..0] == "";
    } else {
      PrintThenValue(n / 10);
      var s := Print(n);
      assert s[..|s| - 1] == Print(n / 10);
    }
  }

  lemma {:induction false} ValueThenPrint(s: string)
    requires Canonical(s)
    ensures Print(Value(s)) == s
    ensures s[0] != '0' ==> Value(s) > 0
  {
    var last := s[|s| - 1];
    if |s| == 1 {
      assert s[..0] == "";
      assert s == [last];
    } else {
      ValueThenPrint(s[..|s| - 1]);
      assert s == s[..|s| - 1] + [last];
      assert Value(s) / 10 == Value(s[..|s| - 1]);
    }
  }

  function Pow10(n: nat): (p: nat)
    ensures p > 0
  {
    if n == 0 then 1 else 10 * Pow10(n - 1)
  }

  lemma {:induction false} ValueBound(s: string)
    requires AllDigits(s)
    ensures Value(s) < Pow10(|s|)
  {
    if s != "" {
      ValueBound(s[..|s| - 1]);
    }
  }

  /** Digits are determined by their length and their value. */
  lemma {:induction false} ValueInjective(s: string, t: string)
    requires AllDigits(s) && AllDigits(t) && |s| == |t| && Value(s) == Value(t)
    ensures s == t
  {
    if s != "" {
      ValueInjective(s[..|s| - 1], t[..|t| - 1]);
      assert s == s[..|s| - 1] + [s[|s| - 1]];
      assert t == t[..|t| - 1] + [t[|t| - 1]];
    }
  }

  /** The longest canonical text of a number below a power of ten. */
  lemma {:induction false} PrintLength(n: nat, digits: nat)
    requires digits > 0
    ensures |Print(n)| <= digits <==> n < Pow10(digits)
  {
    if n < 10 {
      assert Pow10(digits) == 10 * Pow10(digits - 1);
    } else if digits == 1 {
      assert Pow10(1) == 10 * Pow10(0);
    } else {
      PrintLength(n / 10, digits - 1);
      assert Pow10(digits) == 10 * Pow10(digits - 1);
    }
  }

  /** Rust's `str::parse::<u64>`: an optional plus sign, digits, no overflow. */
  function ParseU64(s: string): (r: Option<u64>)
  {
    var digits := if s != "" && s[0] == '+' then s[1..] else s;
    if digits == "" || !AllDigits(digits) || Value(digits) > MAX_U64 then None else Some(Value(digits))
  }

  lemma ParsePrinted(n: u64)
    ensures ParseU64(Print(n)) == Some(n)
  {
    PrintThenValue(n);
    assert IsDigit(Print(n)[0]);
  }
}
