/** Decimal numbers as Rust reads and prints them. */
module Numbers {
  import opened Wrappers

  const MAX_U32: nat := 0xFFFF_FFFF
  const MAX_U64: nat := 0xFFFF_FFFF_FFFF_FFFF

  predicate IsDigit(c: char) { '0' <= c <= '9' }

  predicate AllDigits(s: string) { forall i :: 0 <= i < |s| ==> IsDigit(s[i]) }

  function DigitValue(c: char): (d: nat)
    requires IsDigit(c)
    ensures d <= 9
  {
    c as int - '0' as int
  }

  function DigitChar(d: nat): (c: char)
    requires d <= 9
    ensures IsDigit(c) && DigitValue(c) == d
  {
    ('0' as int + d) as char
  }

  /** The number a string of digits denotes. */
  function Value(s: string): nat
    requires AllDigits(s)
  {
    if s == [] then 0 else Value(s[..|s| - 1]) * 10 + DigitValue(s[|s| - 1])
  }

  /** `str::parse` of an unsigned type with maximum `max`: one optional leading plus sign, at least one
      digit, nothing else, and a value in range. */
  function ParseUnsigned(s: string, max: nat): Option<nat> {
    var digits := if s != [] && s[0] == '+' then s[1..] else s;
    if digits == [] || !AllDigits(digits) || Value(digits) > max then None else Some(Value(digits))
  }

  /** `to_string` of an unsigned number. */
  function Decimal(n: nat): (s: string)
    ensures s != [] && AllDigits(s) && Value(s) == n
  {
    if n < 10 then
      assert Value([DigitChar(n)]) == n by { assert [DigitChar(n)][..0] == []; }
      [DigitChar(n)]
    else
      var front, last := Decimal(n / 10), [DigitChar(n % 10)];
      assert (front + last)[..|front|] == front;
      front + last
  }

  /** Reading back a printed number gives the number. */
  lemma DecimalRoundTrip(n: nat, max: nat)
    requires n <= max
    ensures ParseUnsigned(Decimal(n), max) == Some(n)
  {
    assert IsDigit(Decimal(n)[0]);
  }

  lemma TenMore(a: nat, b: nat, c: nat, d: nat)
    ensures (a * b + c) * 10 + d == a * (b * 10) + (c * 10 + d)
  {
    assert a * (b * 10) == a * b * 10;
  }

  /** Leading zeros do not change the value; appending a digit shifts it. */
  lemma {:induction false} ValueConcat(s: string, t: string)
    requires AllDigits(s) && AllDigits(t)
    ensures AllDigits(s + t) && Value(s + t) == Value(s) * Power10(|t|) + Value(t)
  {
    if t == [] {
      assert s + t == s;
    } else {
      var t1 := t[..|t| - 1];
      ValueConcat(s, t1);
      assert (s + t)[..|s + t| - 1] == s + t1;
      TenMore(Value(s), Power10(|t1|), Value(t1), DigitValue(t[|t| - 1]));
    }
  }

  function Power10(n: nat): nat { if n == 0 then 1 else Power10(n - 1) * 10 }
}
