/**
 * The text forms the I/O handler relies on: Rust's `Display` for integers
 * (what `write` emits) and `FromStr` for `usize` and `isize` (what `read`,
 * `idx` and `nums` parse tokens with), both on a 64-bit target, and the
 * `FromStr` and `ToString` of `String` and `char`.
 */
module Decimal {
  import opened Wrappers

  /** usize::MAX + 1 on a 64-bit target. */
  const U64_LIMIT: int := 0x1_0000_0000_0000_0000
  /** -isize::MIN, that is isize::MAX + 1, on a 64-bit target. */
  const I64_LIMIT: int := 0x8000_0000_0000_0000

  predicate IsDigit(c: char) { '0' <= c <= '9' }

  predicate AllDigits(s: string) { forall k :: 0 <= k < |s| ==> IsDigit(s[k]) }

  predicate InI64(x: int) { -I64_LIMIT <= x < I64_LIMIT }

  function DigitChar(d: nat): (c: char)
    requires d < 10
    ensures IsDigit(c)
  {
    ('0' as int + d) as char
  }

  function DigitValue(c: char): (d: nat)
    requires IsDigit(c)
    ensures d < 10
  {
    c as int - '0' as int
  }

  /** The value of a run of decimal digits, most significant digit first. */
  function DigitsValue(s: string): nat
    requires AllDigits(s)
    decreases |s|
  {
    if s == [] then 0 else DigitsValue(s[..|s| - 1]) * 10 + DigitValue(s[|s| - 1])
  }

  /** `Display` of an unsigned integer: at least one digit, no sign, no leading zero. */
  function NatToString(n: nat): (s: string)
    ensures s != [] && AllDigits(s)
    ensures |s| > 1 ==> s[0] != '0'
    decreases n
  {
    if n < 10 then [DigitChar(n)] else NatToString(n / 10) + [DigitChar(n % 10)]
  }

  /**
   * `Display` of a signed integer: a minus sign before the magnitude when
   * negative. The text starts with '-' exactly for a negative value.
   */
  function IntToString(x: int): (s: string)
    ensures s != [] && (s[0] == '-' <==> x < 0)
  {
    if x < 0 then "-" + NatToString(-x) else NatToString(x)
  }

  /**
   * `usize::from_str`: an optional '+', then one or more digits, then a value
   * that fits in 64 bits; anything else (the empty token included) is an error.
   */
  function ParseUnsigned(t: string): (r: Option<nat>)
    ensures t == [] ==> r == None
    ensures r.Some? ==> r.value < U64_LIMIT
  {
    var digits := if |t| > 0 && t[0] == '+' then t[1..] else t;
    if digits == [] || !AllDigits(digits) then None
    else
      var v := DigitsValue(digits);
      if v < U64_LIMIT then Some(v) else None
  }

  /**
   * `isize::from_str`: an optional '+' or '-', then one or more digits, then a
   * value in the signed 64-bit range; anything else is an error.
   */
  function ParseSigned(t: string): (r: Option<int>)
    ensures t == [] ==> r == None
    ensures r.Some? ==> InI64(r.value)
  {
    if |t| > 0 && t[0] == '-' then
      var digits := t[1..];
      if digits == [] || !AllDigits(digits) then None
      else
        var v := DigitsValue(digits);
        if v <= I64_LIMIT then Some(-(v as int)) else None
    else
      var digits := if |t| > 0 && t[0] == '+' then t[1..] else t;
      if digits == [] || !AllDigits(digits) then None
      else
        var v := DigitsValue(digits);
        if v < I64_LIMIT then Some(v) else None
  }

  /** `String::from_str`: every token parses. */
  function AnyToken(t: string): (r: Option<string>)
    ensures r == Some(t)
  {
    Some(t)
  }

  /** `char::from_str`: a token of exactly one character. */
  function ParseChar(t: string): (r: Option<char>)
    ensures r.Some? <==> |t| == 1
    ensures r.Some? ==> r.value == t[0]
  {
    if |t| == 1 then Some(t[0]) else None
  }

  /** `to_string` of a string. */
  function AnyToString(t: string): string
  {
    t
  }

  /** Reading back the digits `Display` wrote gives the number back. */
  lemma {:induction false} DigitsValueOfNatToString(n: nat)
    ensures DigitsValue(NatToString(n)) == n
    decreases n
  {
    if n >= 10 {
      var s := NatToString(n);
      assert s[..|s| - 1] == NatToString(n / 10);
      DigitsValueOfNatToString(n / 10);
    }
  }

  /** `usize` round trip: parsing what `Display` wrote gives the number back. */
  lemma ParseUnsignedOfDisplay(n: nat)
    requires n < U64_LIMIT
    ensures ParseUnsigned(NatToString(n)) == Some(n)
  {
    DigitsValueOfNatToString(n);
  }

  /** `isize` round trip: parsing what `Display` wrote gives the number back. */
  lemma ParseSignedOfDisplay(x: int)
    requires InI64(x)
    ensures ParseSigned(IntToString(x)) == Some(x)
  {
    var s := IntToString(x);
    if x < 0 {
      var digits := NatToString(-x);
      assert s[0] == '-' && s[1..] == digits;
      DigitsValueOfNatToString(-x);
      assert DigitsValue(digits) == -x <= I64_LIMIT;
    } else {
      assert IsDigit(s[0]);
      DigitsValueOfNatToString(x);
      assert DigitsValue(s) == x < I64_LIMIT;
    }
  }

  /** Everything `Display` writes for an integer is digits, after a '-' exactly when it is negative. */
  lemma IntToStringShape(x: int)
    ensures var s := IntToString(x);
      && (x < 0 ==> |s| > 1 && AllDigits(s[1..]))
      && (x >= 0 ==> AllDigits(s))
  {
    if x < 0 {
      assert IntToString(x)[1..] == NatToString(-x);
    }
  }
}
