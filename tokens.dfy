/**
 * The href values a listing page yields, and the `str()` coercion the
 * link classifier applies to each before looking at it. Hrefs are text;
 * integers stand for the non-string scalars a caller may also pass.
 */
module Tokens {

  datatype Token = Href(s: string) | Int(n: int)

  function Digit(d: nat): (c: char)
    requires d < 10
    ensures '0' <= c <= '9'
  {
    (('0' as int) + d) as char
  }

  function DigitValue(c: char): nat
    requires '0' <= c <= '9'
  {
    (c as int) - ('0' as int)
  }

  predicate IsDigits(s: string) {
    forall i :: 0 <= i < |s| ==> '0' <= s[i] <= '9'
  }

  /** `str(n)` for `n >= 0`: decimal digits, most significant first, no leading zeros. */
  function NatToString(n: nat): (s: string)
    ensures |s| >= 1 && IsDigits(s)
    ensures |s| > 1 ==> s[0] != '0'
    decreases n
  {
    if n < 10 then [Digit(n)] else NatToString(n / 10) + [Digit(n % 10)]
  }

  /** `str(n)` for any integer: a minus sign before the digits of `|n|` when negative. */
  function IntToString(n: int): string {
    if n < 0 then "-" + NatToString(-n) else NatToString(n)
  }

  /** `str(token)`: the text itself, or the decimal form of an integer. */
  function Str(t: Token): string {
    match t
    case Href(s) => s
    case Int(n) => IntToString(n)
  }

  /** `[str(t) for t in ts]`. */
  function Strs(ts: seq<Token>): (r: seq<string>)
    ensures |r| == |ts|
    ensures forall i :: 0 <= i < |ts| ==> r[i] == Str(ts[i])
  {
    seq(|ts|, i requires 0 <= i < |ts| => Str(ts[i]))
  }

  /** The value of a string of decimal digits (`int(s)` on digits). */
  function DigitsValue(s: string): nat
    requires IsDigits(s)
    decreases |s|
  {
    if s == "" then 0 else DigitsValue(s[..|s| - 1]) * 10 + DigitValue(s[|s| - 1])
  }

  /** `int(s)` on what `str` produces for an integer. */
  function ParseInt(s: string): int
    requires s != [] && (s[0] == '-' ==> IsDigits(s[1..])) && (s[0] != '-' ==> IsDigits(s))
  {
    if s[0] == '-' then 0 - DigitsValue(s[1..]) else DigitsValue(s)
  }

  /** The decimal form read back gives the number it was written from. */
  lemma {:induction false} NatToStringRoundTrip(n: nat)
    ensures DigitsValue(NatToString(n)) == n
    decreases n
  {
    var s := NatToString(n);
    if n < 10 {
      assert DigitValue(s[0]) == n;
      assert s[..0] == "";
    } else {
      NatToStringRoundTrip(n / 10);
      assert s[..|s| - 1] == NatToString(n / 10);
      assert DigitValue(s[|s| - 1]) == n % 10;
    }
  }

  /** `int(str(n)) == n`: the coercion loses nothing about an integer token. */
  lemma IntToStringRoundTrip(n: int)
    ensures var s := IntToString(n);
      s != [] && (s[0] == '-' ==> IsDigits(s[1..])) && (s[0] != '-' ==> IsDigits(s)) && ParseInt(s) == n
  {
    if n < 0 {
      NatToStringRoundTrip(-n);
      assert IntToString(n)[1..] == NatToString(-n);
    } else {
      NatToStringRoundTrip(n);
    }
  }

  /** The text of an integer ends in a digit, never in `/`. */
  lemma IntToStringEndsInDigit(n: int)
    ensures var s := IntToString(n); |s| > 0 && '0' <= s[|s| - 1] <= '9'
  {
    if n < 0 {
      var d := NatToString(-n);
      assert ("-" + d)[|"-" + d| - 1] == d[|d| - 1];
    }
  }

  /** The decimal forms of the integer tokens in the project's tests. */
  lemma DecimalExamples()
    ensures IntToString(1) == "1" && IntToString(3) == "3" && IntToString(20202) == "20202"
  {
    assert NatToString(2) == "2";
    assert NatToString(20) == "20";
    assert NatToString(202) == "202";
    assert NatToString(2020) == "2020";
  }
}
