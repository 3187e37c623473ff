/**
 * Digit-level text handling the colour code relies on: hexadecimal digits
 * as Rust's `char::to_digit(16)` accepts them, the unsigned case of Rust's
 * `from_str_radix` with radix 16, lower-case hex formatting of one digit,
 * and the decimal rendering `{}` gives a `usize`.
 */
module Radix {
  import opened Wrappers

  /** A digit that `to_digit(16)` accepts: 0-9, a-f, A-F. */
  predicate IsHexDigit(c: char) {
    ('0' <= c <= '9') || ('a' <= c <= 'f') || ('A' <= c <= 'F')
  }

  /** A digit as `{:x}` writes it: a hex digit that is not upper case, so 0-9 and a-f only. */
  predicate IsLowerHexDigit(c: char) {
    IsHexDigit(c) && !('A' <= c <= 'F')
  }

  predicate AllHexDigits(s: string) {
    forall i :: 0 <= i < |s| ==> IsHexDigit(s[i])
  }

  function DigitValue(c: char): (d: nat)
    requires IsHexDigit(c)
    ensures d < 16
    ensures ('0' <= c <= '9') <==> d < 10
  {
    if '0' <= c <= '9' then c as nat - '0' as nat
    else if 'a' <= c <= 'f' then c as nat - 'a' as nat + 10
    else c as nat - 'A' as nat + 10
  }

  /** The lower-case digit for a value below 16; the inverse of `DigitValue`. */
  function LowerHexDigit(d: nat): (c: char)
    requires d < 16
    ensures IsLowerHexDigit(c)
    ensures DigitValue(c) == d
  {
    "0123456789abcdef"[d]
  }

  /** The digit `c` folded to lower case; digits 0-9 are unchanged. */
  function ToLowerHex(c: char): (l: char)
    requires IsHexDigit(c)
    ensures IsLowerHexDigit(l)
    ensures DigitValue(l) == DigitValue(c)
    ensures IsLowerHexDigit(c) ==> l == c
  {
    if 'A' <= c <= 'F' then (c as int - 'A' as int + 'a' as int) as char else c
  }

  function Pow16(n: nat): (p: nat)
    ensures p >= 1
  {
    if n == 0 then 1 else 16 * Pow16(n - 1)
  }

  /** The base-16 value of a string of digits, most significant first. */
  function HexValue(s: string): (v: nat)
    requires AllHexDigits(s)
    ensures v < Pow16(|s|)
  {
    if |s| == 0 then 0
    else 16 * HexValue(s[..|s| - 1]) + DigitValue(s[|s| - 1])
  }

  /** A digit string with a non-zero first digit is at least `16^(n-1)`. */
  lemma {:induction false} HexValueLowerBound(s: string)
    requires |s| > 0 && AllHexDigits(s) && DigitValue(s[0]) >= 1
    ensures HexValue(s) >= Pow16(|s| - 1)
    decreases |s|
  {
    if |s| > 1 {
      var init := s[..|s| - 1];
      assert init[0] == s[0];
      HexValueLowerBound(init);
    }
  }

  /** The value of one or two digits. */
  lemma TwoDigitValue(a: char, b: char)
    ensures IsHexDigit(b) ==> HexValue([b]) == DigitValue(b)
    ensures IsHexDigit(a) && IsHexDigit(b) ==> HexValue([a, b]) == 16 * DigitValue(a) + DigitValue(b)
  {
    assert [b][..0] == [];
    assert [a, b][..1] == [a] && [a][..0] == [];
  }

  /** The digits `from_str_radix` reads: a single leading '+' is a sign, not a digit. */
  function LiteralDigits(s: string): (ds: string)
    ensures |ds| <= |s|
  {
    if |s| > 0 && s[0] == '+' then s[1..] else s
  }

  /**
   * What an unsigned `from_str_radix(s, 16)` accepts, stated without its loop:
   * an optional '+', then at least one hex digit of either case (leading
   * zeros allowed), with a value no greater than the type's maximum.
   */
  predicate IsUnsignedHexLiteral(s: string, max: nat) {
    var ds := LiteralDigits(s);
    |ds| > 0 && AllHexDigits(ds) && HexValue(ds) <= max
  }

  /** The digit loop without its overflow checks: `acc` times 16 plus each digit in turn. */
  function Horner(acc: nat, ds: string): (r: nat)
    requires AllHexDigits(ds)
    ensures r >= acc
    decreases |ds|
  {
    if |ds| == 0 then acc else Horner(acc * 16 + DigitValue(ds[0]), ds[1..])
  }

  /** Feeding one more digit multiplies by 16 and adds it. */
  lemma {:induction false} HornerSnoc(acc: nat, ds: string, c: char)
    requires AllHexDigits(ds) && IsHexDigit(c)
    ensures AllHexDigits(ds + [c])
    ensures Horner(acc, ds + [c]) == 16 * Horner(acc, ds) + DigitValue(c)
    decreases |ds|
  {
    if |ds| == 0 {
      assert ds + [c] == [c];
      assert [c][1..] == [];
    } else {
      assert (ds + [c])[1..] == ds[1..] + [c];
      HornerSnoc(acc * 16 + DigitValue(ds[0]), ds[1..], c);
    }
  }

  /** The loop started from zero computes the value of the digits. */
  lemma {:induction false} HornerIsHexValue(ds: string)
    requires AllHexDigits(ds)
    ensures Horner(0, ds) == HexValue(ds)
    decreases |ds|
  {
    if |ds| > 0 {
      var init := ds[..|ds| - 1];
      assert ds == init + [ds[|ds| - 1]];
      HornerIsHexValue(init);
      HornerSnoc(0, init, ds[|ds| - 1]);
    }
  }

  lemma HornerComputesValue(ds: string)
    ensures AllHexDigits(ds) ==> Horner(0, ds) == HexValue(ds)
  {
    if AllHexDigits(ds) {
      HornerIsHexValue(ds);
    }
  }

  /**
   * The digit loop of `from_str_radix`: each character must be a digit,
   * then `acc * 16` and `acc * 16 + digit` are checked against the type's
   * maximum, failing on the first invalid digit or overflow. It fails
   * exactly when a character is not a digit or the unchecked result
   * exceeds the maximum, and otherwise returns that result.
   */
  function Accumulate(ds: string, acc: nat, max: nat): (r: Option<nat>)
    requires acc <= max
    ensures r.Some? <==> AllHexDigits(ds) && Horner(acc, ds) <= max
    ensures r.Some? ==> AllHexDigits(ds) && r.value == Horner(acc, ds)
    decreases |ds|
  {
    if |ds| == 0 then Some(acc)
    else if !IsHexDigit(ds[0]) then None
    else if acc * 16 > max then None
    else if acc * 16 + DigitValue(ds[0]) > max then None
    else Accumulate(ds[1..], acc * 16 + DigitValue(ds[0]), max)
  }

  /**
   * `from_str_radix(s, 16)` for an unsigned integer type whose largest value
   * is `max`; `None` stands for any `ParseIntError`.
   */
  function ParseUnsignedHex(s: string, max: nat): (r: Option<nat>)
    ensures r.Some? <==> IsUnsignedHexLiteral(s, max)
    ensures r.Some? ==> IsUnsignedHexLiteral(s, max) && r.value == HexValue(LiteralDigits(s))
    ensures r.Some? ==> r.value <= max
  {
    if |s| == 0 then None
    else if (s[0] == '+' || s[0] == '-') && |s| == 1 then None
    else
      HornerComputesValue(LiteralDigits(s));
      Accumulate(LiteralDigits(s), 0, max)
  }

  // Decimal rendering of a `usize`, as `format!("{}", n)` writes it.

  function DecimalDigit(d: nat): (c: char)
    requires d < 10
    ensures '0' <= c <= '9'
    ensures c as nat - '0' as nat == d
  {
    "0123456789"[d]
  }

  predicate AllDecimalDigits(s: string) {
    forall i :: 0 <= i < |s| ==> '0' <= s[i] <= '9'
  }

  /** The value of a string of decimal digits, most significant first. */
  function DecimalValue(s: string): nat
    requires AllDecimalDigits(s)
  {
    if |s| == 0 then 0
    else 10 * DecimalValue(s[..|s| - 1]) + (s[|s| - 1] as nat - '0' as nat)
  }

  /** `n` in decimal, with no leading zeros. */
  function NatToDecimal(n: nat): (s: string)
    ensures |s| > 0 && AllDecimalDigits(s)
    ensures |s| > 1 ==> s[0] != '0'
  {
    if n < 10 then [DecimalDigit(n)]
    else NatToDecimal(n / 10) + [DecimalDigit(n % 10)]
  }

  /** Reading the rendering back gives the number: the decimal form loses nothing. */
  lemma {:induction false} DecimalRoundTrip(n: nat)
    ensures DecimalValue(NatToDecimal(n)) == n
  {
    if n >= 10 {
      var s := NatToDecimal(n);
      assert s[..|s| - 1] == NatToDecimal(n / 10);
      DecimalRoundTrip(n / 10);
    }
  }

  /** Distinct numbers render to distinct strings. */
  lemma DecimalInjective(n: nat, m: nat)
    requires n != m
    ensures NatToDecimal(n) != NatToDecimal(m)
  {
    DecimalRoundTrip(n);
    DecimalRoundTrip(m);
  }
}
