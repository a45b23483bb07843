/** Character classes and digit values shared by the numeral parser
    (`BigInt` on strings), the percent-decoder (`decodeURIComponent`) and the
    pairing-URI pattern (`[a-zA-Z0-9]`). */
module Chars {

  predicate IsDecimalDigit(c: char)
  {
    '0' <= c <= '9'
  }

  predicate IsHexDigit(c: char)
  {
    IsDecimalDigit(c) || 'a' <= c <= 'f' || 'A' <= c <= 'F'
  }

  /** The value of a hexadecimal digit, either case. */
  function HexValue(c: char): (v: nat)
    requires IsHexDigit(c)
    ensures v < 16
    ensures v < 10 <==> IsDecimalDigit(c)
  {
    if IsDecimalDigit(c) then c as int - '0' as int
    else if 'a' <= c <= 'f' then c as int - 'a' as int + 10
    else c as int - 'A' as int + 10
  }

  /** A digit of the given radix (2, 8, 10 or 16): a hexadecimal digit whose
      value is below the radix. */
  predicate IsRadixDigit(c: char, radix: nat)
  {
    IsHexDigit(c) && HexValue(c) < radix
  }

  predicate AllRadixDigits(s: string, radix: nat)
  {
    forall i :: 0 <= i < |s| ==> IsRadixDigit(s[i], radix)
  }

  /** The upper-case digit character of a value below 16. */
  function DigitChar(k: nat): (c: char)
    requires k < 16
    ensures IsHexDigit(c) && HexValue(c) == k
    ensures k < 10 ==> IsDecimalDigit(c)
  {
    if k < 10 then ('0' as int + k) as char else ('A' as int + k - 10) as char
  }

  /** The class `[a-zA-Z0-9]` of a regular expression. */
  predicate IsAsciiAlphanumeric(c: char)
  {
    'a' <= c <= 'z' || 'A' <= c <= 'Z' || '0' <= c <= '9'
  }

  /** The mathematical value of a digit string in the given radix. */
  function DigitsValue(s: string, radix: nat): int
    requires AllRadixDigits(s, radix)
    decreases |s|
  {
    if s == [] then 0
    else DigitsValue(s[..|s| - 1], radix) * radix + HexValue(s[|s| - 1])
  }

  /** The shortest decimal numeral of a natural number. */
  function NatToDecimal(n: nat): (s: string)
    ensures |s| > 0 && AllRadixDigits(s, 10)
    decreases n
  {
    if n < 10 then [DigitChar(n)] else NatToDecimal(n / 10) + [DigitChar(n % 10)]
  }

  lemma {:induction false} NatToDecimalValue(n: nat)
    ensures DigitsValue(NatToDecimal(n), 10) == n
    decreases n
  {
    var s := NatToDecimal(n);
    if n >= 10 {
      NatToDecimalValue(n / 10);
      assert s[..|s| - 1] == NatToDecimal(n / 10);
    }
  }

  /** Distinct numbers have distinct numerals. */
  lemma NatToDecimalInjective(a: nat, b: nat)
    ensures NatToDecimal(a) == NatToDecimal(b) ==> a == b
  {
    NatToDecimalValue(a);
    NatToDecimalValue(b);
  }

  lemma NatToDecimalInjectiveAll()
    ensures forall a: nat, b: nat :: NatToDecimal(a) == NatToDecimal(b) ==> a == b
  {
    forall a: nat, b: nat ensures NatToDecimal(a) == NatToDecimal(b) ==> a == b {
      NatToDecimalInjective(a, b);
    }
  }
}
