/**
 Decimal and hexadecimal numerals as std::to_string, std::stoul and printf write and read them.
 */
module Numerals {

  const TWO_TO_THE_32 := 0x1_0000_0000
  const TWO_TO_THE_64 := 0x1_0000_0000_0000_0000

  predicate IsDigit(c: char) { '0' <= c <= '9' }

  predicate AllDigits(s: string) { forall i | 0 <= i < |s| :: IsDigit(s[i]) }

  function Decimal(n: nat): (s: string)
    ensures |s| > 0 && AllDigits(s)
  {
    var digit := ['0' + (n % 10) as char];
    if n < 10 then digit else Decimal(n / 10) + digit
  }

  /** std::stoul on a string of digits. */
  function ParseDecimal(s: string): nat
    requires AllDigits(s)
  {
    if s == "" then 0 else 10 * ParseDecimal(s[..|s| - 1]) + (s[|s| - 1] - '0') as nat
  }

  lemma {:induction false} ParseOfDecimal(n: nat)
    ensures ParseDecimal(Decimal(n)) == n
  {
    if n >= 10 {
      ParseOfDecimal(n / 10);
      assert Decimal(n)[..|Decimal(n)| - 1] == Decimal(n / 10);
    } else {
      assert Decimal(n)[..0] == "";
    }
  }

  lemma {:induction false} NoLeadingZero(n: nat)
    ensures Decimal(n)[0] == '0' ==> n == 0 && Decimal(n) == "0"
  {
    if n >= 10 {
      NoLeadingZero(n / 10);
    }
  }

  const HEX_DIGITS := "0123456789abcdef"

  predicate IsLowerHex(c: char) { IsDigit(c) || 'a' <= c <= 'f' }

  predicate IsHex(c: char) { IsLowerHex(c) || 'A' <= c <= 'F' }

  function HexValue(c: char): (n: nat)
    ensures n < 16
  {
    if IsDigit(c) then (c - '0') as nat
    else if 'a' <= c <= 'f' then (c - 'a') as nat + 10
    else if 'A' <= c <= 'F' then (c - 'A') as nat + 10
    else 0
  }

  lemma HexDigitValue(n: nat)
    requires n < 16
    ensures IsLowerHex(HEX_DIGITS[n]) && HexValue(HEX_DIGITS[n]) == n
  {
  }
}
