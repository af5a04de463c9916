/**
 Decimal rendering of natural numbers, as JavaScript's template literals
 render a non-negative integer (`${n}`) below 10^21: the shortest string of
 ASCII digits, with no leading zero except for the number zero itself. From
 10^21 on JavaScript switches to exponent notation ("1e+21"), which is not
 modelled; frame and picture sizes stay far below that.

 Both scripts embed numbers in strings this way: the crop filter handed to
 the transcoder and the "WxH" keys of the size histogram. The round trip
 ParseNat(NatToString(n)) == n is what makes those strings unambiguous.
 */
module Decimal {

  predicate IsDigit(c: char) {
    '0' <= c <= '9'
  }

  predicate AllDigits(s: string) {
    forall i :: 0 <= i < |s| ==> IsDigit(s[i])
  }

  function DigitChar(d: nat): (c: char)
    requires d < 10
    ensures IsDigit(c)
    ensures (c as int) - ('0' as int) == d
  {
    (('0' as int) + d) as char
  }

  function DigitValue(c: char): (d: nat)
    requires IsDigit(c)
    ensures d < 10
    ensures DigitChar(d) == c
  {
    (c as int) - ('0' as int)
  }

  /** The decimal rendering of n. */
  function NatToString(n: nat): string {
    if n < 10 then [DigitChar(n)] else NatToString(n / 10) + [DigitChar(n % 10)]
  }

  /** The rendering is a non-empty string of digits with no leading zero, "0" only for zero. */
  lemma {:induction false} NatToStringIsCanonical(n: nat)
    ensures |NatToString(n)| >= 1 && AllDigits(NatToString(n))
    ensures n == 0 <==> NatToString(n) == "0"
    ensures n > 0 ==> NatToString(n)[0] != '0'
  {
    if n >= 10 {
      NatToStringIsCanonical(n / 10);
    }
  }

  /** Reads a string of digits back as a number, most significant digit first. */
  function ParseNat(s: string): nat
    requires AllDigits(s)
  {
    if s == [] then 0 else ParseNat(s[..|s| - 1]) * 10 + DigitValue(s[|s| - 1])
  }

  lemma {:induction false} ParseNatToString(n: nat)
    ensures AllDigits(NatToString(n)) && ParseNat(NatToString(n)) == n
  {
    NatToStringIsCanonical(n);
    var s := NatToString(n);
    if n >= 10 {
      NatToStringIsCanonical(n / 10);
      assert s[..|s| - 1] == NatToString(n / 10);
      ParseNatToString(n / 10);
    }
  }

  lemma NatToStringInjective(a: nat, b: nat)
    ensures NatToString(a) == NatToString(b) ==> a == b
  {
    ParseNatToString(a);
    ParseNatToString(b);
  }

  /**
   A number followed by a non-digit separator can be read back unambiguously,
   whatever follows the separator: the separator marks where the number ends.
   */
  lemma NumberThenSeparator(a: nat, b: nat, sep: char, restA: string, restB: string)
    requires !IsDigit(sep)
    requires NatToString(a) + [sep] + restA == NatToString(b) + [sep] + restB
    ensures a == b && restA == restB
  {
    NatToStringIsCanonical(a);
    NatToStringIsCanonical(b);
    var sa, sb := NatToString(a), NatToString(b);
    var lhs, rhs := sa + [sep] + restA, sb + [sep] + restB;
    assert lhs[|sa|] == sep && rhs[|sb|] == sep;
    if |sa| < |sb| {
      assert false;
    } else if |sb| < |sa| {
      assert false;
    }
    assert sa == lhs[..|sa|] == rhs[..|sb|] == sb;
    NatToStringInjective(a, b);
    assert restA == lhs[|sa| + 1..] == rhs[|sb| + 1..] == restB;
  }
}
