/**
  Decimal text of natural numbers, as JavaScript's `String(n)` and a template
  literal `${n}` write them, and `padStart(2, '0')`; with a reader for digit
  strings so that the text can be shown to denote its number.
 */
module Decimal {

  predicate IsDigit(c: char) {
    '0' <= c <= '9'
  }

  predicate AllDigits(s: string) {
    forall i :: 0 <= i < |s| ==> IsDigit(s[i])
  }

  function DigitChar(d: nat): (c: char)
    requires d < 10
    ensures IsDigit(c) && DigitValue(c) == d
  {
    (48 + d) as char
  }

  function DigitValue(c: char): (d: nat)
    requires IsDigit(c)
    ensures d < 10
  {
    (c as int) - 48
  }

  /** `String(n)` for a non-negative integer: most significant digit first, no leading zeros. */
  function NatToString(n: nat): (s: string)
    ensures 1 <= |s| && AllDigits(s)
    ensures n < 10 <==> |s| == 1
    ensures n < 100 ==> |s| <= 2
    ensures |s| > 1 ==> s[0] != '0'
    decreases n
  {
    if n < 10 then [DigitChar(n)] else NatToString(n / 10) + [DigitChar(n % 10)]
  }

  /** The number a string of decimal digits denotes (leading zeros allowed). */
  function ParseDigits(s: string): nat
    requires AllDigits(s)
    decreases |s|
  {
    if s == [] then 0 else 10 * ParseDigits(s[..|s| - 1]) + DigitValue(s[|s| - 1])
  }

  lemma {:induction false} ParseNatToString(n: nat)
    ensures ParseDigits(NatToString(n)) == n
    decreases n
  {
    var s := NatToString(n);
    if n >= 10 {
      ParseNatToString(n / 10);
      assert s[..|s| - 1] == NatToString(n / 10);
    }
  }

  /** Distinct numbers have distinct decimal texts. */
  lemma {:induction false} NatToStringInjective(m: nat, n: nat)
    requires NatToString(m) == NatToString(n)
    ensures m == n
  {
    ParseNatToString(m);
    ParseNatToString(n);
  }

  /** `s.padStart(2, '0')`: left-pads with zeros up to length two; longer strings are unchanged. */
  function PadStart2(s: string): (r: string)
    ensures |s| < 2 ==> |r| == 2 && r[2 - |s|..] == s && forall i :: 0 <= i < 2 - |s| ==> r[i] == '0'
    ensures |s| >= 2 ==> r == s
  {
    if |s| == 0 then "00" else if |s| == 1 then ['0'] + s else s
  }

  /** A number below one hundred padded to two places reads back as itself. */
  lemma {:induction false} PaddedTwoDigits(n: nat)
    requires n < 100
    ensures |PadStart2(NatToString(n))| == 2
    ensures AllDigits(PadStart2(NatToString(n)))
    ensures ParseDigits(PadStart2(NatToString(n))) == n
  {
    ParseNatToString(n);
    var s := NatToString(n);
    var r := PadStart2(s);
    if |s| == 1 {
      assert r == ['0'] + s;
      assert r[..1] == "0";
      assert ParseDigits(r[..1]) == 0 by {
        assert r[..1][..0] == [];
      }
      assert ParseDigits(s) == DigitValue(s[0]) by {
        assert s[..0] == [];
      }
    }
  }
}
