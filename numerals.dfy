/**
 * Positional numerals as the .NET formatting calls used by Binmap produce
 * them: `Byte.ToString()` and `Int32.ToString()` (base 10),
 * `ToString("X2")` and `ToString("X4")` (upper-case base 16, zero-padded),
 * `Convert.ToString(v, 2)` (base 2) and `String.PadLeft`.
 */
module Numerals {

  /** `Math.Min`. */
  function Min(a: int, b: int): int {
    if a < b then a else b
  }

  /** `Math.Max`. */
  function Max(a: int, b: int): int {
    if a < b then b else a
  }

  function Pow(b: nat, k: nat): (r: nat)
    ensures b >= 1 ==> r >= 1
  {
    if k == 0 then 1 else b * Pow(b, k - 1)
  }

  predicate IsBase(b: nat) {
    2 <= b <= 16
  }

  /** The digit character for d; letters are upper-case, as "X" formatting writes them. */
  function DigitChar(d: nat): char
    requires d < 16
  {
    if d < 10 then ('0' as int + d) as char else ('A' as int + d - 10) as char
  }

  function DigitValue(c: char): nat {
    if '0' <= c <= '9' then c as int - '0' as int
    else if 'A' <= c <= 'F' then c as int - 'A' as int + 10
    else 0
  }

  /** c is one of the first b characters of "0123456789ABCDEF". */
  predicate IsDigit(c: char, b: nat) {
    ('0' <= c <= '9' || 'A' <= c <= 'F') && DigitValue(c) < b
  }

  predicate IsNumeral(s: string, b: nat) {
    forall i :: 0 <= i < |s| ==> IsDigit(s[i], b)
  }

  /** The number a digit string denotes in base b, most significant digit first. */
  function Value(s: string, b: nat): nat {
    if s == [] then 0 else Value(s[..|s| - 1], b) * b + DigitValue(s[|s| - 1])
  }

  /** n written in base b with no leading zeros ("0" for zero). */
  function Digits(n: nat, b: nat): string
    requires IsBase(b)
    decreases n
  {
    if n < b then [DigitChar(n)] else Digits(n / b, b) + [DigitChar(n % b)]
  }

  /** `String.PadLeft(width, c)`: s, preceded by as many c as it takes to reach width. */
  function PadLeft(s: string, width: nat, c: char): (r: string)
    ensures |r| >= width && |r| >= |s|
    ensures |r| > |s| ==> |r| == width
    ensures r[|r| - |s|..] == s
    ensures forall i :: 0 <= i < |r| - |s| ==> r[i] == c
  {
    if |s| >= width then s else seq(width - |s|, _ => c) + s
  }

  /** `ToString("X4")` of a non-negative number: at least four upper-case hex digits. */
  function Hex4(n: nat): string {
    PadLeft(Digits(n, 16), 4, '0')
  }

  lemma DigitCharValue(d: nat)
    requires d < 16
    ensures DigitValue(DigitChar(d)) == d
    ensures forall b :: d < b ==> IsDigit(DigitChar(d), b)
  {
  }

  lemma DivMod(n: nat, b: nat)
    requires b >= 2 && n >= b
    ensures n == n / b * b + n % b && n % b < b && 1 <= n / b < n
  {
  }

  lemma ValueSnoc(s: string, c: char, b: nat)
    ensures Value(s + [c], b) == Value(s, b) * b + DigitValue(c)
  {
    assert (s + [c])[..|s|] == s;
  }

  /**
   * Digits is a faithful numeral: it uses only base-b digits, reads back as n,
   * is never empty and has no leading zero.
   */
  lemma {:induction false} DigitsCorrect(n: nat, b: nat)
    requires IsBase(b)
    ensures IsNumeral(Digits(n, b), b)
    ensures Value(Digits(n, b), b) == n
    ensures |Digits(n, b)| >= 1
    ensures |Digits(n, b)| > 1 ==> Digits(n, b)[0] != '0'
    decreases n
  {
    if n < b {
      DigitCharValue(n);
    } else {
      DivMod(n, b);
      var q, r := n / b, n % b;
      var s, d := Digits(q, b), DigitChar(r);
      assert Digits(n, b) == s + [d];
      DigitsCorrect(q, b);
      DigitCharValue(n % b);
      ValueSnoc(s, d, b);
      assert Value(s + [d], b) == q * b + r;
      assert IsNumeral(s + [d], b) by {
        forall i | 0 <= i < |s| + 1 ensures IsDigit((s + [d])[i], b) {
          if i < |s| { assert (s + [d])[i] == s[i]; }
        }
      }
      assert (s + [d])[0] == s[0];
    }
  }

  /** A number below b^k needs at most k digits. */
  lemma {:induction false} DigitsLength(n: nat, b: nat, k: nat)
    requires IsBase(b) && k >= 1 && n < Pow(b, k)
    ensures |Digits(n, b)| <= k
    decreases k
  {
    if n >= b {
      assert Pow(b, 1) == b;
      assert k >= 2;
      var p := Pow(b, k - 1);
      DivMod(n, b);
      if n / b >= p {
        MulMonotone(n / b, p, b);
        assert false;
      }
      DigitsLength(n / b, b, k - 1);
    }
  }

  lemma MulMonotone(x: nat, y: nat, b: nat)
    requires x >= y
    ensures x * b >= y * b
  {
  }

  lemma {:induction false} ZerosValue(k: nat, b: nat)
    ensures Value(seq(k, _ => '0'), b) == 0
    ensures IsNumeral(seq(k, _ => '0'), b) <== b >= 1
  {
    if k > 0 {
      assert seq(k, _ => '0')[..k - 1] == seq(k - 1, _ => '0');
      ZerosValue(k - 1, b);
    }
  }

  /** Leading zeros change neither the value nor the digit alphabet. */
  lemma {:induction false} LeadingZeros(k: nat, s: string, b: nat)
    ensures Value(seq(k, _ => '0') + s, b) == Value(s, b)
    decreases |s|
  {
    var z := seq(k, _ => '0');
    if s == [] {
      assert z + s == z;
      ZerosValue(k, b);
    } else {
      var s' := s[..|s| - 1];
      assert (z + s)[..|z + s| - 1] == z + s';
      LeadingZeros(k, s', b);
    }
  }

  lemma PadLeftZeros(s: string, width: nat, b: nat)
    requires IsNumeral(s, b) && b >= 1
    ensures Value(PadLeft(s, width, '0'), b) == Value(s, b)
    ensures IsNumeral(PadLeft(s, width, '0'), b)
  {
    if |s| < width {
      LeadingZeros(width - |s|, s, b);
      ZerosValue(width - |s|, b);
    }
  }

  /** `ToString("X4")` reads back as the number and has at least four hex digits. */
  lemma Hex4Correct(n: nat)
    ensures |Hex4(n)| >= 4
    ensures IsNumeral(Hex4(n), 16) && Value(Hex4(n), 16) == n
    ensures n < 0x1_0000 ==> |Hex4(n)| == 4
  {
    DigitsCorrect(n, 16);
    PadLeftZeros(Digits(n, 16), 4, 16);
    if n < 0x1_0000 {
      assert Pow(16, 4) == 0x1_0000 by {
        assert Pow(16, 2) == 256;
      }
      DigitsLength(n, 16, 4);
    }
  }
}
