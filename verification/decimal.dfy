/** Decimal rendering of non-negative integers (`Number.prototype.toString`)
    and left padding (`String.prototype.padStart`), with the reading-back
    function they are checked against. */
module Decimal {

  predicate IsDigit(c: char) {
    '0' <= c <= '9'
  }

  predicate AllDigits(s: string) {
    forall i :: 0 <= i < |s| ==> IsDigit(s[i])
  }

  /** A digit string contains no character other than digits. */
  lemma DigitsExclude(s: string, c: char)
    requires AllDigits(s) && !IsDigit(c)
    ensures c !in s
  {
    assert forall i :: 0 <= i < |s| ==> s[i] != c;
  }

  function DigitChar(d: nat): (c: char)
    requires d < 10
    ensures IsDigit(c)
  {
    ('0' as int + d) as char
  }

  function DigitValue(c: char): (d: nat)
    requires IsDigit(c)
    ensures d < 10 && DigitChar(d) == c
  {
    c as int - '0' as int
  }

  /** `n.toString()` for a non-negative integer: its decimal digits, with no
      leading zero except for `0` itself. */
  function ToDecimal(n: nat): (s: string)
    ensures |s| >= 1 && AllDigits(s)
    ensures s[0] == '0' ==> n == 0
    decreases n
  {
    if n < 10 then [DigitChar(n)] else ToDecimal(n / 10) + [DigitChar(n % 10)]
  }

  /** The value of a string of decimal digits (the empty string reads as 0). */
  function ParseDecimal(s: string): nat
    requires AllDigits(s)
  {
    if |s| == 0 then 0 else ParseDecimal(s[..|s| - 1]) * 10 + DigitValue(s[|s| - 1])
  }

  /** Reading back the decimal form of `n` gives `n`: nothing is lost. */
  lemma {:induction false} ParseToDecimal(n: nat)
    ensures ParseDecimal(ToDecimal(n)) == n
    decreases n
  {
    if n >= 10 {
      var s := ToDecimal(n);
      assert s[..|s| - 1] == ToDecimal(n / 10);
      ParseToDecimal(n / 10);
    }
  }

  /** The decimal form of `n` has at most `2` digits exactly when `n < 100`. */
  lemma DecimalWidth(n: nat)
    ensures |ToDecimal(n)| <= 2 <==> n < 100
    ensures n < 10 <==> |ToDecimal(n)| == 1
  {
    if n >= 10 {
      assert |ToDecimal(n)| == |ToDecimal(n / 10)| + 1;
      if n >= 100 {
        assert |ToDecimal(n / 10)| >= 2 by {
          assert n / 10 >= 10;
          assert |ToDecimal(n / 10)| == |ToDecimal(n / 100)| + 1;
        }
      }
    }
  }

  /** `s.padStart(width, fill)` for a one-character fill string. */
  function PadStart(s: string, width: nat, fill: char): (r: string)
    ensures |r| == if |s| >= width then |s| else width
    ensures r[|r| - |s|..] == s
    ensures forall i :: 0 <= i < |r| - |s| ==> r[i] == fill
  {
    if |s| >= width then s else seq(width - |s|, _ => fill) + s
  }

  /** Leading zeros do not change the value read back. */
  lemma {:induction false} ParseLeadingZeros(z: string, s: string)
    requires forall i :: 0 <= i < |z| ==> z[i] == '0'
    requires AllDigits(s)
    ensures AllDigits(z + s)
    ensures ParseDecimal(z + s) == ParseDecimal(s)
    decreases |s|
  {
    if |s| == 0 {
      assert z + s == z;
      ParseZeros(z);
    } else {
      assert (z + s)[..|z + s| - 1] == z + s[..|s| - 1];
      ParseLeadingZeros(z, s[..|s| - 1]);
    }
  }

  lemma {:induction false} ParseZeros(z: string)
    requires forall i :: 0 <= i < |z| ==> z[i] == '0'
    ensures AllDigits(z) && ParseDecimal(z) == 0
    decreases |z|
  {
    if |z| > 0 {
      ParseZeros(z[..|z| - 1]);
    }
  }

  /** `n.toString().padStart(width, '0')`. */
  function ZeroPad(n: nat, width: nat): string
  {
    PadStart(ToDecimal(n), width, '0')
  }

  /** Zero padding never truncates: the padded field reads back as `n`, and
      it is exactly `width` characters long when `n` fits in `width` digits. */
  lemma ZeroPadReadsBack(n: nat, width: nat)
    ensures AllDigits(ZeroPad(n, width))
    ensures ParseDecimal(ZeroPad(n, width)) == n
    ensures |ZeroPad(n, width)| >= width
    ensures |ZeroPad(n, width)| >= |ToDecimal(n)|
  {
    var s := ToDecimal(n);
    var r := ZeroPad(n, width);
    ParseToDecimal(n);
    var z := r[..|r| - |s|];
    assert r == z + s;
    ParseLeadingZeros(z, s);
  }

  /** For values below `10^width` the padded field has exactly `width`
      digits. */
  lemma ZeroPadExact(n: nat, width: nat)
    requires width >= 1 && n < Pow10(width)
    ensures |ZeroPad(n, width)| == width
  {
    DecimalLength(n, width);
  }

  function Pow10(k: nat): (p: nat)
    ensures p >= 1
  {
    if k == 0 then 1 else 10 * Pow10(k - 1)
  }

  lemma {:induction false} DecimalLength(n: nat, k: nat)
    requires k >= 1 && n < Pow10(k)
    ensures |ToDecimal(n)| <= k
    decreases k
  {
    if n >= 10 {
      assert k >= 2;
      DecimalLength(n / 10, k - 1);
    }
  }
}
