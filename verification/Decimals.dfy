/** Decimal numerals as the formatting machinery writes them. */
module Decimals {
  import opened Numbers

  function Digit(d: nat): char
    requires d < 10
  {
    '0' + d as char
  }

  /** The plain numeral of `n`. */
  function Decimal(n: nat): (s: string)
    ensures s != []
  {
    if n < 10 then [Digit(n)] else Decimal(n / 10) + [Digit(n % 10)]
  }

  /** The numeral of `n`, filled up with zeros on the left to `width` characters. */
  function Padded(n: nat, width: nat): string {
    if |Decimal(n)| < width then Zeros(width - |Decimal(n)|) + Decimal(n) else Decimal(n)
  }

  function Zeros(k: nat): (s: string)
    ensures |s| == k
  {
    if k == 0 then [] else ['0'] + Zeros(k - 1)
  }

  /** The number that a string of digits stands for. */
  function Value(s: string): int {
    if s == [] then 0 else Value(s[..|s| - 1]) * 10 + (s[|s| - 1] as int - '0' as int)
  }

  lemma {:induction false} DecimalReadsBack(n: nat)
    ensures Value(Decimal(n)) == n
  {
    if n < 10 {
      assert Decimal(n)[..0] == [];
    } else {
      DecimalReadsBack(n / 10);
      assert Decimal(n)[..|Decimal(n)| - 1] == Decimal(n / 10);
    }
  }

  lemma {:induction false} LeadingZero(s: string)
    ensures Value(['0'] + s) == Value(s)
  {
    var t := ['0'] + s;
    if s == [] {
      assert t[..0] == [];
    } else {
      assert t[..|t| - 1] == ['0'] + s[..|s| - 1];
      LeadingZero(s[..|s| - 1]);
    }
  }

  lemma {:induction false} ZerosRead(k: nat, s: string)
    ensures Value(Zeros(k) + s) == Value(s)
  {
    if k == 0 {
      assert Zeros(0) + s == s;
    } else {
      assert Zeros(k) + s == ['0'] + (Zeros(k - 1) + s);
      LeadingZero(Zeros(k - 1) + s);
      ZerosRead(k - 1, s);
    }
  }

  lemma PaddedReadsBack(n: nat, width: nat)
    ensures Value(Padded(n, width)) == n
  {
    DecimalReadsBack(n);
    if |Decimal(n)| < width {
      ZerosRead(width - |Decimal(n)|, Decimal(n));
    }
  }

  lemma {:induction false} DecimalFits(n: nat, width: nat)
    requires 0 < width && n < Power(10, width)
    ensures |Decimal(n)| <= width
  {
    if n >= 10 {
      assert Power(10, width) == 10 * Power(10, width - 1);
      DecimalFits(n / 10, width - 1);
    }
  }

  /** A number below 10^width takes exactly `width` characters. */
  lemma PaddedFits(n: nat, width: nat)
    requires 0 < width && n < Power(10, width)
    ensures |Padded(n, width)| == width
  {
    DecimalFits(n, width);
  }

  /** A number of at least 10^width takes more than `width` characters. */
  lemma {:induction false} DecimalIsLong(n: nat, width: nat)
    requires Power(10, width) <= n
    ensures width < |Decimal(n)|
    decreases width
  {
    if width > 0 {
      DecimalIsLong(n / 10, width - 1);
    }
  }
}
