/** Arithmetic shared by the modules. */
module Numbers {
  type Byte = b: int | 0 <= b < 0x100

  function Power(base: nat, k: nat): nat {
    if k == 0 then 1 else base * Power(base, k - 1)
  }

  lemma AtLeastOnce(e: int, d: int)
    requires 0 < d
    ensures 1 <= e ==> d <= e * d
    ensures e <= -1 ==> e * d <= -d
  {
  }

  /** A quotient and remainder are the only ones. */
  lemma Quotient(n: int, d: int, q: int, r: int)
    requires 0 <= r < d && n == q * d + r
    ensures n / d == q && n % d == r
  {
    var e := n / d - q;
    assert e * d == r - n % d by {
      assert n == n / d * d + n % d;
      assert e * d == n / d * d - q * d;
    }
    AtLeastOnce(e, d);
  }
}
