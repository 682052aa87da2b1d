/** Tensor-cache keys: FNV-1a over the payload, and the file name made of it. */
module Fnv {
  import opened Numbers

  const MODULUS: nat := 0x1_0000_0000_0000_0000
  const OFFSET_BASIS: nat := 0xcbf2_9ce4_8422_2325
  const PRIME: nat := 0x0000_0100_0000_01b3
  /** The inverse of the prime modulo 2^64. */
  const PRIME_INVERSE: nat := 0xce96_5057_aff6_957b

  type Hash64 = h: int | 0 <= h < MODULUS

  /** Exclusive or, bit by bit. */
  function Xor(a: nat, b: nat): nat
    decreases a + b
  {
    if a + b == 0 then 0 else 2 * Xor(a / 2, b / 2) + (if a % 2 == b % 2 then 0 else 1)
  }

  lemma {:induction false} XorFits(a: nat, b: nat, k: nat)
    requires a < Power(2, k) && b < Power(2, k)
    ensures Xor(a, b) < Power(2, k)
    decreases k
  {
    if a + b > 0 {
      XorFits(a / 2, b / 2, k - 1);
    }
  }

  lemma {:induction false} XorTwice(a: nat, b: nat)
    ensures Xor(Xor(a, b), b) == a
    decreases a + b
  {
    if a + b > 0 {
      XorTwice(a / 2, b / 2);
      var bit := if a % 2 == b % 2 then 0 else 1;
      var x := Xor(a, b);
      assert x / 2 == Xor(a / 2, b / 2) && x % 2 == bit;
    }
  }

  lemma {:induction false} XorCommutes(a: nat, b: nat)
    ensures Xor(a, b) == Xor(b, a)
    decreases a + b
  {
    if a + b > 0 {
      XorCommutes(a / 2, b / 2);
    }
  }

  lemma Modulus()
    ensures Power(2, 64) == MODULUS
  {
    assert Power(2, 8) == 0x100;
    Doubled(8);
    Doubled(16);
    Doubled(32);
  }

  lemma {:induction false} PowerAdds(j: nat, k: nat)
    ensures Power(2, j + k) == Power(2, j) * Power(2, k)
    decreases k
  {
    if k > 0 {
      PowerAdds(j, k - 1);
      assert Power(2, j + k) == 2 * Power(2, j + (k - 1));
    }
  }

  lemma Doubled(k: nat)
    ensures Power(2, 2 * k) == Power(2, k) * Power(2, k)
  {
    PowerAdds(k, k);
  }

  function Times(x: nat): (r: Hash64) {
    x * PRIME % MODULUS
  }

  function Over(x: nat): (r: Hash64) {
    x * PRIME_INVERSE % MODULUS
  }

  /** The two multiplications undo each other, because the product of the prime and its
      inverse is one more than a multiple of 2^64. */
  lemma Inverses(x: Hash64)
    ensures Over(Times(x)) == x && Times(Over(x)) == x
  {
    var k := PRIME * PRIME_INVERSE / MODULUS;
    assert PRIME * PRIME_INVERSE == 1 + k * MODULUS;
    var q := x * PRIME / MODULUS;
    assert x * PRIME == q * MODULUS + Times(x);
    assert Times(x) * PRIME_INVERSE == x + (x * k - q * PRIME_INVERSE) * MODULUS;
    Quotient(Times(x) * PRIME_INVERSE, MODULUS, x * k - q * PRIME_INVERSE, x);
    var q' := x * PRIME_INVERSE / MODULUS;
    assert x * PRIME_INVERSE == q' * MODULUS + Over(x);
    assert Over(x) * PRIME == x + (x * k - q' * PRIME) * MODULUS;
    Quotient(Over(x) * PRIME, MODULUS, x * k - q' * PRIME, x);
  }

  /** One step of the hash: the byte is mixed in. */
  function Mixed(hash: Hash64, b: Byte): Hash64 {
    Times(Xor(hash, b))
  }

  function Unmixed(hash: Hash64, b: Byte): nat {
    Xor(Over(hash), b)
  }

  lemma XorIsHash(hash: Hash64, b: Byte)
    ensures Xor(hash, b) < MODULUS
  {
    Modulus();
    XorFits(hash, b, 64);
  }

  /** For each byte, mixing it in is a bijection on hashes: it can be undone, and every
      hash is the result of mixing the byte into one. */
  lemma MixingIsBijective(hash: Hash64, b: Byte)
    ensures Unmixed(Mixed(hash, b), b) == hash
    ensures Unmixed(hash, b) < MODULUS && Mixed(Unmixed(hash, b), b) == hash
  {
    hide Xor, Times, Over;
    XorIsHash(hash, b);
    XorIsHash(Over(hash), b);
    Inverses(Xor(hash, b));
    Inverses(hash);
    XorTwice(hash, b);
    XorTwice(Over(hash), b);
  }

  lemma BytesMixApart(hash: Hash64, b: Byte, c: Byte)
    requires Mixed(hash, b) == Mixed(hash, c)
    ensures b == c
  {
    hide Xor, Times, Over;
    XorIsHash(hash, b);
    XorIsHash(hash, c);
    Inverses(Xor(hash, b));
    Inverses(Xor(hash, c));
    XorCommutes(hash, b);
    XorCommutes(hash, c);
    XorTwice(b, hash);
    XorTwice(c, hash);
  }

  function HashFrom(hash: Hash64, bytes: seq<Byte>): Hash64 {
    if bytes == [] then hash else Mixed(HashFrom(hash, bytes[..|bytes| - 1]), bytes[|bytes| - 1])
  }

  function Hash(bytes: seq<Byte>): Hash64 {
    HashFrom(OFFSET_BASIS, bytes)
  }

  lemma {:induction false} HashFromSplits(hash: Hash64, s: seq<Byte>, t: seq<Byte>)
    ensures HashFrom(hash, s + t) == HashFrom(HashFrom(hash, s), t)
  {
    hide Mixed;
    if t == [] {
      assert s + t == s;
    } else {
      assert (s + t)[..|s + t| - 1] == s + t[..|t| - 1];
      HashFromSplits(hash, s, t[..|t| - 1]);
    }
  }

  lemma OneByte(hash: Hash64, b: Byte)
    ensures HashFrom(hash, [b]) == Mixed(hash, b)
  {
    hide Mixed;
    assert [b][..0] == [];
  }

  /** Hashing on from two different hashes never meets. */
  lemma {:induction false} NeverMeets(g: Hash64, h: Hash64, bytes: seq<Byte>)
    requires HashFrom(g, bytes) == HashFrom(h, bytes)
    ensures g == h
    decreases bytes
  {
    hide Mixed, Unmixed;
    if bytes != [] {
      var init, b := bytes[..|bytes| - 1], bytes[|bytes| - 1];
      MixingIsBijective(HashFrom(g, init), b);
      MixingIsBijective(HashFrom(h, init), b);
      NeverMeets(g, h, init);
    }
  }

  /** Two payloads of one length that differ in exactly one byte have different hashes. */
  lemma OneByteMatters(s: seq<Byte>, t: seq<Byte>, i: nat)
    requires i < |s| == |t| && s[i] != t[i]
    requires forall k :: 0 <= k < |s| && k != i ==> s[k] == t[k]
    ensures Hash(s) != Hash(t)
  {
    hide Mixed, HashFrom;
    var before, after := s[..i], s[i + 1..];
    assert s == before + ([s[i]] + after) && t == before + ([t[i]] + after);
    var h := Hash(before);
    HashFromSplits(OFFSET_BASIS, before, [s[i]] + after);
    HashFromSplits(OFFSET_BASIS, before, [t[i]] + after);
    HashFromSplits(h, [s[i]], after);
    HashFromSplits(h, [t[i]], after);
    OneByte(h, s[i]);
    OneByte(h, t[i]);
    if Hash(s) == Hash(t) {
      NeverMeets(Mixed(h, s[i]), Mixed(h, t[i]), after);
      BytesMixApart(h, s[i], t[i]);
    }
  }

  // ---- Published values ----

  lemma {:induction false} XorAgainstNothing(a: nat)
    ensures Xor(a, 0) == a
    decreases a
  {
    if a > 0 {
      XorAgainstNothing(a / 2);
    }
  }

  lemma XorDoubles(a: nat, b: nat, x: nat, y: nat)
    requires x < 2 && y < 2
    ensures Xor(2 * a + x, 2 * b + y) == 2 * Xor(a, b) + if x == y then 0 else 1
  {
    assert (2 * a + x) / 2 == a && (2 * b + y) / 2 == b;
    if 2 * a + x + (2 * b + y) == 0 {
      assert Xor(a, b) == 0;
    }
  }

  function Differ(x: nat, y: nat): nat {
    if x == y then 0 else 1
  }

  lemma XorOfTwoBits(a: nat, b: nat, x1: nat, x0: nat, y1: nat, y0: nat)
    requires x1 < 2 && x0 < 2 && y1 < 2 && y0 < 2
    ensures Xor(4 * a + 2 * x1 + x0, 4 * b + 2 * y1 + y0) == 4 * Xor(a, b) + 2 * Differ(x1, y1) + Differ(x0, y0)
  {
    hide Xor;
    XorDoubles(a, b, x1, y1);
    XorDoubles(2 * a + x1, 2 * b + y1, x0, y0);
    assert 2 * (2 * a + x1) + x0 == 4 * a + 2 * x1 + x0 && 2 * (2 * b + y1) + y0 == 4 * b + 2 * y1 + y0;
  }

  /** The low bytes that the values below come across. */
  lemma LowBytes()
    ensures Xor(0x25, 0x61) == 0x44 && Xor(0x25, 0x66) == 0x43 && Xor(0xd9, 0x6f) == 0xb6 && Xor(0x42, 0x6f) == 0x2d
    ensures Xor(0x77, 0x62) == 0x15 && Xor(0xaf, 0x61) == 0xce && Xor(0x0a, 0x72) == 0x78
  {
    hide Xor;
    XorAgainstNothing(0);
    XorOfTwoBits(0, 0, 0, 0, 0, 1);
    XorOfTwoBits(0, 1, 1, 0, 1, 0);
    XorOfTwoBits(2, 6, 0, 1, 0, 0);
    XorOfTwoBits(9, 24, 0, 1, 0, 1);
    XorOfTwoBits(0, 0, 0, 0, 0, 1);
    XorOfTwoBits(0, 1, 1, 0, 1, 0);
    XorOfTwoBits(2, 6, 0, 1, 0, 1);
    XorOfTwoBits(9, 25, 0, 1, 1, 0);
    XorOfTwoBits(0, 0, 1, 1, 0, 1);
    XorOfTwoBits(3, 1, 0, 1, 1, 0);
    XorOfTwoBits(13, 6, 1, 0, 1, 1);
    XorOfTwoBits(54, 27, 0, 1, 1, 1);
    XorOfTwoBits(0, 0, 0, 1, 0, 1);
    XorOfTwoBits(1, 1, 0, 0, 1, 0);
    XorOfTwoBits(4, 6, 0, 0, 1, 1);
    XorOfTwoBits(16, 27, 1, 0, 1, 1);
    XorOfTwoBits(0, 0, 0, 1, 0, 1);
    XorOfTwoBits(1, 1, 1, 1, 1, 0);
    XorOfTwoBits(7, 6, 0, 1, 0, 0);
    XorOfTwoBits(29, 24, 1, 1, 1, 0);
    XorOfTwoBits(0, 0, 1, 0, 0, 1);
    XorOfTwoBits(2, 1, 1, 0, 1, 0);
    XorOfTwoBits(10, 6, 1, 1, 0, 0);
    XorOfTwoBits(43, 24, 1, 1, 0, 1);
    XorOfTwoBits(0, 0, 0, 0, 0, 1);
    XorOfTwoBits(0, 1, 0, 0, 1, 1);
    XorOfTwoBits(0, 7, 1, 0, 0, 0);
    XorOfTwoBits(2, 28, 1, 0, 1, 0);
  }

  /** `high` with `k` zero bits after it. */
  function Shifted(high: nat, k: nat): nat {
    if k == 0 then high else 2 * Shifted(high, k - 1)
  }

  /** Bits change only the bits below. */
  lemma {:induction false} XorIsLow(high: nat, low: nat, b: nat, k: nat)
    requires low < Power(2, k) && b < Power(2, k)
    ensures Xor(Shifted(high, k) + low, b) == Shifted(high, k) + Xor(low, b)
    decreases k
  {
    hide Xor;
    if k == 0 {
      XorAgainstNothing(high);
      XorAgainstNothing(0);
    } else {
      XorIsLow(high, low / 2, b / 2, k - 1);
      XorDoubles(Shifted(high, k - 1) + low / 2, b / 2, low % 2, b % 2);
      XorDoubles(low / 2, b / 2, low % 2, b % 2);
    }
  }

  lemma ByteShift(high: nat)
    ensures Shifted(high, 8) == 0x100 * high && Power(2, 8) == 0x100
  {
    assert Shifted(high, 1) == 2 * high;
    assert Shifted(high, 2) == 4 * high;
    assert Shifted(high, 3) == 8 * high;
    assert Shifted(high, 4) == 16 * high;
    assert Shifted(high, 5) == 32 * high;
    assert Shifted(high, 6) == 64 * high;
    assert Shifted(high, 7) == 128 * high;
  }

  /** One step with its numbers: the low byte `was` turns into `low`, and the product with
      the prime leaves `next` beyond `over` times 2^64. */
  lemma MixedIs(high: nat, was: Byte, b: Byte, low: Byte, over: nat, next: Hash64)
    requires 0x100 * high + was < MODULUS && Xor(was, b) == low
    requires (0x100 * high + low) * PRIME == over * MODULUS + next
    ensures Mixed(0x100 * high + was, b) == next
  {
    hide Xor, Shifted;
    ByteShift(high);
    XorIsLow(high, was, b, 8);
    Quotient((0x100 * high + low) * PRIME, MODULUS, over, next);
  }

  lemma HashOne(hash: Hash64, bytes: seq<Byte>, b: Byte, next: Hash64)
    requires Hash(bytes) == hash && Mixed(hash, b) == next
    ensures Hash(bytes + [b]) == next
  {
    hide Mixed;
    assert (bytes + [b])[..|bytes|] == bytes;
  }

  lemma HashOfNothing()
    ensures Hash([]) == 0xcbf2_9ce4_8422_2325
  {
  }

  lemma HashOfA()
    ensures Hash([0x61]) == 0xaf63_dc4c_8601_ec8c
  {
    hide Mixed, Hash, Xor;
    LowBytes();
    HashOfNothing();
    MixedIs(0x00cb_f29c_e484_2223, 0x25, 0x61, 0x44, 0x00cb_f29c_e5de, 0xaf63_dc4c_8601_ec8c);
    HashOne(0xcbf2_9ce4_8422_2325, [], 0x61, 0xaf63_dc4c_8601_ec8c);
    assert [] + [0x61] == [0x61];
  }

  lemma HashOfFo()
    ensures Hash([0x66, 0x6f]) == 0x0898_5907_b541_d342
  {
    hide Mixed, Hash, Xor;
    LowBytes();
    HashOfNothing();
    MixedIs(0x00cb_f29c_e484_2223, 0x25, 0x66, 0x43, 0x00cb_f29c_e5de, 0xaf63_db4c_8601_ead9);
    HashOne(0xcbf2_9ce4_8422_2325, [], 0x66, 0xaf63_db4c_8601_ead9);
    assert [] + [0x66] == [0x66];
    MixedIs(0x00af_63db_4c86_01ea, 0xd9, 0x6f, 0xb6, 0x00af_63db_4db0, 0x0898_5907_b541_d342);
    HashOne(0xaf63_db4c_8601_ead9, [0x66], 0x6f, 0x0898_5907_b541_d342);
    assert [0x66] + [0x6f] == [0x66, 0x6f];
  }

  lemma HashOfFoob()
    ensures Hash([0x66, 0x6f, 0x6f, 0x62]) == 0xdd12_0e79_0c25_12af
  {
    hide Mixed, Hash, Xor;
    LowBytes();
    HashOfFo();
    MixedIs(0x0008_9859_07b5_41d3, 0x42, 0x6f, 0x2d, 0x0008_9859_07c3, 0xdcb2_7518_fed9_d577);
    HashOne(0x0898_5907_b541_d342, [0x66, 0x6f], 0x6f, 0xdcb2_7518_fed9_d577);
    assert [0x66, 0x6f] + [0x6f] == [0x66, 0x6f, 0x6f];
    MixedIs(0x00dc_b275_18fe_d9d5, 0x77, 0x62, 0x15, 0x00dc_b275_1a75, 0xdd12_0e79_0c25_12af);
    HashOne(0xdcb2_7518_fed9_d577, [0x66, 0x6f, 0x6f], 0x62, 0xdd12_0e79_0c25_12af);
    assert [0x66, 0x6f, 0x6f] + [0x62] == [0x66, 0x6f, 0x6f, 0x62];
  }

  lemma HashOfFoobar()
    ensures Hash([0x66, 0x6f, 0x6f, 0x62, 0x61, 0x72]) == 0x8594_4171_f739_67e8
  {
    hide Mixed, Hash, Xor;
    LowBytes();
    HashOfFoob();
    MixedIs(0x00dd_120e_790c_2512, 0xaf, 0x61, 0xce, 0x00dd_120e_7a83, 0xcac1_65af_a2fe_f40a);
    HashOne(0xdd12_0e79_0c25_12af, [0x66, 0x6f, 0x6f, 0x62], 0x61, 0xcac1_65af_a2fe_f40a);
    assert [0x66, 0x6f, 0x6f, 0x62] + [0x61] == [0x66, 0x6f, 0x6f, 0x62, 0x61];
    MixedIs(0x00ca_c165_afa2_fef4, 0x0a, 0x72, 0x78, 0x00ca_c165_b0fb, 0x8594_4171_f739_67e8);
    HashOne(0xcac1_65af_a2fe_f40a, [0x66, 0x6f, 0x6f, 0x62, 0x61], 0x72, 0x8594_4171_f739_67e8);
    assert [0x66, 0x6f, 0x6f, 0x62, 0x61] + [0x72] == [0x66, 0x6f, 0x6f, 0x62, 0x61, 0x72];
  }

  /** The published values of the hash for "", "a" and "foobar". */
  lemma PublishedValues()
    ensures Hash([]) == 0xcbf2_9ce4_8422_2325
    ensures Hash([0x61]) == 0xaf63_dc4c_8601_ec8c
    ensures Hash([0x66, 0x6f, 0x6f, 0x62, 0x61, 0x72]) == 0x8594_4171_f739_67e8
  {
    hide Hash;
    HashOfNothing();
    HashOfA();
    HashOfFoobar();
  }

  method Fnv1a64(bytes: seq<Byte>) returns (hash: Hash64)
    ensures hash == Hash(bytes)
  {
    hide Xor;
    hash := OFFSET_BASIS;
    for i := 0 to |bytes|
      invariant hash == HashFrom(OFFSET_BASIS, bytes[..i])
    {
      assert bytes[..i + 1][..i] == bytes[..i];
      var mixed := Xor(hash, bytes[i]);
      hash := mixed * PRIME % MODULUS;
    }
    assert bytes[..|bytes|] == bytes;
  }

  // ---- The file name ----

  function HexDigit(n: nat): char
    requires n < 16
  {
    "0123456789abcdef"[n]
  }

  lemma SixteenDigits()
    ensures Power(16, 16) == MODULUS
  {
    assert Power(16, 2) == 0x100;
    assert Power(16, 4) == 0x1_0000;
    assert Power(16, 6) == 0x100_0000;
    assert Power(16, 8) == 0x1_0000_0000;
    assert Power(16, 10) == 0x100_0000_0000;
    assert Power(16, 12) == 0x1_0000_0000_0000;
    assert Power(16, 14) == 0x100_0000_0000_0000;
  }

  /** `width` lower-case hex digits, highest first. */
  function Hex(n: nat, width: nat): (s: string)
    ensures |s| == width
  {
    if width == 0 then [] else Hex(n / 16, width - 1) + [HexDigit(n % 16)]
  }

  /** The value of a lower-case hex digit. */
  function DigitValue(c: char): int {
    if '0' <= c <= '9' then c as int - '0' as int else 10 + (c as int - 'a' as int)
  }

  function FromHex(s: string): int {
    if s == [] then 0 else 16 * FromHex(s[..|s| - 1]) + DigitValue(s[|s| - 1])
  }

  /** Read as a number in base sixteen, the digits are the value. */
  lemma {:induction false} HexReadsBack(n: nat, width: nat)
    requires n < Power(16, width)
    ensures FromHex(Hex(n, width)) == n
    ensures forall i :: 0 <= i < width ==> '0' <= Hex(n, width)[i] <= '9' || 'a' <= Hex(n, width)[i] <= 'f'
    decreases width
  {
    if width > 0 {
      HexReadsBack(n / 16, width - 1);
      assert Hex(n, width)[..width - 1] == Hex(n / 16, width - 1);
      DigitReadsBack(n % 16);
    }
  }

  lemma DigitReadsBack(n: nat)
    requires n < 16
    ensures DigitValue(HexDigit(n)) == n && ('0' <= HexDigit(n) <= '9' || 'a' <= HexDigit(n) <= 'f')
  {
  }

  lemma HexTellsApart(m: nat, n: nat, width: nat)
    requires m < Power(16, width) && n < Power(16, width) && Hex(m, width) == Hex(n, width)
    ensures m == n
  {
    HexReadsBack(m, width);
    HexReadsBack(n, width);
  }

  function FileName(payload: seq<Byte>): string {
    Hex(Hash(payload), 16)
  }

  /** A file name is the hash in sixteen hex digits, so payloads of one length that differ
      in one byte never share a cache file. */
  lemma NamesTellHashesApart(s: seq<Byte>, t: seq<Byte>)
    ensures |FileName(s)| == 16 && FromHex(FileName(s)) == Hash(s)
    ensures FileName(s) == FileName(t) <==> Hash(s) == Hash(t)
  {
    hide Hash, Power, Hex;
    SixteenDigits();
    HexReadsBack(Hash(s), 16);
    if FileName(s) == FileName(t) {
      HexTellsApart(Hash(s), Hash(t), 16);
    }
  }

  lemma OneByteMovesTheFile(s: seq<Byte>, t: seq<Byte>, i: nat)
    requires i < |s| == |t| && s[i] != t[i]
    requires forall k :: 0 <= k < |s| && k != i ==> s[k] == t[k]
    ensures FileName(s) != FileName(t)
  {
    hide Hash, FileName;
    OneByteMatters(s, t, i);
    NamesTellHashesApart(s, t);
  }
}
