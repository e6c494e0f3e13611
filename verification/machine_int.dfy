/**
 * Fixed-width C integers over Dafny's unbounded `int`, and the little-endian
 * byte views the firmware obtains through unions and `(uint8_t *)&x` casts on
 * its little-endian target.
 */
module MachineInt {

  type uint8 = x: int | 0 <= x < 0x100
  type uint16 = x: int | 0 <= x < 0x1_0000
  type uint32 = x: int | 0 <= x < 0x1_0000_0000
  type int8 = x: int | -0x80 <= x < 0x80
  type int16 = x: int | -0x8000 <= x < 0x8000
  type int32 = x: int | -0x8000_0000 <= x < 0x8000_0000

  /** 256^n: the number of distinct values n bytes can hold. */
  function Pow256(n: nat): (r: nat)
    ensures r >= 1
    ensures n >= 1 ==> r >= 0x100
  {
    if n == 0 then 1 else 0x100 * Pow256(n - 1)
  }

  /** The byte counts the firmware uses. */
  lemma Pow256Values()
    ensures Pow256(1) == 0x100 && Pow256(2) == 0x1_0000
    ensures Pow256(3) == 0x100_0000 && Pow256(4) == 0x1_0000_0000
  {
  }

  /** 2^n, used for C's shift operators. */
  function Pow2(n: nat): (r: nat)
    ensures r >= 1
  {
    if n == 0 then 1 else 2 * Pow2(n - 1)
  }

  function Min(a: int, b: int): int { if a <= b then a else b }

  /** Conversion to an unsigned C type: reduction modulo 2^width. */
  function U8(x: int): uint8 { x % 0x100 }
  function U16(x: int): uint16 { x % 0x1_0000 }
  function U32(x: int): uint32 { x % 0x1_0000_0000 }

  /** Conversion to a signed C type as GCC defines it: keep the low bits and
      read them as two's complement. */
  function I8(x: int): (r: int8)
    ensures (r - x) % 0x100 == 0
    ensures -0x80 <= x < 0x80 ==> r == x
  {
    var w := x % 0x100;
    if w < 0x80 then w else w - 0x100
  }

  function I16(x: int): (r: int16)
    ensures (r - x) % 0x1_0000 == 0
    ensures -0x8000 <= x < 0x8000 ==> r == x
  {
    var w := x % 0x1_0000;
    if w < 0x8000 then w else w - 0x1_0000
  }

  function I32(x: int): (r: int32)
    ensures (r - x) % 0x1_0000_0000 == 0
    ensures -0x8000_0000 <= x < 0x8000_0000 ==> r == x
  {
    var w := x % 0x1_0000_0000;
    if w < 0x8000_0000 then w else w - 0x1_0000_0000
  }

  /** The n bytes of x's two's-complement representation, least significant
      first: what a little-endian target stores for an n-byte integer. */
  function LeBytes(x: int, n: nat): (r: seq<uint8>)
    ensures |r| == n
    decreases n
  {
    if n == 0 then [] else [x % 0x100] + LeBytes(x / 0x100, n - 1)
  }

  /** The unsigned value of a little-endian byte string. */
  function LeValue(bs: seq<uint8>): (r: nat)
    ensures r < Pow256(|bs|)
  {
    if |bs| == 0 then 0 else bs[0] + 0x100 * LeValue(bs[1..])
  }

  /** Euclidean division is unique: the facts every byte-level proof rests on. */
  lemma DivModUnique(x: int, d: int, q: int, r: int)
    requires d > 0 && x == d * q + r && 0 <= r < d
    ensures x / d == q && x % d == r
  {
    var q', r' := x / d, x % d;
    assert x == d * q' + r';
    assert d * (q' - q) == r - r' by {
      assert d * (q' - q) == d * q' - d * q;
    }
    if q' - q >= 1 {
      MulAtLeast(d, q' - q);
    } else if q - q' >= 1 {
      MulAtLeast(d, q - q');
    }
  }

  lemma MulAtLeast(d: int, k: int)
    requires d > 0 && k >= 1
    ensures d * k >= d
  {
    assert d * k == d + d * (k - 1);
    assert d * (k - 1) >= 0;
  }

  lemma ModSplit(x: int, p: nat)
    requires p >= 1
    ensures x % (0x100 * p) == x % 0x100 + 0x100 * ((x / 0x100) % p)
  {
    var q, r := x / 0x100, x % 0x100;
    var a, b := q / p, q % p;
    assert x == 0x100 * q + r;
    assert q == p * a + b;
    assert x == (0x100 * p) * a + (0x100 * b + r);
    assert 0 <= 0x100 * b + r < 0x100 * p;
    DivModUnique(x, 0x100 * p, a, 0x100 * b + r);
  }

  /** Storing x in n bytes and reading them back yields x modulo 256^n. */
  lemma {:induction false} LeValueOfBytes(x: int, n: nat)
    ensures LeValue(LeBytes(x, n)) == x % Pow256(n)
    decreases n
  {
    if n > 0 {
      LeValueOfBytes(x / 0x100, n - 1);
      assert LeBytes(x, n)[1..] == LeBytes(x / 0x100, n - 1);
      ModSplit(x, Pow256(n - 1));
    }
  }

  /** A value that fits in n bytes survives the round trip unchanged. */
  lemma LeRoundTrip(x: int, n: nat)
    requires 0 <= x < Pow256(n)
    ensures LeValue(LeBytes(x, n)) == x
  {
    LeValueOfBytes(x, n);
  }

  /** Reading a byte string and storing the value back reproduces the bytes. */
  lemma {:induction false} LeBytesOfValue(bs: seq<uint8>)
    ensures LeBytes(LeValue(bs), |bs|) == bs
  {
    if |bs| > 0 {
      var v := LeValue(bs);
      DivModUnique(v, 0x100, LeValue(bs[1..]), bs[0]);
      LeBytesOfValue(bs[1..]);
    }
  }

  /** Two byte strings of the same length with the same value are equal. */
  lemma LeValueInjective(a: seq<uint8>, b: seq<uint8>)
    requires |a| == |b| && LeValue(a) == LeValue(b)
    ensures a == b
  {
    LeBytesOfValue(a);
    LeBytesOfValue(b);
  }

  /** The low k bytes of an n-byte store are the k-byte store. */
  lemma {:induction false} LeBytesPrefix(x: int, k: nat, n: nat)
    requires k <= n
    ensures LeBytes(x, n)[..k] == LeBytes(x, k)
    decreases k
  {
    if k > 0 {
      LeBytesPrefix(x / 0x100, k - 1, n - 1);
      assert LeBytes(x, n)[..k] == [x % 0x100] + LeBytes(x / 0x100, n - 1)[..k - 1];
    }
  }

  /** Appending a byte adds it at the next power of 256. */
  lemma {:induction false} LeValueSnoc(bs: seq<uint8>, b: uint8)
    ensures LeValue(bs + [b]) == LeValue(bs) + b * Pow256(|bs|)
  {
    if |bs| == 0 {
      assert bs + [b] == [b];
      assert [b][1..] == [];
    } else {
      assert (bs + [b])[1..] == bs[1..] + [b];
      LeValueSnoc(bs[1..], b);
      var p := Pow256(|bs| - 1);
      assert Pow256(|bs|) == 0x100 * p;
      MulAssoc256(b, p);
    }
  }

  lemma MulAssoc256(b: int, p: int)
    ensures 0x100 * (b * p) == b * (0x100 * p)
  {
  }

  /** The value of a string of zero bytes is zero. */
  lemma {:induction false} LeValueZeros(n: nat)
    ensures LeValue(seq(n, _ => 0)) == 0
  {
    if n > 0 {
      assert seq(n, _ => 0)[1..] == seq(n - 1, _ => 0);
      LeValueZeros(n - 1);
    }
  }

  /** The high byte shifted up by 8 over the low byte, narrowed to int16:
      two bytes read as a signed 16-bit value. */
  function LeI16(lo: uint8, hi: uint8): (r: int16)
    ensures LeBytes(r, 2) == [lo, hi]
  {
    var r := I16(lo + 0x100 * hi);
    LeBytesOfValue([lo, hi]);
    LeBytesCongruent(r, lo + 0x100 * hi, 2);
    r
  }

  /** Values that agree modulo 256^n have the same n-byte store. */
  lemma LeBytesCongruent(x: int, y: int, n: nat)
    requires n <= 4 && (x - y) % Pow256(n) == 0
    ensures LeBytes(x, n) == LeBytes(y, n)
  {
    LeValueOfBytes(x, n);
    LeValueOfBytes(y, n);
    ModCongruent(x, y, Pow256(n));
    LeValueInjective(LeBytes(x, n), LeBytes(y, n));
  }

  lemma ModCongruent(x: int, y: int, m: nat)
    requires m >= 1 && (x - y) % m == 0
    ensures x % m == y % m
  {
    var k := (x - y) / m;
    DivModUnique(x - y, m, k, 0);
    assert x == y + m * k;
    DivModUnique(x, m, y / m + k, y % m);
  }

  /** Writing an int16 as two bytes and reading them back is the identity. */
  lemma I16RoundTrip(v: int16)
    ensures LeI16(LeBytes(v, 2)[0], LeBytes(v, 2)[1]) == v
  {
    var bs := LeBytes(v, 2);
    var r := LeI16(bs[0], bs[1]);
    assert LeBytes(r, 2) == bs;
    LeValueOfBytes(r, 2);
    LeValueOfBytes(v, 2);
    SameBitsInt16(r, v);
  }

  /** Two int16 values with the same bit pattern are equal. */
  lemma SameBitsInt16(x: int16, y: int16)
    requires x % 0x1_0000 == y % 0x1_0000
    ensures x == y
  {
    if x < 0 { assert x % 0x1_0000 == x + 0x1_0000; }
    else { assert x % 0x1_0000 == x; }
    if y < 0 { assert y % 0x1_0000 == y + 0x1_0000; }
    else { assert y % 0x1_0000 == y; }
  }

  /** C's `/` on signed integers: the quotient truncated toward zero. */
  function CDiv(a: int, b: int): (q: int)
    requires b > 0
    ensures a >= 0 ==> 0 <= a - q * b < b
    ensures a < 0 ==> -b < a - q * b <= 0
  {
    if a >= 0 then a / b else -((-a) / b)
  }

  /** `>>` on a signed value: GCC shifts arithmetically, i.e. rounds toward
      minus infinity. */
  function Asr(a: int, n: nat): (q: int)
    ensures q * Pow2(n) <= a < (q + 1) * Pow2(n)
  {
    a / Pow2(n)
  }

  /** Dividing by 256 and then by p is dividing by 256 * p (both floor). */
  lemma DivSplit(x: int, p: nat)
    requires p >= 1
    ensures x / (0x100 * p) == (x / 0x100) / p
  {
    var q, r := x / 0x100, x % 0x100;
    var a, b := q / p, q % p;
    assert x == 0x100 * q + r;
    assert q == p * a + b;
    assert x == (0x100 * p) * a + (0x100 * b + r);
    assert 0 <= 0x100 * b + r < 0x100 * p;
    DivModUnique(x, 0x100 * p, a, 0x100 * b + r);
  }

  /** Byte k of an n-byte store of x is x shifted down by k bytes, reduced
      to a byte. */
  lemma {:induction false} LeBytesDigit(x: int, n: nat, k: nat)
    requires k < n
    ensures LeBytes(x, n)[k] == (x / Pow256(k)) % 0x100
    decreases k
  {
    if k > 0 {
      LeBytesDigit(x / 0x100, n - 1, k - 1);
      assert LeBytes(x, n)[k] == LeBytes(x / 0x100, n - 1)[k - 1];
      DivSplit(x, Pow256(k - 1));
    }
  }

  /** A shift by 8 more bits multiplies by 256. */
  lemma Pow2Plus8(m: nat)
    ensures Pow2(m + 8) == 0x100 * Pow2(m)
  {
    assert Pow2(m + 8) == 2 * Pow2(m + 7);
    assert Pow2(m + 7) == 2 * Pow2(m + 6);
    assert Pow2(m + 6) == 2 * Pow2(m + 5);
    assert Pow2(m + 5) == 2 * Pow2(m + 4);
    assert Pow2(m + 4) == 2 * Pow2(m + 3);
    assert Pow2(m + 3) == 2 * Pow2(m + 2);
    assert Pow2(m + 2) == 2 * Pow2(m + 1);
    assert Pow2(m + 1) == 2 * Pow2(m);
  }

  /** 2^(8k) = 256^k. */
  lemma {:induction false} Pow2Bytes(k: nat)
    ensures Pow2(8 * k) == Pow256(k)
  {
    if k > 0 {
      Pow2Bytes(k - 1);
      Pow2Plus8(8 * (k - 1));
    }
  }

  /** `(uint8_t)(a >> 8k)` on a signed int is byte k of a's little-endian
      two's-complement store, whatever a's sign. */
  lemma ShiftedByte(a: int, n: nat, k: nat)
    requires k < n
    ensures U8(Asr(a, 8 * k)) == LeBytes(a, n)[k]
  {
    Pow2Bytes(k);
    LeBytesDigit(a, n, k);
  }
}
