/** Integer widths of the Java platform the codecs run on, and the
    two's-complement conversions the source performs with casts and masks. */
module Bytes {

  /** An unsigned octet, as read from or written to a stream. */
  type byte = x: int | 0 <= x < 0x100

  /** A UTF-16 code unit (Java `char`), or an unsigned 16-bit value. */
  type u16 = x: int | 0 <= x < 0x1_0000

  /** Java `int`. */
  type int32 = x: int | -0x8000_0000 <= x < 0x8000_0000

  /** Java `long`. */
  type int64 = x: int | -0x8000_0000_0000_0000 <= x < 0x8000_0000_0000_0000

  /** The result of Java `int` arithmetic whose exact value is `x`. */
  function I32(x: int): (r: int32)
    ensures -0x8000_0000 <= x < 0x8000_0000 ==> r == x
  {
    var m := x % 0x1_0000_0000;
    if m < 0x8000_0000 then m else m - 0x1_0000_0000
  }

  /** `(byte) u` for an unsigned octet: the signed 8-bit value with the same bits. */
  function S8(u: byte): (r: int)
    ensures -0x80 <= r < 0x80
  {
    if u < 0x80 then u else u - 0x100
  }

  /** `b & 0xFF` of a Java byte gives back the unsigned octet. */
  lemma UnsignedOfSigned(u: byte)
    ensures S8(u) % 0x100 == u
  {
  }

  /** `(short) u`. */
  function S16(u: u16): (r: int)
    ensures -0x8000 <= r < 0x8000
  {
    if u < 0x8000 then u else u - 0x1_0000
  }

  /** `(long) u` for a value assembled from eight octets. */
  function S64(u: int): (r: int64)
    requires 0 <= u < 0x1_0000_0000_0000_0000
    ensures r % 0x1_0000_0000_0000_0000 == u
  {
    if u < 0x8000_0000_0000_0000 then u else u - 0x1_0000_0000_0000_0000
  }

  /** Java `/` on `int`: truncates toward zero (Dafny's `/` is Euclidean). */
  function JDiv(a: int, d: int): (q: int)
    requires d > 0
    ensures a >= 0 ==> q == a / d
    ensures a < 0 ==> q == -((-a) / d)
  {
    if a >= 0 then a / d else -((-a) / d)
  }

  function Pow2(k: nat): (r: nat)
    ensures r >= 1
  {
    if k == 0 then 1 else 2 * Pow2(k - 1)
  }

  /** Java `v >> k`: an arithmetic shift, rounding toward minus infinity
      (Dafny's `/` by a positive divisor rounds the same way). */
  function ShiftRight(v: int, k: nat): int
    decreases k
  {
    if k == 0 then v else ShiftRight(v / 2, k - 1)
  }

  /** `(u >> k) & 1`: bit k of an octet. */
  function Bit(u: byte, k: nat): (r: byte)
    ensures r == 0 || r == 1
  {
    ShiftRight(u, k) % 2
  }

  /** `(u >> (k * 4)) & 0x0F` for k = 1 (high nibble) or 0 (low nibble). */
  function Nibble(u: byte, high: bool): (r: byte)
    ensures r < 16
  {
    ShiftRight(u, if high then 4 else 0) % 16
  }

  /** `n` zero octets (Java `new byte[n]`). */
  function Zeros(n: nat): (r: seq<byte>)
    ensures |r| == n && forall i :: 0 <= i < n ==> r[i] == 0
  {
    seq<byte>(n, i => 0)
  }

  function Min(a: int, b: int): (m: int)
    ensures m <= a && m <= b && (m == a || m == b)
  {
    if a <= b then a else b
  }

  /** Math.pow(2, e) truncated to `int`, for an exponent at most 8. */
  function PowTwoTruncated(e: int): (r: nat)
    requires e <= 8
    ensures e < 0 ==> r == 0
    ensures e >= 0 ==> r == Pow2(e)
  {
    if e < 0 then 0 else Pow2(e)
  }

  /** Concatenation regrouped, for streams that grow by appends. */
  lemma AppendAssoc<T>(a: seq<T>, b: seq<T>, c: seq<T>)
    ensures a + b + c == a + (b + c)
  {
  }

  /** Four sequences appended one after another are one append of their
      concatenation. */
  lemma AppendAll<T>(s: seq<T>, a: seq<T>, b: seq<T>, c: seq<T>, d: seq<T>)
    ensures s + a + b + c + d == s + (a + b + c + d)
  {
    AppendAssoc(s, a, b);
    AppendAssoc(s, a + b, c);
    AppendAssoc(s, a + b + c, d);
  }

  /** Two appends in a row are one append of two elements. */
  lemma AppendTwo<T>(s: seq<T>, a: T, b: T)
    ensures s + [a] + [b] == s + [a, b]
  {
  }

  /** Two single appends and a pair are one append of four elements. */
  lemma AppendTwoThenPair<T>(s: seq<T>, a: T, b: T, c: T, d: T)
    ensures s + [a] + [b] + [c, d] == s + [a, b, c, d]
  {
  }

  /** Four appends in a row are one append of four elements. */
  lemma AppendFour<T>(s: seq<T>, a: T, b: T, c: T, d: T)
    ensures s + [a] + [b] + [c] + [d] == s + [a, b, c, d]
  {
  }

  /** Where pixel `x` of a 1 bpp row sits: octet `x / 8`, which the loop
      reads when `x % 8 == 0`. */
  lemma BitPosition(x: nat)
    ensures x % 8 == 0 ==> (x + 7) / 8 == x / 8 && (x + 8) / 8 == x / 8 + 1
    ensures x % 8 != 0 ==> (x + 8) / 8 == (x + 7) / 8 == x / 8 + 1
    ensures (x + 1) % 8 == 0 <==> x % 8 == 7
    ensures x % 8 != 7 ==> (x + 1) / 8 == x / 8 && (x + 1) % 8 == x % 8 + 1
    ensures x % 8 == 7 ==> (x + 1) / 8 == x / 8 + 1
  {
  }

  /** The wrapped value differs from the exact one by a multiple of 2^32. */
  lemma I32Congruent(x: int)
    ensures (I32(x) - x) % 0x1_0000_0000 == 0
  {
  }

  /** A Java `int` is recovered from its unsigned 32-bit residue. */
  lemma I32OfResidue(v: int32)
    ensures I32(v % 0x1_0000_0000) == v
  {
    if v < 0 {
      assert v % 0x1_0000_0000 == v + 0x1_0000_0000;
    }
  }

  /** Java `int` arithmetic can wrap at every step or only at the end:
      the result is the same. */
  lemma I32Add(a: int, b: int)
    ensures I32(I32(a) + b) == I32(a + b)
  {
    var k := (I32(a) - a) / 0x1_0000_0000;
    assert I32(a) == a + k * 0x1_0000_0000;
    assert (I32(a) + b) % 0x1_0000_0000 == (a + b) % 0x1_0000_0000;
  }

  /** Shifting right by k after subtracting 2^n (k <= n) subtracts 2^(n-k). */
  lemma {:induction false} ShiftRightSub(v: int, n: nat, k: nat)
    requires k <= n
    ensures ShiftRight(v - Pow2(n), k) == ShiftRight(v, k) - Pow2(n - k)
    decreases k
  {
    if k > 0 {
      assert (v - Pow2(n)) / 2 == v / 2 - Pow2(n - 1);
      ShiftRightSub(v / 2, n - 1, k - 1);
    }
  }

  /** `(b >> k) & 1` on a sign-extended Java byte `b`: the same bit as on
      the unsigned octet, for the eight bit positions an octet has. */
  lemma SignedBit(u: byte, k: nat)
    requires k < 8
    ensures ShiftRight(S8(u), k) % 2 == Bit(u, k)
  {
    if u >= 0x80 {
      assert S8(u) == u - Pow2(8) by {
        assert Pow2(8) == 0x100;
      }
      ShiftRightSub(u, 8, k);
      var a, m := ShiftRight(u, k), Pow2(8 - k - 1);
      assert Pow2(8 - k) == 2 * m;
      Parity(a, m);
    }
  }

  /** Taking an even number away keeps the parity. */
  lemma Parity(a: int, m: int)
    ensures (a - 2 * m) % 2 == a % 2
  {
    var q := a / 2;
    assert a - 2 * m == 2 * (q - m) + a % 2;
  }

  /** `(b >> (k * 4)) & 0x0F` on a sign-extended Java byte `b`, k = 1 or 0:
      the same nibble as on the unsigned octet. */
  lemma SignedNibble(u: byte, k: nat)
    requires k < 2
    ensures ShiftRight(S8(u), k * 4) % 16 == Nibble(u, k == 1)
  {
    if u >= 0x80 && k == 1 {
      assert Pow2(8) == 0x100 && Pow2(4) == 16;
      ShiftRightSub(u, 8, 4);
    }
  }

  /** `a * b`, spelt out as repeated addition so that only the lemma below,
      and no other proof, has to reason about a product of two unknowns. */
  function Product(a: int, b: int): int
    decreases if b < 0 then -b else b
  {
    if b == 0 then 0
    else if b > 0 then Product(a, b - 1) + a
    else Product(a, b + 1) - a
  }

  lemma {:induction false} ProductIsMultiplication(a: int, b: int)
    ensures Product(a, b) == a * b
    decreases if b < 0 then -b else b
  {
    if b > 0 {
      ProductIsMultiplication(a, b - 1);
    } else if b < 0 {
      ProductIsMultiplication(a, b + 1);
    }
  }
}
