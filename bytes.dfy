/**
  Fixed-width unsigned integers and their little-endian byte encoding.

  C's unsigned arithmetic and its assignments into narrower fields keep the
  low bits of the mathematical value; here that is written out as Euclidean
  `%`, which for a negative operand also yields its two's-complement pattern.
 */
module Bytes {

  type byte = x: int | 0 <= x < 0x100
  type uint16 = x: int | 0 <= x < 0x1_0000
  type uint32 = x: int | 0 <= x < 0x1_0000_0000
  type uint64 = x: int | 0 <= x < 0x1_0000_0000_0000_0000

  const TwoTo16: nat := 0x1_0000
  const TwoTo32: nat := 0x1_0000_0000
  const TwoTo64: nat := 0x1_0000_0000_0000_0000

  /** The low 16 bits of `x`: what a store into a `uint16_t` keeps. */
  function U16(x: int): (r: uint16)
    ensures 0 <= x < TwoTo16 ==> r == x
    ensures (x - r) % TwoTo16 == 0
  {
    x % TwoTo16
  }

  /** The low 32 bits of `x`: what a store into a `uint32_t` keeps. */
  function U32(x: int): (r: uint32)
    ensures 0 <= x < TwoTo32 ==> r == x
    ensures (x - r) % TwoTo32 == 0
  {
    x % TwoTo32
  }

  /** The low 64 bits of `x`: what `uint64_t` / `size_t` arithmetic keeps. */
  function U64(x: int): (r: uint64)
    ensures 0 <= x < TwoTo64 ==> r == x
    ensures (x - r) % TwoTo64 == 0
  {
    x % TwoTo64
  }

  function Min(a: int, b: int): (m: int)
    ensures m <= a && m <= b && (m == a || m == b)
  {
    if a <= b then a else b
  }

  /** 256 to the power `n`: the number of values `n` bytes can hold. */
  function Pow256(n: nat): (r: nat)
    ensures r > 0
  {
    if n == 0 then 1 else 256 * Pow256(n - 1)
  }

  /** The `width` low-order bytes of `x`, least significant first. */
  function LittleEndian(x: int, width: nat): (r: seq<byte>)
    ensures |r| == width
    decreases width
  {
    if width == 0 then [] else [x % 256] + LittleEndian(x / 256, width - 1)
  }

  /** The unsigned value of a little-endian byte string. */
  function FromLittleEndian(b: seq<byte>): (r: nat)
    ensures r < Pow256(|b|)
  {
    if b == [] then 0 else b[0] + 256 * FromLittleEndian(b[1..])
  }

  lemma ModOfDecomposition(x: int, d: int, k: int, r: int)
    requires d > 0 && 0 <= r < d && x == d * k + r
    ensures x % d == r && x / d == k
  {
    var q, s := x / d, x % d;
    assert d * (q - k) == r - s;
    if q > k {
      MulAtLeast(d, q - k);
    } else if q < k {
      MulAtLeast(d, k - q);
    }
  }

  lemma DivMod(x: int, d: int)
    requires d > 0
    ensures x == d * (x / d) + x % d && 0 <= x % d < d
  {
  }

  /** `x = 256 q + r` and `q = p k + m` give `x = (256 p) k + (256 m + r)`. */
  lemma Regroup(x: int, q: int, r: int, p: int, k: int, m: int)
    requires x == 256 * q + r && q == p * k + m
    ensures x == (256 * p) * k + (256 * m + r)
  {
    assert 256 * (p * k) == (256 * p) * k;
  }

  /** A slice of a part that sits at offset `i` is the matching slice of the whole. */
  lemma SliceOfPart<T>(s: seq<T>, i: nat, t: seq<T>, k: nat, l: nat)
    requires i + |t| <= |s| && s[i..i + |t|] == t && k <= l <= |t|
    ensures s[i + k..i + l] == t[k..l]
  {
    forall j | 0 <= j < l - k
      ensures s[i + k..i + l][j] == t[k..l][j]
    {
      assert s[i + k..i + l][j] == s[i..i + |t|][k + j];
    }
  }

  /** Where the two halves of a concatenation sit. */
  lemma AppendParts<T>(a: seq<T>, b: seq<T>)
    ensures (a + b)[0..|a|] == a && (a + b)[|a|..|a| + |b|] == b
  {
  }

  /** One more factor of `w`. */
  lemma MulStep(k: nat, w: nat)
    ensures k * w >= 0 && (k + 1) * w == k * w + w
    ensures k >= 1 ==> (k - 1) * w >= 0 && w + (k - 1) * w == k * w
  {
  }

  lemma MulAtLeast(a: int, b: int)
    requires a > 0 && b >= 1
    ensures a * b >= a
  {
  }

  /** Encoding then decoding keeps exactly the low `8 * width` bits. */
  lemma {:induction false} LittleEndianRoundTrip(x: int, width: nat)
    ensures FromLittleEndian(LittleEndian(x, width)) == x % Pow256(width)
    decreases width
  {
    if width > 0 {
      var p := Pow256(width - 1);
      var q, r := x / 256, x % 256;
      LittleEndianRoundTrip(q, width - 1);
      var m, k := q % p, q / p;
      DivMod(x, 256);
      DivMod(q, p);
      assert LittleEndian(x, width)[1..] == LittleEndian(q, width - 1);
      assert FromLittleEndian(LittleEndian(x, width)) == r + 256 * m;
      Regroup(x, q, r, p, k, m);
      ModOfDecomposition(x, 256 * p, k, 256 * m + r);
    } else {
      assert x % 1 == 0;
    }
  }

  /** Decoding then encoding gives the bytes back. */
  lemma {:induction false} FromLittleEndianRoundTrip(b: seq<byte>)
    ensures LittleEndian(FromLittleEndian(b), |b|) == b
  {
    if b != [] {
      var v := FromLittleEndian(b[1..]);
      ModOfDecomposition(b[0] + 256 * v, 256, v, b[0]);
      FromLittleEndianRoundTrip(b[1..]);
    }
  }

  /** A value that fits in `width` bytes is recovered unchanged. */
  lemma LittleEndianFits(x: nat, width: nat)
    requires x < Pow256(width)
    ensures FromLittleEndian(LittleEndian(x, width)) == x
  {
    LittleEndianRoundTrip(x, width);
  }

  /** The byte string of an ASCII literal. */
  function Ascii(s: string): (r: seq<byte>)
    requires forall i :: 0 <= i < |s| ==> s[i] as int < 0x80
    ensures |r| == |s| && forall i :: 0 <= i < |s| ==> r[i] == s[i] as int
  {
    seq(|s|, i requires 0 <= i < |s| => s[i] as int)
  }
}
