/** Byte strings, their XOR, and the big-endian encodings the index is packed with. */
module Bytes {

  type byte = b: int | 0 <= b < 256

  type Bytes = seq<byte>

  datatype Option<+T> = None | Some(value: T)

  const TWO32: nat := 0x1_0000_0000

  type UInt32 = n: nat | n < TWO32

  /** The `width` low-order bytes of `n`, most significant first. */
  function BigEndian(n: nat, width: nat): (s: Bytes)
    ensures |s| == width
  {
    if width == 0 then [] else BigEndian(n / 256, width - 1) + [n % 256]
  }

  /** The number a big-endian byte string denotes (big.Int.SetBytes, BigEndian.Uint32). */
  function FromBigEndian(s: Bytes): (n: nat)
    ensures n < Pow256(|s|)
  {
    if s == [] then 0 else FromBigEndian(s[..|s| - 1]) * 256 + s[|s| - 1]
  }

  function Pow256(k: nat): (p: nat)
    ensures p > 0
  {
    if k == 0 then 1 else 256 * Pow256(k - 1)
  }

  /** big.Int.Bytes: the shortest big-endian form, empty for zero. */
  function MinimalBytes(n: nat): Bytes {
    if n == 0 then [] else MinimalBytes(n / 256) + [n % 256]
  }

  function Zeros(k: nat): (s: Bytes)
    ensures |s| == k
  {
    seq(k, _ => 0)
  }

  /** The exclusive or of the `bits` low-order bits. */
  function XorBits(a: nat, b: nat, bits: nat): (r: nat)
    ensures r < Pow2(bits)
  {
    if bits == 0 then 0
    else (if a % 2 == b % 2 then 0 else 1) + 2 * XorBits(a / 2, b / 2, bits - 1)
  }

  function Pow2(bits: nat): (p: nat)
    ensures p > 0
  {
    if bits == 0 then 1 else 2 * Pow2(bits - 1)
  }

  /** `a ^ b` on bytes. */
  function XorByte(a: byte, b: byte): byte {
    assert Pow2(8) == 256;
    XorBits(a, b, 8)
  }

  function Xor(x: Bytes, y: Bytes): (s: Bytes)
    requires |x| <= |y|
    ensures |s| == |x|
  {
    seq(|x|, i requires 0 <= i < |x| => XorByte(x[i], y[i]))
  }

  lemma {:induction false} BigEndianRoundTrip(n: nat, width: nat)
    requires n < Pow256(width)
    ensures FromBigEndian(BigEndian(n, width)) == n
  {
    if width > 0 {
      BigEndianRoundTrip(n / 256, width - 1);
      var s := BigEndian(n, width);
      assert s[..|s| - 1] == BigEndian(n / 256, width - 1);
    }
  }

  lemma BigEndianInjective(m: nat, n: nat, width: nat)
    requires m < Pow256(width) && n < Pow256(width)
    requires BigEndian(m, width) == BigEndian(n, width)
    ensures m == n
  {
    BigEndianRoundTrip(m, width);
    BigEndianRoundTrip(n, width);
  }

  /** Byte `i` of the fixed-width form is that digit of the number, most significant first. */
  lemma {:induction false} BigEndianDigits(n: nat, width: nat, i: nat)
    requires i < width
    ensures BigEndian(n, width)[i] == (n / Pow256(width - 1 - i)) % 256
  {
    if i < width - 1 {
      BigEndianDigits(n / 256, width - 1, i);
      DivDiv(n, 256, Pow256(width - 2 - i));
    }
  }

  /** binary.BigEndian.PutUint32. */
  lemma FourBytes(n: nat)
    ensures BigEndian(n, 4) == [n / 0x100_0000 % 256, n / 0x1_0000 % 256, n / 0x100 % 256, n % 256]
  {
    var s := BigEndian(n, 4);
    assert Pow256(1) == 0x100 && Pow256(2) == 0x1_0000 && Pow256(3) == 0x100_0000;
    BigEndianDigits(n, 4, 0);
    BigEndianDigits(n, 4, 1);
    BigEndianDigits(n, 4, 2);
    BigEndianDigits(n, 4, 3);
  }

  /** binary.BigEndian.Uint32. */
  lemma FromFourBytes(b0: byte, b1: byte, b2: byte, b3: byte)
    ensures FromBigEndian([b0, b1, b2, b3]) == b0 * 0x100_0000 + b1 * 0x1_0000 + b2 * 0x100 + b3
  {
    var s1: Bytes := [b0];
    var s2: Bytes := [b0, b1];
    var s3: Bytes := [b0, b1, b2];
    var s4: Bytes := [b0, b1, b2, b3];
    assert s1[..0] == [] && s2[..1] == s1 && s3[..2] == s2 && s4[..3] == s3;
    assert FromBigEndian(s1) == b0;
    assert FromBigEndian(s2) == b0 * 256 + b1;
    assert FromBigEndian(s3) == b0 * 0x1_0000 + b1 * 0x100 + b2;
  }

  lemma DivDiv(n: nat, c: nat, p: nat)
    requires c > 0 && p > 0
    ensures n / (c * p) == (n / c) / p
  {
    var m := n / c;
    var q, r, e := m / p, m % p, n % c;
    Regroup(c, p, q, r);
    TimesLess(c, r, p);
    TimesLess(p, 0, c);
    DivUnique(n, c * p, q, c * r + e);
  }

  lemma Regroup(c: nat, p: nat, q: nat, r: nat)
    ensures c * (p * q + r) == (c * p) * q + c * r
  {
    assert c * (p * q) == (c * p) * q;
  }

  lemma TimesLess(c: nat, r: nat, p: nat)
    requires c > 0 && r < p
    ensures c * r + c <= c * p
  {
    AtLeastOnce(c, p - r);
    assert c * (p - r) == c * p - c * r;
  }

  lemma AtLeastOnce(d: nat, k: int)
    requires k > 0
    ensures d * k >= d
  {
  }

  lemma DivUnique(n: nat, d: nat, q: nat, r: nat)
    requires d > 0 && n == d * q + r && r < d
    ensures n / d == q
  {
    var x := n / d;
    assert d * (x - q) == r - n % d;
    if x > q {
      AtLeastOnce(d, x - q);
    } else if x < q {
      AtLeastOnce(d, q - x);
    }
  }

  /** Encoding what a byte string denotes gives the byte string back. */
  lemma {:induction false} FromBigEndianRoundTrip(s: Bytes)
    ensures BigEndian(FromBigEndian(s), |s|) == s
  {
    if s != [] {
      var n := |s| - 1;
      FromBigEndianRoundTrip(s[..n]);
      assert s == s[..n] + [s[n]];
    }
  }

  lemma FromBigEndianInjective(s: Bytes, t: Bytes)
    requires |s| == |t| && FromBigEndian(s) == FromBigEndian(t)
    ensures s == t
  {
    FromBigEndianRoundTrip(s);
    FromBigEndianRoundTrip(t);
  }

  /** A number fits in `k` bytes exactly when its minimal form has at most `k` of them, and the
      fixed-width form is the minimal one behind leading zeros. */
  lemma {:induction false} MinimalWidth(n: nat, k: nat)
    ensures |MinimalBytes(n)| <= k <==> n < Pow256(k)
    ensures n < Pow256(k) ==> BigEndian(n, k) == Zeros(k - |MinimalBytes(n)|) + MinimalBytes(n)
  {
    if n == 0 {
      ZeroBytes(k);
    } else if k > 0 {
      MinimalWidth(n / 256, k - 1);
    }
  }

  lemma {:induction false} ZeroBytes(k: nat)
    ensures BigEndian(0, k) == Zeros(k)
  {
    if k > 0 {
      ZeroBytes(k - 1);
    }
  }

  /** Each bit of the exclusive or is the sum of the two bits, without carry. */
  lemma {:induction false} XorBitLaw(a: nat, b: nat, bits: nat, i: nat)
    requires i < bits
    ensures (XorBits(a, b, bits) / Pow2(i)) % 2 == (a / Pow2(i) + b / Pow2(i)) % 2
  {
    var r := XorBits(a, b, bits);
    LowBit(a, b, bits);
    if i > 0 {
      XorBitLaw(a / 2, b / 2, bits - 1, i - 1);
    }
    ShiftOnce(r, i);
    ShiftOnce(a, i);
    ShiftOnce(b, i);
  }

  lemma ShiftOnce(n: nat, i: nat)
    ensures n / Pow2(i) == if i == 0 then n else (n / 2) / Pow2(i - 1)
  {
    if i > 0 {
      DivDiv(n, 2, Pow2(i - 1));
    }
  }

  lemma LowBit(a: nat, b: nat, bits: nat)
    requires bits > 0
    ensures XorBits(a, b, bits) / 2 == XorBits(a / 2, b / 2, bits - 1)
    ensures XorBits(a, b, bits) % 2 == (a + b) % 2
  {
    var low := if a % 2 == b % 2 then 0 else 1;
    var high := XorBits(a / 2, b / 2, bits - 1);
    assert (low + 2 * high) / 2 == high && (low + 2 * high) % 2 == low;
  }

  /** The same for the bytes of a masked string. */
  lemma XorBytesBit(x: Bytes, y: Bytes, k: nat, i: nat)
    requires k < |x| <= |y| && i < 8
    ensures (Xor(x, y)[k] / Pow2(i)) % 2 == (x[k] / Pow2(i) + y[k] / Pow2(i)) % 2
  {
    XorBitLaw(x[k], y[k], 8, i);
  }

  lemma {:induction false} XorBitsTwice(a: nat, b: nat, bits: nat)
    requires a < Pow2(bits)
    ensures XorBits(XorBits(a, b, bits), b, bits) == a
  {
    if bits > 0 {
      var high := XorBits(a / 2, b / 2, bits - 1);
      var low := if a % 2 == b % 2 then 0 else 1;
      assert (low + 2 * high) / 2 == high && (low + 2 * high) % 2 == low;
      XorBitsTwice(a / 2, b / 2, bits - 1);
    }
  }

  lemma {:induction false} XorBitsCommute(a: nat, b: nat, bits: nat)
    ensures XorBits(a, b, bits) == XorBits(b, a, bits)
  {
    if bits > 0 {
      XorBitsCommute(a / 2, b / 2, bits - 1);
    }
  }

  /** Masking twice with the same pad gives the message back. */
  lemma XorTwice(x: Bytes, pad: Bytes)
    requires |x| <= |pad|
    ensures Xor(Xor(x, pad), pad) == x
  {
    forall i | 0 <= i < |x| ensures XorByte(XorByte(x[i], pad[i]), pad[i]) == x[i] {
      assert Pow2(8) == 256;
      XorBitsTwice(x[i], pad[i], 8);
    }
  }

  /** The masked form may be unmasked from either side, as the server does. */
  lemma XorCommutes(x: Bytes, y: Bytes)
    requires |x| == |y|
    ensures Xor(x, y) == Xor(y, x)
  {
    forall i | 0 <= i < |x| ensures XorByte(x[i], y[i]) == XorByte(y[i], x[i]) {
      XorBitsCommute(x[i], y[i], 8);
    }
  }
}
