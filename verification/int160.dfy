/** The 160-bit identifiers of the DHT and their XOR distance.

    An identifier is 20 bytes, read as a big-endian integer. The code compares and combines
    identifiers byte by byte; the theorems below are about the integer reading and about the
    160 individual bits, and say that the byte loops implement the Kademlia metric.
 */
module Int160Model {

  const BYTES: nat := 20
  const BITS: nat := 160

  type Int160 = s: seq<bv8> | |s| == 20 witness seq(20, _ => 0 as bv8)

  // --------------------------------------------------------------------------------------
  // Operations, as the source computes them
  // --------------------------------------------------------------------------------------

  /** `1 << (7 - k)` */
  function Mask(k: nat): bv8
    requires k < 8
  {
    if k == 0 then 0x80 else if k == 1 then 0x40 else if k == 2 then 0x20 else if k == 3 then 0x10
    else if k == 4 then 0x08 else if k == 5 then 0x04 else if k == 6 then 0x02 else 0x01
  }

  /** Bit `k` of a byte, most significant first; `ByteBitIsShift` relates it to the shifted form. */
  predicate ByteBit(b: bv8, k: nat)
    requires k < 8
  {
    b & Mask(k) != 0
  }

  predicate GetBit(x: Int160, index: nat)
    requires index < BITS
  {
    ByteBit(x[index / 8], index % 8)
  }

  function ByteWithBit(b: bv8, k: nat, val: bool): bv8
    requires k < 8
  {
    (b & !Mask(k)) | (if val then Mask(k) else 0)
  }

  function WithBit(x: Int160, index: nat, val: bool): Int160
    requires index < BITS
  {
    x[index / 8 := ByteWithBit(x[index / 8], index % 8, val)]
  }

  function XorBytes(a: seq<bv8>, b: seq<bv8>): (r: seq<bv8>)
    requires |a| == |b|
    ensures |r| == |a|
  {
    seq(|a|, i requires 0 <= i < |a| => a[i] ^ b[i])
  }

  function Distance(a: Int160, b: Int160): Int160 {
    XorBytes(a, b)
  }

  /** The number of significant bits of the integer, which is what `big.Int` reports. */
  function BitLength(n: nat): nat {
    if n == 0 then 0 else 1 + BitLength(n / 2)
  }

  function BitLen(x: Int160): nat {
    BitLength(Value(x))
  }

  /** Byte-wise comparison from the most significant byte. */
  method Cmp(a: Int160, b: Int160) returns (c: int)
    ensures c == -1 <==> Value(a) < Value(b)
    ensures c == 0 <==> a == b
    ensures c == 1 <==> Value(a) > Value(b)
    ensures c in {-1, 0, 1}
  {
    for i := 0 to BYTES
      invariant a[..i] == b[..i]
    {
      if a[i] < b[i] {
        FirstDifferenceDecides(a, b, i);
        return -1;
      } else if a[i] > b[i] {
        FirstDifferenceDecides(b, a, i);
        return 1;
      }
      assert a[..i + 1] == a[..i] + [a[i]];
      assert b[..i + 1] == b[..i] + [b[i]];
    }
    assert a == a[..20] && b == b[..20];
    return 0;
  }

  /** The loop behind `Distance`: the receiver's bytes are overwritten one by one. */
  method Xor(receiver: Int160, b1: Int160, b2: Int160) returns (r: Int160)
    ensures r == Distance(b1, b2)
  {
    r := receiver;
    for i := 0 to BYTES
      invariant forall k :: 0 <= k < i ==> r[k] == b1[k] ^ b2[k]
    {
      r := r[i := b1[i] ^ b2[i]];
    }
  }

  method IsZero(x: Int160) returns (z: bool)
    ensures z <==> Value(x) == 0
  {
    ValueZeroIff(x);
    for i := 0 to BYTES
      invariant forall k :: 0 <= k < i ==> x[k] == 0
    {
      if x[i] != 0 {
        return false;
      }
    }
    return true;
  }

  method WithMax(receiver: Int160) returns (r: Int160)
    ensures forall x: Int160 :: Value(x) <= Value(r)
  {
    r := receiver;
    for i := 0 to BYTES
      invariant forall k :: 0 <= k < i ==> r[k] == 255
    {
      r := r[i := 255];
    }
    forall x: Int160 ensures Value(x) <= Value(r) {
      AllOnesIsMaximal(x, r);
    }
  }

  // --------------------------------------------------------------------------------------
  // The integer reading and the bit reading
  // --------------------------------------------------------------------------------------

  function Value(s: seq<bv8>): nat {
    if s == [] then 0 else 256 * Value(s[..|s| - 1]) + s[|s| - 1] as nat
  }

  function Digit(b: bool): nat {
    if b then 1 else 0
  }

  function BitsValue(b: seq<bool>): nat {
    if b == [] then 0 else 2 * BitsValue(b[..|b| - 1]) + Digit(b[|b| - 1])
  }

  function BitsOf(s: seq<bv8>): (r: seq<bool>)
    ensures |r| == 8 * |s|
  {
    seq(8 * |s|, i requires 0 <= i < 8 * |s| => ByteBit(s[i / 8], i % 8))
  }

  function Pow2(n: nat): (r: nat)
    ensures r > 0
  {
    if n == 0 then 1 else 2 * Pow2(n - 1)
  }

  function EightBits(q: seq<bool>): nat
    requires |q| == 8
  {
    128 * Digit(q[0]) + 64 * Digit(q[1]) + 32 * Digit(q[2]) + 16 * Digit(q[3])
    + 8 * Digit(q[4]) + 4 * Digit(q[5]) + 2 * Digit(q[6]) + Digit(q[7])
  }

  function ByteBits(b: bv8): (r: seq<bool>)
    ensures |r| == 8
    ensures forall k :: 0 <= k < 8 ==> r[k] == ByteBit(b, k)
  {
    [ByteBit(b, 0), ByteBit(b, 1), ByteBit(b, 2), ByteBit(b, 3),
     ByteBit(b, 4), ByteBit(b, 5), ByteBit(b, 6), ByteBit(b, 7)]
  }

  lemma ByteFromBits(b: bv8)
    ensures b as nat == EightBits(ByteBits(b))
  {
  }

  lemma EightMoreBits(p: seq<bool>, q: seq<bool>)
    requires |q| == 8
    ensures BitsValue(p + q) == 256 * BitsValue(p) + EightBits(q)
  {
    assert p + q[..0] == p;
    OneMoreBit(p, q, 0);
    OneMoreBit(p, q, 1);
    OneMoreBit(p, q, 2);
    OneMoreBit(p, q, 3);
    OneMoreBit(p, q, 4);
    OneMoreBit(p, q, 5);
    OneMoreBit(p, q, 6);
    OneMoreBit(p, q, 7);
    assert q[..8] == q;
  }

  lemma OneMoreBit(p: seq<bool>, q: seq<bool>, k: nat)
    requires k < |q|
    ensures BitsValue(p + q[..k + 1]) == 2 * BitsValue(p + q[..k]) + Digit(q[k])
  {
    var s := p + q[..k + 1];
    assert s[..|s| - 1] == p + q[..k];
  }

  lemma SplitLastByte(s: seq<bv8>)
    requires s != []
    ensures BitsOf(s) == BitsOf(s[..|s| - 1]) + ByteBits(s[|s| - 1])
  {
  }

  lemma AppendByte(s: seq<bv8>)
    requires s != []
    ensures BitsValue(BitsOf(s)) == 256 * BitsValue(BitsOf(s[..|s| - 1])) + s[|s| - 1] as nat
  {
    SplitLastByte(s);
    EightMoreBits(BitsOf(s[..|s| - 1]), ByteBits(s[|s| - 1]));
    ByteFromBits(s[|s| - 1]);
  }

  /** The bytes and the bits of an identifier spell the same integer. */
  lemma {:induction false} BitsSpellValue(s: seq<bv8>)
    ensures BitsValue(BitsOf(s)) == Value(s)
  {
    if s != [] {
      BitsSpellValue(s[..|s| - 1]);
      AppendByte(s);
    }
  }

  lemma {:induction false} BitsBound(b: seq<bool>)
    ensures BitsValue(b) < Pow2(|b|)
  {
    if b != [] {
      BitsBound(b[..|b| - 1]);
    }
  }

  /** Reading the bits from the front: the leading bit weighs `2^(n-1)`. */
  lemma {:induction false} LeadingBit(b: seq<bool>)
    requires b != []
    ensures BitsValue(b) == Digit(b[0]) * Pow2(|b| - 1) + BitsValue(b[1..])
  {
    if |b| > 1 {
      var init := b[..|b| - 1];
      LeadingBit(init);
      assert b[1..][..|b| - 2] == init[1..];
    }
  }

  lemma SameQuotientAndRemainder(m: nat, x: bv8, n: nat, y: bv8)
    requires 256 * m + x as nat == 256 * n + y as nat
    ensures m == n && x == y
  {
  }

  /** Two identifiers that denote the same integer are the same identifier. */
  lemma {:induction false} ValueInjective(s: seq<bv8>, t: seq<bv8>)
    requires |s| == |t|
    requires Value(s) == Value(t)
    ensures s == t
  {
    if s != [] {
      var p, q := s[..|s| - 1], t[..|t| - 1];
      SameQuotientAndRemainder(Value(p), s[|s| - 1], Value(q), t[|t| - 1]);
      ValueInjective(p, q);
      assert s == p + [s[|s| - 1]] && t == q + [t[|t| - 1]];
    }
  }

  lemma {:induction false} DominatedPrefix(s: seq<bv8>, t: seq<bv8>, n: nat)
    requires n <= |s| == |t|
    requires Value(s[..n]) < Value(t[..n])
    ensures Value(s) < Value(t)
    decreases |s| - n
  {
    if n == |s| {
      assert s[..n] == s && t[..n] == t;
    } else {
      assert s[..n + 1][..n] == s[..n] && t[..n + 1][..n] == t[..n];
      DominatedPrefix(s, t, n + 1);
    }
  }

  lemma FirstDifferenceDecides(a: Int160, b: Int160, i: nat)
    requires i < BYTES
    requires a[..i] == b[..i]
    requires a[i] < b[i]
    ensures Value(a) < Value(b)
  {
    assert a[..i + 1][..i] == a[..i] && b[..i + 1][..i] == b[..i];
    DominatedPrefix(a, b, i + 1);
  }

  lemma {:induction false} ZeroBytes(s: seq<bv8>)
    ensures Value(s) == 0 <==> forall k :: 0 <= k < |s| ==> s[k] == 0
  {
    if s != [] {
      ZeroBytes(s[..|s| - 1]);
    }
  }

  lemma ValueZeroIff(x: Int160)
    ensures Value(x) == 0 <==> forall k :: 0 <= k < BYTES ==> x[k] == 0
  {
    ZeroBytes(x);
  }

  lemma {:induction false} AllOnesIsMaximal(s: seq<bv8>, t: seq<bv8>)
    requires |s| == |t|
    requires forall k :: 0 <= k < |t| ==> t[k] == 255
    ensures Value(s) <= Value(t)
  {
    if s != [] {
      AllOnesIsMaximal(s[..|s| - 1], t[..|t| - 1]);
    }
  }

  // --------------------------------------------------------------------------------------
  // Single bits
  // --------------------------------------------------------------------------------------

  /** The bit test by mask is the source's test `b >> (7 - k) & 1 == 1`. */
  lemma ByteBitIsShift(b: bv8)
    ensures ByteBit(b, 0) <==> (b >> 7) & 1 == 1
    ensures ByteBit(b, 1) <==> (b >> 6) & 1 == 1
    ensures ByteBit(b, 2) <==> (b >> 5) & 1 == 1
    ensures ByteBit(b, 3) <==> (b >> 4) & 1 == 1
    ensures ByteBit(b, 4) <==> (b >> 3) & 1 == 1
    ensures ByteBit(b, 5) <==> (b >> 2) & 1 == 1
    ensures ByteBit(b, 6) <==> (b >> 1) & 1 == 1
    ensures ByteBit(b, 7) <==> b & 1 == 1
  {
  }

  lemma ByteWithBitGet(b: bv8, k: nat, val: bool, j: nat)
    requires k < 8 && j < 8
    ensures ByteBit(ByteWithBit(b, k, val), j) == if j == k then val else ByteBit(b, j)
  {
  }

  /** Setting one bit changes that bit and no other. */
  lemma WithBitGet(x: Int160, index: nat, val: bool, j: nat)
    requires index < BITS && j < BITS
    ensures GetBit(WithBit(x, index, val), j) == if j == index then val else GetBit(x, j)
  {
    if j / 8 == index / 8 {
      ByteWithBitGet(x[index / 8], index % 8, val, j % 8);
    }
  }

  function XorBits(p: seq<bool>, q: seq<bool>): (r: seq<bool>)
    requires |p| == |q|
    ensures |r| == |p|
  {
    seq(|p|, i requires 0 <= i < |p| => p[i] != q[i])
  }

  /** The byte-wise exclusive or is the bit-wise one. */
  lemma DistanceBits(a: Int160, b: Int160)
    ensures BitsOf(Distance(a, b)) == XorBits(BitsOf(a), BitsOf(b))
  {
  }

  // --------------------------------------------------------------------------------------
  // The metric
  // --------------------------------------------------------------------------------------

  lemma DistanceSymmetric(a: Int160, b: Int160)
    ensures Distance(a, b) == Distance(b, a)
  {
  }

  lemma DistanceZeroIff(a: Int160, b: Int160)
    ensures Value(Distance(a, b)) == 0 <==> a == b
  {
    ValueZeroIff(Distance(a, b));
    if forall k :: 0 <= k < BYTES ==> Distance(a, b)[k] == 0 {
      forall k | 0 <= k < BYTES ensures a[k] == b[k] {
        assert a[k] ^ b[k] == Distance(a, b)[k];
      }
    } else {
      var k :| 0 <= k < BYTES && Distance(a, b)[k] != 0;
      assert a[k] ^ b[k] != 0;
    }
  }

  lemma {:induction false} XorBelowSum(p: seq<bool>, q: seq<bool>)
    requires |p| == |q|
    ensures BitsValue(XorBits(p, q)) <= BitsValue(p) + BitsValue(q)
  {
    if p != [] {
      XorBelowSum(p[..|p| - 1], q[..|q| - 1]);
      assert XorBits(p, q)[..|p| - 1] == XorBits(p[..|p| - 1], q[..|q| - 1]);
    }
  }

  /** The triangle inequality, on the integers the identifiers denote. */
  lemma Triangle(a: Int160, b: Int160, c: Int160)
    ensures Value(Distance(a, c)) <= Value(Distance(a, b)) + Value(Distance(b, c))
  {
    var ab, bc, ac := Distance(a, b), Distance(b, c), Distance(a, c);
    assert Distance(ab, bc) == ac by {
      forall i | 0 <= i < BYTES ensures (a[i] ^ b[i]) ^ (b[i] ^ c[i]) == a[i] ^ c[i] {}
    }
    DistanceBits(ab, bc);
    XorBelowSum(BitsOf(ab), BitsOf(bc));
    BitsSpellValue(ab);
    BitsSpellValue(bc);
    BitsSpellValue(ac);
  }

  function ByteOf(n: nat): (b: bv8)
    requires n < 256
    ensures b as nat == n
  {
    if n == 0 then 0 else ByteOf(n - 1) + 1
  }

  function Encode(n: nat, len: nat): (r: seq<bv8>)
    ensures |r| == len
  {
    if len == 0 then [] else Encode(n / 256, len - 1) + [ByteOf(n % 256)]
  }

  function Pow256(n: nat): nat {
    if n == 0 then 1 else 256 * Pow256(n - 1)
  }

  lemma {:induction false} EncodeValue(n: nat, len: nat)
    requires n < Pow256(len)
    ensures Value(Encode(n, len)) == n
  {
    if len > 0 {
      EncodeValue(n / 256, len - 1);
      var r := Encode(n, len);
      assert r[..len - 1] == Encode(n / 256, len - 1);
    }
  }

  /** Every 160-bit distance from `x` is reached, and by one identifier only. */
  lemma ExactlyOnePointAtDistance(x: Int160, d: nat)
    requires d < Pow256(BYTES)
    ensures exists y: Int160 ::
              && Value(Distance(x, y)) == d
              && forall z: Int160 :: Value(Distance(x, z)) == d ==> z == y
  {
    var e: Int160 := Encode(d, BYTES);
    EncodeValue(d, BYTES);
    var y := Distance(x, e);
    assert Distance(x, y) == e by {
      forall i | 0 <= i < BYTES ensures x[i] ^ (x[i] ^ e[i]) == e[i] {}
    }
    forall z: Int160 | Value(Distance(x, z)) == d ensures z == y {
      ValueInjective(Distance(x, z), e);
      forall i | 0 <= i < BYTES ensures z[i] == y[i] {
        assert e[i] == x[i] ^ z[i];
        assert x[i] ^ (x[i] ^ z[i]) == z[i];
      }
    }
  }

  // --------------------------------------------------------------------------------------
  // Common prefixes
  // --------------------------------------------------------------------------------------

  /** The number of leading bits on which two bit strings agree. */
  function CommonPrefix(p: seq<bool>, q: seq<bool>): (n: nat)
    requires |p| == |q|
    ensures n <= |p|
    ensures p[..n] == q[..n]
    ensures n < |p| ==> p[n] != q[n]
  {
    if p == [] || p[0] != q[0] then 0 else 1 + CommonPrefix(p[1..], q[1..])
  }

  function CommonPrefixLen(a: Int160, b: Int160): nat {
    CommonPrefix(BitsOf(a), BitsOf(b))
  }

  lemma {:induction false} BitLengthBetween(n: nat, k: nat)
    requires k > 0 && Pow2(k - 1) <= n < Pow2(k)
    ensures BitLength(n) == k
  {
    if k > 1 {
      BitLengthBetween(n / 2, k - 1);
    }
  }

  lemma {:induction false} XorBitLength(p: seq<bool>, q: seq<bool>)
    requires |p| == |q|
    ensures BitLength(BitsValue(XorBits(p, q))) == |p| - CommonPrefix(p, q)
  {
    if p != [] {
      var x := XorBits(p, q);
      LeadingBit(x);
      assert x[1..] == XorBits(p[1..], q[1..]);
      if p[0] == q[0] {
        XorBitLength(p[1..], q[1..]);
      } else {
        BitsBound(x[1..]);
        BitLengthBetween(BitsValue(x), |p|);
      }
    }
  }

  /** The bit length of a distance counts exactly the bits after the common prefix. */
  lemma DistanceBitLen(a: Int160, b: Int160)
    ensures BitLen(Distance(a, b)) == BITS - CommonPrefixLen(a, b)
  {
    DistanceBits(a, b);
    XorBitLength(BitsOf(a), BitsOf(b));
    BitsSpellValue(Distance(a, b));
  }

  lemma {:induction false} BitLengthMonotone(m: nat, n: nat)
    requires m <= n
    ensures BitLength(m) <= BitLength(n)
  {
    if m > 0 {
      BitLengthMonotone(m / 2, n / 2);
    }
  }

  /** Sharing a strictly longer prefix with the target means being strictly closer to it. */
  lemma LongerPrefixIsCloser(target: Int160, a: Int160, b: Int160)
    requires CommonPrefixLen(target, a) > CommonPrefixLen(target, b)
    ensures Value(Distance(target, a)) < Value(Distance(target, b))
  {
    DistanceBitLen(target, a);
    DistanceBitLen(target, b);
    if Value(Distance(target, b)) <= Value(Distance(target, a)) {
      BitLengthMonotone(Value(Distance(target, b)), Value(Distance(target, a)));
      assert false;
    }
  }

  /** Writing a bit moves the integer by that bit's weight. */
  lemma WithBitValue(x: Int160, index: nat, val: bool)
    requires index < BITS
    ensures Value(WithBit(x, index, val)) + Digit(GetBit(x, index)) * Pow2(BITS - 1 - index)
            == Value(x) + Digit(val) * Pow2(BITS - 1 - index)
  {
    var y := WithBit(x, index, val);
    assert BitsOf(y) == BitsOf(x)[index := val] by {
      forall j | 0 <= j < BITS ensures BitsOf(y)[j] == BitsOf(x)[index := val][j] {
        WithBitGet(x, index, val, j);
        assert BitsOf(y)[j] == GetBit(y, j) && BitsOf(x)[j] == GetBit(x, j);
      }
    }
    BitsSpellValue(x);
    BitsSpellValue(y);
    UpdateValue(BitsOf(x), index, val);
  }

  lemma {:induction false} UpdateValue(b: seq<bool>, index: nat, val: bool)
    requires index < |b|
    ensures BitsValue(b[index := val]) + Digit(b[index]) * Pow2(|b| - 1 - index)
            == BitsValue(b) + Digit(val) * Pow2(|b| - 1 - index)
  {
    LeadingBit(b);
    LeadingBit(b[index := val]);
    if index == 0 {
      assert b[0 := val][1..] == b[1..];
    } else {
      UpdateValue(b[1..], index - 1, val);
      assert b[index := val][1..] == b[1..][index - 1 := val];
    }
  }
}
