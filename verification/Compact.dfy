/** The compact form of difficulty targets and the work of a block
    (src/arith_uint256.cpp:207-248, src/chain.cpp:121-134). */
module Compact {
  import opened Powers
  import opened Limbs
  import opened LimbSteps
  import opened ArithUint

  const WIDTH: nat := 8
  const SIGN: nat := 0x800000
  const K: nat := 0x1000000

  function Size(c: uint32): nat {
    c / K
  }

  function Word(c: uint32): nat {
    c % SIGN
  }

  predicate Signed(c: uint32) {
    (c / SIGN) % 2 == 1
  }

  /** The whole part of mantissa * 256^(exponent - 3). */
  function Decoded(c: uint32): nat {
    Word(c) * Pow(256, Size(c)) / K
  }

  /** The number of bytes of `x`. */
  function ByteSize(x: nat): nat {
    if x == 0 then 0 else 1 + ByteSize(x / 256)
  }

  /** The number of bytes that leave the top bit free. */
  function SignedSize(x: nat): nat {
    if 2 * x >= Pow(256, ByteSize(x)) then ByteSize(x) + 1 else ByteSize(x)
  }

  function Mantissa(x: nat): nat {
    x * K / Pow(256, SignedSize(x))
  }

  function Encoded(x: nat, negative: bool): nat {
    SignedSize(x) * K + Mantissa(x) + if negative && Mantissa(x) != 0 then SIGN else 0
  }

  // ----- Sizes -----

  lemma BytePower(n: nat)
    ensures Pow(256, n) == Pow(2, 8 * n) && Pow(256, n) >= 1
  {
    assert Pow(2, 4) == 16;
    hide Pow;
    PowAdd(2, 4, 4);
    PowMul(2, 8, n);
    PowPositive(2, 8 * n);
  }

  lemma KPower()
    ensures K == Pow(256, 3)
  {
    assert Pow(256, 1) == 256;
    assert Pow(256, 2) == 256 * 256;
  }

  lemma {:induction false} ByteSizeBounds(x: nat)
    ensures x < Pow(256, ByteSize(x)) && (x > 0 ==> ByteSize(x) >= 1 && Pow(256, ByteSize(x) - 1) <= x)
  {
    if x > 0 {
      ByteSizeBounds(x / 256);
      var n := ByteSize(x) - 1;
      PowNext(256, n);
      if n >= 1 {
        PowNext(256, n - 1);
      }
    }
  }

  /** The bounds determine the size. */
  lemma ByteSizeIs(x: nat, n: nat)
    requires x < Pow(256, n) && (n > 0 ==> Pow(256, n - 1) <= x)
    ensures n == ByteSize(x)
  {
    hide Pow;
    ByteSizeBounds(x);
    BytePower(0);
    var m := ByteSize(x);
    if n < m {
      PowMono(256, n, m - 1);
    } else if m < n {
      PowMono(256, m, n - 1);
    }
  }

  /** `SignedSize` is the least size whose half exceeds the number. */
  lemma SignedSizeBounds(x: nat)
    ensures 2 * x < Pow(256, SignedSize(x))
    ensures forall n: nat :: 2 * x < Pow(256, n) ==> SignedSize(x) <= n
  {
    ByteSizeBounds(x);
    var b := ByteSize(x);
    PowNext(256, b);
    forall n: nat | 2 * x < Pow(256, n) ensures SignedSize(x) <= n {
      if n < b {
        PowMono(256, n, b - 1);
      }
    }
  }

  lemma MantissaBound(x: nat)
    ensures Mantissa(x) < SIGN
  {
    hide Pow, SignedSize;
    SignedSizeBounds(x);
    var p := Pow(256, SignedSize(x));
    FloorBelow(x * K, p, SIGN);
  }

  /** The fields of an encoded number can be read back. */
  lemma Fields(x: nat, negative: bool)
    requires Encoded(x, negative) < B
    ensures Size(Encoded(x, negative)) == SignedSize(x) && Word(Encoded(x, negative)) == Mantissa(x)
    ensures Signed(Encoded(x, negative)) <==> negative && Mantissa(x) != 0
  {
    hide Pow, SignedSize, Mantissa;
    MantissaBound(x);
  }

  // ----- Round trips -----

  lemma KeptPart(x: nat, p: nat)
    requires p > 0
    ensures (x * K / p) * p / K <= x
    ensures (x * K / p) * p / K == x <==> (x * K) % p == 0
  {
    var q, r := x * K / p, (x * K) % p;
    assert x * K == q * p + r;
    if r == 0 {
      DivModIs(q * p, K, x, 0);
    } else {
      FloorBelow(q * p, K, x);
    }
  }

  /** Encoding and decoding never gives more, and gives the number back exactly when the
      bytes below the mantissa are zero. */
  lemma EncodeDecode(x: nat)
    requires Encoded(x, false) < B
    ensures Decoded(Encoded(x, false)) <= x
    ensures Decoded(Encoded(x, false)) == x <==> (x * K) % Pow(256, SignedSize(x)) == 0
  {
    hide Pow, SignedSize, Encoded;
    Fields(x, false);
    BytePower(SignedSize(x));
    KeptPart(x, Pow(256, SignedSize(x)));
  }

  /** Every 256-bit number has a compact form of 32 bits. */
  lemma EncodedFits(x: nat, negative: bool)
    requires x < Modulus(WIDTH)
    ensures Encoded(x, negative) < B
  {
    hide Pow, SignedSize, Mantissa, Modulus;
    ModulusIsPower(WIDTH);
    BytePower(32);
    PowNext(256, 32);
    SignedSizeBounds(x);
    assert SignedSize(x) <= 33;
    MantissaBound(x);
  }

  lemma DecodedSize(c: uint32)
    ensures SignedSize(Decoded(c)) <= Size(c)
  {
    hide Pow, SignedSize, Word, Size;
    var x, p := Decoded(c), Pow(256, Size(c));
    SignedSizeBounds(x);
    BytePower(Size(c));
    WordBound(c);
    MulMono(Word(c), SIGN - 1, p);
    HalfOf(x, Word(c) * p, p);
  }

  lemma WordBound(c: uint32)
    ensures Word(c) < SIGN
  {
  }

  lemma HalfOf(x: nat, y: nat, p: nat)
    requires x == y / K && y <= (SIGN - 1) * p && p >= 1
    ensures 2 * x < p
  {
    assert x * K <= y;
  }

  /** A decoded number divides evenly by its own size. */
  lemma DecodedEven(c: uint32)
    ensures (Decoded(c) * K) % Pow(256, SignedSize(Decoded(c))) == 0
  {
    hide Pow, SignedSize, Decoded;
    var x := Decoded(c);
    var n := SignedSize(x);
    BytePower(n);
    DecodedSize(c);
    KPower();
    if n <= 3 {
      PowAdd(256, 3 - n, n);
      MulAssoc(x, Pow(256, 3 - n), Pow(256, n));
      DivModIs(x * K, Pow(256, n), x * Pow(256, 3 - n), 0);
    } else {
      DecodedWhole(c);
      PowAdd(256, Size(c) - n, n);
      MulAssoc(Word(c), Pow(256, Size(c) - n), Pow(256, n));
      DivModIs(x * K, Pow(256, n), Word(c) * Pow(256, Size(c) - n), 0);
    }
  }

  /** From three bytes on nothing is cut off. */
  lemma DecodedWhole(c: uint32)
    requires Size(c) >= 3
    ensures Decoded(c) == Word(c) * Pow(256, Size(c) - 3)
    ensures Decoded(c) * K == Word(c) * Pow(256, Size(c))
  {
    hide Pow;
    KPower();
    var s := Size(c) - 3;
    PowAdd(256, s, 3);
    MulAssoc(Word(c), Pow(256, s), K);
    DivModIs(Word(c) * Pow(256, Size(c)), K, Word(c) * Pow(256, s), 0);
  }

  /** Every decoded number survives encoding and decoding. */
  lemma DecodeEncodeDecode(c: uint32)
    ensures Encoded(Decoded(c), false) < B
    ensures Decoded(Encoded(Decoded(c), false)) == Decoded(c)
  {
    hide Pow, SignedSize, Mantissa;
    var x := Decoded(c);
    DecodedSize(c);
    MantissaBound(x);
    EncodeDecode(x);
    DecodedEven(c);
  }

  // ----- Overflow -----

  /** The source's overflow test, on the mantissa and the size. */
  predicate OverflowTest(word: nat, size: nat) {
    word != 0 && (size > 34 || (word > 0xff && size > 33) || (word > 0xffff && size > 32))
  }

  lemma FloorAtLeast(y: nat, k: nat, m: nat)
    requires k > 0
    ensures y / k >= m <==> y >= m * k
  {
    if y >= m * k {
      if y / k < m {
        MulMono(y / k + 1, m, k);
        MulDistrib(y / k, 1, k);
      }
    } else if y / k >= m {
      MulMono(m, y / k, k);
    }
  }

  lemma Scaled(w: nat, a: nat, b: nat, p: nat)
    requires p > 0
    ensures w * (a * p) >= b * p <==> w * a >= b
  {
    MulAssoc(w, a, p);
    if w * a >= b {
      MulMono(b, w * a, p);
    } else {
      MulMono(w * a + 1, b, p);
      MulDistrib(w * a, 1, p);
    }
  }

  /** 256^s against 256^32. */
  lemma SizePower(s: nat)
    ensures s == 34 ==> Pow(256, s) == 65536 * Pow(256, 32)
    ensures s == 33 ==> Pow(256, s) == 256 * Pow(256, 32)
    ensures s >= 35 ==> Pow(256, s) >= K * Pow(256, 32)
    ensures s <= 32 ==> Pow(256, s) <= Pow(256, 32)
  {
    hide Pow;
    PowNext(256, 34);
    PowNext(256, 33);
    PowNext(256, 32);
    if s >= 35 {
      PowMono(256, 35, s);
    } else if s <= 32 {
      PowMono(256, s, 32);
    }
  }

  lemma OverflowScaled(w: nat, s: nat)
    requires w < SIGN
    ensures OverflowTest(w, s) <==> w * Pow(256, s) >= K * Pow(256, 32)
  {
    hide Pow;
    var p := Pow(256, 32);
    BytePower(32);
    SizePower(s);
    if s >= 35 {
      if w >= 1 {
        MulMono(1, w, Pow(256, s));
      }
    } else if s == 34 {
      Scaled(w, 65536, K, p);
    } else if s == 33 {
      Scaled(w, 256, K, p);
    } else {
      MulMono(Pow(256, s), p, w);
      MulMono(w, SIGN, p);
    }
  }

  /** The overflow flag is set exactly when the number needs more than 256 bits. */
  lemma OverflowExact(c: uint32)
    ensures OverflowTest(Word(c), Size(c)) <==> Decoded(c) >= Modulus(WIDTH)
  {
    hide Pow, Modulus, OverflowTest, Word, Size;
    ModulusIsPower(WIDTH);
    BytePower(32);
    WordBound(c);
    FloorAtLeast(Word(c) * Pow(256, Size(c)), K, Modulus(WIDTH));
    OverflowScaled(Word(c), Size(c));
  }

  // ----- The methods -----

  /** SetCompact on a 256-bit number. */
  method SetCompact(x: BaseUint, c: uint32) returns (negative: bool, overflow: bool)
    requires x.pn.Length == WIDTH
    modifies x.pn
    ensures x.V() == Decoded(c) % x.M()
    ensures overflow <==> Decoded(c) >= x.M()
    ensures negative <==> Signed(c) && Decoded(c) != 0
  {
    hide Pow, Modulus, Prefix;
    var size, word := Size(c), Word(c);
    OverflowExact(c);
    if size <= 3 {
      SmallDecoded(c);
      word := word / Pow(256, 3 - size);
      x.Set(word);
    } else {
      x.Set(word);
      LargeDecoded(c);
      x.ShiftLeft(8 * (size - 3));
    }
    negative := word != 0 && Signed(c);
    overflow := OverflowTest(word, size);
  }

  lemma SmallDecoded(c: uint32)
    requires Size(c) <= 3
    ensures Decoded(c) == Word(c) / Pow(256, 3 - Size(c)) <= Word(c)
    ensures Decoded(c) % Modulus(WIDTH) == Decoded(c)
  {
    hide Pow, Modulus;
    var s := Size(c);
    KPower();
    PowAdd(256, s, 3 - s);
    BytePower(s);
    BytePower(3 - s);
    WordBound(c);
    ScaledQuotient(Word(c), Pow(256, s), Pow(256, 3 - s));
    QuotientLess(Word(c), Pow(256, 3 - s));
    OverflowExact(c);
    SmallMod(Decoded(c), Modulus(WIDTH));
  }

  lemma ScaledQuotient(w: nat, p: nat, q: nat)
    requires p > 0 && q > 0
    ensures p * q > 0 && w * p / (p * q) == w / q
  {
    MulMono(1, p, q);
    DivModIs(w * p, p, w, 0);
    DivDiv(w * p, p, q);
  }

  lemma LargeDecoded(c: uint32)
    requires Size(c) > 3
    ensures Decoded(c) == Word(c) * Pow(2, 8 * (Size(c) - 3))
    ensures Decoded(c) != 0 <==> Word(c) != 0
  {
    hide Pow;
    DecodedWhole(c);
    BytePower(Size(c) - 3);
    if Word(c) >= 1 {
      MulMono(1, Word(c), Pow(256, Size(c) - 3));
    }
  }

  method GetLow64(x: BaseUint) returns (r: uint64)
    requires x.pn.Length >= 2
    ensures r == x.V() % (B * B)
  {
    LowPart(x.pn[..]);
    r := x.pn[0] + x.pn[1] * B;
  }

  lemma LowPart(s: seq<uint32>)
    requires |s| >= 2
    ensures Val(s) % (B * B) == s[0] + s[1] * B
  {
    PrefixSplit(s, 2, |s|);
    PrefixNext(s, 1);
    PrefixNext(s, 0);
    assert Pow(B, 1) == B && Pow(B, 0) == 1 && Pow(B, 2) == B * B;
    var rest := Prefix(s[2..], |s| - 2);
    DivModIs(Val(s), B * B, rest, s[0] + s[1] * B);
  }

  /** The number's size in bytes and its three highest bytes. */
  method HighBytes(x: BaseUint) returns (size: nat, mantissa: nat)
    requires x.pn.Length == WIDTH
    ensures size == ByteSize(x.V()) <= 32 && mantissa == x.V() * K / Pow(256, size)
  {
    hide Pow, Prefix, Modulus, ByteSize;
    var bits := x.Bits();
    size := (bits + 7) / 8;
    SizeFromBits(x.V(), bits);
    if size <= 3 {
      SmallNumber(x.V(), size);
      var low := GetLow64(x);
      mantissa := low * Pow(2, 8 * (3 - size));
    } else {
      LargeNumber(x.V(), size);
      var bn := new BaseUint.Copy(x);
      bn.ShiftRight(8 * (size - 3));
      mantissa := GetLow64(bn);
      SmallMod(bn.V(), B * B);
    }
  }

  /** GetCompact of a 256-bit number. The asserts of the source hold. */
  method GetCompact(x: BaseUint, negative: bool) returns (c: uint32)
    requires x.pn.Length == WIDTH
    ensures c == Encoded(x.V(), negative)
  {
    hide Pow, Encoded, SignedSize, ByteSize, Mantissa;
    var size, mantissa := HighBytes(x);
    FirstMantissa(x.V(), size, mantissa);
    if (mantissa / SIGN) % 2 == 1 {
      mantissa := mantissa / 256;
      size := size + 1;
    }
    assert mantissa < SIGN && size < 256;
    EncodedIs(x.V(), size, mantissa, negative);
    c := size * K + mantissa + if negative && mantissa != 0 then SIGN else 0;
  }

  lemma EncodedIs(v: nat, size: nat, mantissa: nat, negative: bool)
    requires size == SignedSize(v) && mantissa == Mantissa(v)
    ensures Encoded(v, negative) == size * K + mantissa + if negative && mantissa != 0 then SIGN else 0
  {
  }

  lemma SizeFromBits(v: nat, bits: nat)
    requires v < Pow(2, bits) && (bits > 0 ==> Pow(2, bits - 1) <= v) && bits <= 256
    ensures (bits + 7) / 8 == ByteSize(v) <= 32
  {
    hide Pow;
    var n := (bits + 7) / 8;
    BytePower(n);
    PowMono(2, bits, 8 * n);
    if n > 0 {
      BytePower(n - 1);
      PowMono(2, 8 * (n - 1), bits - 1);
    }
    ByteSizeIs(v, n);
  }

  lemma SmallNumber(v: nat, size: nat)
    requires size == ByteSize(v) <= 3
    ensures v < K && v % (B * B) == v && v * Pow(2, 8 * (3 - size)) == v * K / Pow(256, size)
  {
    hide Pow, ByteSize;
    ByteSizeBounds(v);
    PowMono(256, size, 3);
    KPower();
    SmallMod(v, B * B);
    BytePower(3 - size);
    BytePower(size);
    PowAdd(256, 3 - size, size);
    MulAssoc(v, Pow(256, 3 - size), Pow(256, size));
    DivModIs(v * K, Pow(256, size), v * Pow(256, 3 - size), 0);
  }

  lemma LargeNumber(v: nat, size: nat)
    requires size == ByteSize(v) > 3
    ensures v / Pow(2, 8 * (size - 3)) == v * K / Pow(256, size)
    ensures v / Pow(2, 8 * (size - 3)) < B * B
  {
    hide Pow, ByteSize;
    ByteSizeBounds(v);
    KPower();
    BytePower(size - 3);
    PowAdd(256, 3, size - 3);
    ScaledQuotient(v, K, Pow(256, size - 3));
    FloorBelow(v, Pow(256, size - 3), K);
  }

  /** The top bit of the first mantissa tells whether one more byte is needed. */
  lemma FirstMantissa(v: nat, size: nat, m: nat)
    requires size == ByteSize(v) <= 32 && m == v * K / Pow(256, size)
    ensures m < K
    ensures (m / SIGN) % 2 == 1 <==> SignedSize(v) == size + 1
    ensures Mantissa(v) == if SignedSize(v) == size + 1 then m / 256 else m
    ensures Mantissa(v) < SIGN && size <= SignedSize(v) <= size + 1
  {
    hide Pow, ByteSize, Mantissa;
    ByteSizeBounds(v);
    var p := Pow(256, size);
    PowNext(256, size);
    MantissaDigits(v, p, m);
    MantissaBound(v);
    MantissaIs(v);
  }

  lemma MantissaIs(x: nat)
    ensures Pow(256, SignedSize(x)) > 0 && Mantissa(x) == x * K / Pow(256, SignedSize(x))
  {
    hide Pow, SignedSize;
  }

  /** The first three bytes of a number below `p`, and whether the highest bit is set. */
  lemma MantissaDigits(v: nat, p: nat, m: nat)
    requires p > 0 && v < p && m == v * K / p
    ensures m < K && ((m / SIGN) % 2 == 1 <==> 2 * v >= p)
    ensures 256 * p > 0 && v * K / (256 * p) == m / 256
  {
    MulMono(v + 1, p, K);
    FloorBelow(v * K, p, K);
    FloorAtLeast(v * K, p, SIGN);
    assert v * K >= SIGN * p <==> 2 * v >= p;
    TopBit(m);
    DivDiv(v * K, p, 256);
  }

  lemma TopBit(m: nat)
    requires m < K
    ensures (m / SIGN) % 2 == 1 <==> m >= SIGN
  {
  }

  // ----- The work of a block -----

  /** A target in use is even, or small: adding one to it does not overflow. */
  lemma TargetPlusOne(c: uint32)
    requires Decoded(c) < Modulus(WIDTH)
    ensures Decoded(c) + 1 < Modulus(WIDTH)
  {
    hide Pow, Decoded, Modulus;
    ModulusIsPower(WIDTH);
    BytePower(32);
    PowNext(256, 31);
    if Size(c) > 3 {
      DecodedWhole(c);
      PowNext(256, Size(c) - 4);
      assert Word(c) * (256 * Pow(256, Size(c) - 4)) == 256 * (Word(c) * Pow(256, Size(c) - 4));
    } else {
      SmallDecoded(c);
      WordBound(c);
      PowMono(256, 3, 31);
      KPower();
    }
  }

  /** ~t / (t + 1) + 1 is the floor of 2^256 / (t + 1). */
  lemma WorkFormula(t: nat, m: nat)
    requires 1 <= t && t + 1 < m
    ensures (m - 1 - t) / (t + 1) + 1 == m / (t + 1) < m
  {
    ModAddMultiple(m - 1 - t, t + 1, 1);
    FloorBelow(m, t + 1, m);
  }

  predicate ValidTarget(c: uint32) {
    0 < Decoded(c) < Modulus(WIDTH) && !Signed(c)
  }

  /** ~target / (target + 1) + 1. */
  method Work(target: BaseUint) returns (r: BaseUint)
    requires target.pn.Length == WIDTH && 1 <= target.V() && target.V() + 1 < target.M()
    ensures r.pn.Length == WIDTH && r.V() == target.M() / (target.V() + 1)
  {
    hide Pow, Modulus, Prefix;
    ghost var t := target.V();
    SmallMod(t + 1, Modulus(WIDTH));
    WorkFormula(t, Modulus(WIDTH));
    r := target.Complement();
    var one := new BaseUint(WIDTH);
    one.Set(1);
    var next := new BaseUint.Copy(target);
    next.Add(one);
    var thrown := r.Divide(next);
    SmallMod(r.V() + 1, Modulus(WIDTH));
    r.Add(one);
  }

  /** The expected number of hashes for a block: 0 for an unusable target. */
  method GetBlockProof(nBits: uint32) returns (r: BaseUint)
    ensures r.pn.Length == WIDTH
    ensures r.V() == if ValidTarget(nBits) then Pow(2, 256) / (Decoded(nBits) + 1) else 0
  {
    hide Pow, Modulus, Prefix, Decoded;
    ModulusIsPower(WIDTH);
    var target := new BaseUint(WIDTH);
    var negative, overflow := SetCompact(target, nBits);
    if !overflow {
      SmallMod(Decoded(nBits), Modulus(WIDTH));
    }
    var zero := target.EqualTo(0);
    if negative || overflow || zero {
      r := new BaseUint(WIDTH);
    } else {
      TargetPlusOne(nBits);
      r := Work(target);
    }
  }
}
