/** Golomb-coded sets (src/blockfilter.cpp, BIP 158): a sorted set of hashes stored as coded
    differences, and the query that walks two sorted lists at once. */
module BlockFilter {
  import CompactSize
  import opened Powers
  import opened Wrappers

  type Bits = seq<bool>

  type byte = CompactSize.byte

  const B: nat := 0x1_0000_0000

  type uint32 = x: int | 0 <= x < 0x1_0000_0000

  type uint64 = x: int | 0 <= x < 0x1_0000_0000_0000_0000

  // ----- Bits of numbers -----

  /** The lowest `n` bits of `x`, the highest of them first. */
  function LowBits(x: nat, n: nat): (b: Bits)
    ensures |b| == n
  {
    if n == 0 then [] else LowBits(x / 2, n - 1) + [x % 2 == 1]
  }

  function BitsValue(b: Bits): nat {
    if b == [] then 0 else 2 * BitsValue(b[..|b| - 1]) + if b[|b| - 1] then 1 else 0
  }

  lemma {:induction false} ValueOfLowBits(x: nat, n: nat)
    ensures BitsValue(LowBits(x, n)) == x % Pow(2, n)
  {
    if n == 0 {
      assert Pow(2, 0) == 1;
    } else {
      ValueOfLowBits(x / 2, n - 1);
      var b := LowBits(x, n);
      assert b[..n - 1] == LowBits(x / 2, n - 1);
      ModTwice(x, Pow(2, n - 1));
    }
  }

  /** Bit `i` from the left has the weight 2^(n - 1 - i). */
  lemma {:induction false} LowBitsAt(x: nat, n: nat, i: nat)
    requires i < n
    ensures LowBits(x, n)[i] <==> x / Pow(2, n - 1 - i) % 2 == 1
  {
    hide Pow;
    if i == n - 1 {
      PowNone(2);
    } else {
      LowBitsAt(x / 2, n - 1, i);
      PowNext(2, n - 2 - i);
      PowPositive(2, n - 2 - i);
      DivDiv(x, 2, Pow(2, n - 2 - i));
    }
  }

  lemma ModTwice(x: nat, p: nat)
    requires p > 0
    ensures 2 * (x / 2 % p) + x % 2 == x % (2 * p)
  {
    var q, r := x / 2 / p, x / 2 % p;
    assert x / 2 == q * p + r;
    assert 2 * (q * p) == q * (2 * p);
    DivModIs(x, 2 * p, q, 2 * r + x % 2);
  }

  lemma {:induction false} ValueBound(b: Bits)
    ensures BitsValue(b) < Pow(2, |b|)
  {
    if b != [] {
      ValueBound(b[..|b| - 1]);
    }
  }

  lemma {:induction false} LowBitsOfValue(b: Bits)
    ensures LowBits(BitsValue(b), |b|) == b
  {
    if b != [] {
      LowBitsOfValue(b[..|b| - 1]);
      assert b == b[..|b| - 1] + [b[|b| - 1]];
    }
  }

  // ----- Golomb-Rice codes -----

  function Ones(n: nat): (b: Bits)
    ensures |b| == n && forall i :: 0 <= i < n ==> b[i]
  {
    seq(n, _ => true)
  }

  /** The quotient in unary, a zero, and the remainder in `p` bits. */
  function Code(p: nat, x: nat): Bits {
    Ones(x / Pow(2, p)) + [false] + LowBits(x, p)
  }

  /** A code, bit by bit: as many ones as the number has multiples of 2^p, a zero, and the rest of
      the number in p bits, the highest first. */
  lemma CodeAt(p: nat, x: nat, i: nat)
    requires i < |Code(p, x)|
    ensures var q := x / Pow(2, p);
      && |Code(p, x)| == q + 1 + p
      && (Code(p, x)[i] <==> i < q || (i > q && x / Pow(2, p + q - i) % 2 == 1))
  {
    hide Pow, LowBits;
    var q := x / Pow(2, p);
    if i > q {
      LowBitsAt(x, p, i - q - 1);
    }
  }

  /** How many ones a bit string starts with. */
  function OnesAt(b: Bits): (n: nat)
    ensures n <= |b| && (forall i :: 0 <= i < n ==> b[i]) && (n < |b| ==> !b[n])
  {
    if b == [] || !b[0] then 0 else 1 + OnesAt(b[1..])
  }

  /** The first coded number and the bits after it; nothing if the bits run out. */
  function Decode(b: Bits, p: nat): Option<(nat, Bits)> {
    var q := OnesAt(b);
    if q + 1 + p > |b| then None
    else Some((q * Pow(2, p) + BitsValue(b[q + 1..q + 1 + p]), b[q + 1 + p..]))
  }

  lemma {:induction false} OnesAtIs(b: Bits, n: nat)
    requires n < |b| && (forall i :: 0 <= i < n ==> b[i]) && !b[n]
    ensures OnesAt(b) == n
  {
    if n > 0 {
      OnesAtIs(b[1..], n - 1);
    }
  }

  /** A coded number is read back, whatever follows it. */
  lemma DecodeCode(p: nat, x: nat, rest: Bits)
    ensures Decode(Code(p, x) + rest, p) == Some((x, rest))
  {
    hide Pow, LowBits;
    var q := x / Pow(2, p);
    var b := Code(p, x) + rest;
    assert b[q] == false;
    OnesAtIs(b, q);
    assert b[q + 1..q + 1 + p] == LowBits(x, p);
    assert b[q + 1 + p..] == rest;
    ValueOfLowBits(x, p);
    Recombined(x, Pow(2, p));
  }

  lemma Recombined(x: nat, p: nat)
    requires p > 0
    ensures (x / p) * p + x % p == x
  {
  }

  /** Only the code of a number is read as that number. */
  lemma CodeDecode(b: Bits, p: nat)
    requires Decode(b, p).Some?
    ensures b == Code(p, Decode(b, p).value.0) + Decode(b, p).value.1
  {
    hide Pow, Code, BitsValue, OnesAt, Ones;
    var q := OnesAt(b);
    CodeOf(p, q, b[q + 1..q + 1 + p]);
    CodeSplit(b, q, p);
  }

  lemma CodeOf(p: nat, q: nat, low: Bits)
    requires |low| == p
    ensures Code(p, q * Pow(2, p) + BitsValue(low)) == Ones(q) + [false] + low
  {
    hide Pow, LowBits, BitsValue, Ones;
    var m, v := Pow(2, p), BitsValue(low);
    ValueBound(low);
    LowBitsOfValue(low);
    DivModIs(q * m + v, m, q, v);
    LowBitsOnly(q * m + v, v, p);
  }

  lemma CodeSplit(b: Bits, q: nat, p: nat)
    requires q + 1 + p <= |b| && (forall i :: 0 <= i < q ==> b[i]) && !b[q]
    ensures b == Ones(q) + [false] + b[q + 1..q + 1 + p] + b[q + 1 + p..]
  {
    assert b[..q] == Ones(q);
  }

  /** The low bits depend on the remainder only. */
  lemma {:induction false} LowBitsOnly(x: nat, y: nat, p: nat)
    requires x % Pow(2, p) == y % Pow(2, p)
    ensures LowBits(x, p) == LowBits(y, p)
  {
    ValueOfLowBits(x, p);
    ValueOfLowBits(y, p);
    LowBitsOfValue(LowBits(x, p));
    LowBitsOfValue(LowBits(y, p));
  }

  // ----- Sorted sets -----

  predicate Sorted(v: seq<nat>) {
    forall i, j :: 0 <= i < j < |v| ==> v[i] <= v[j]
  }

  /** The coded differences of a sorted list that continues after `last`. */
  function CodeAll(p: nat, last: nat, v: seq<nat>): Bits
    requires Sorted(v) && (v != [] ==> last <= v[0])
    decreases |v|
  {
    if v == [] then [] else Code(p, v[0] - last) + CodeAll(p, v[0], v[1..])
  }

  /** The list of `n` numbers at the start of a bit string and the bits after it. */
  function DecodeAll(p: nat, last: nat, b: Bits, n: nat): Option<(seq<nat>, Bits)>
    decreases n
  {
    if n == 0 then Some(([], b)) else
    match Decode(b, p)
    case None => None
    case Some((delta, rest)) =>
      match DecodeAll(p, last + delta, rest, n - 1)
      case None => None
      case Some((v, tail)) => Some(([last + delta] + v, tail))
  }

  lemma CodeAllUnfold(p: nat, last: nat, v: seq<nat>)
    requires Sorted(v) && (v != [] ==> last <= v[0])
    ensures CodeAll(p, last, v) == if v == [] then [] else Code(p, v[0] - last) + CodeAll(p, v[0], v[1..])
  {
    hide Code;
  }

  /** Each number of a list is coded by its distance to the one before it. */
  lemma {:induction false} CodeAllAt(p: nat, last: nat, v: seq<nat>, k: nat)
    requires Sorted(v) && (v != [] ==> last <= v[0]) && k < |v|
    ensures var before := if k == 0 then last else v[k - 1];
      CodeAll(p, last, v) == CodeAll(p, last, v[..k]) + Code(p, v[k] - before) + CodeAll(p, v[k], v[k + 1..])
    decreases k
  {
    hide Code, CodeAll;
    CodeAllUnfold(p, last, v);
    CodeAllUnfold(p, last, v[..k]);
    if k > 0 {
      CodeAllAt(p, v[0], v[1..], k - 1);
      assert v[..k][1..] == v[1..][..k - 1];
      assert v[1..][k..] == v[k + 1..];
      assert v[1..][k - 1] == v[k];
    }
  }

  /** Decoding an encoded list gives the list, whatever follows it. */
  lemma {:induction false} DecodeCodeAll(p: nat, last: nat, v: seq<nat>, rest: Bits)
    requires Sorted(v) && (v != [] ==> last <= v[0])
    ensures DecodeAll(p, last, CodeAll(p, last, v) + rest, |v|) == Some((v, rest))
    decreases |v|
  {
    hide Code, Decode;
    if v == [] {
      assert CodeAll(p, last, v) + rest == rest;
    } else {
      var tail := CodeAll(p, v[0], v[1..]) + rest;
      assert CodeAll(p, last, v) + rest == Code(p, v[0] - last) + tail;
      DecodeCode(p, v[0] - last, tail);
      DecodeCodeAll(p, v[0], v[1..], rest);
      assert v == [v[0]] + v[1..];
    }
  }

  // ----- Mapping into a range -----

  lemma SplitProduct(a: int, b: int, c: int, d: int)
    ensures (a * B + b) * (c * B + d) == a * c * (B * B) + (a * d + b * c) * B + b * d
  {
    assert (a * B + b) * (c * B + d) == a * B * (c * B) + a * B * d + b * (c * B) + b * d;
  }

  lemma HalfProduct(x: nat, y: nat)
    requires x < B && y < B
    ensures 0 <= x * y <= (B - 1) * (B - 1)
  {
    MulMono(0, x, y);
    MulMono(x, B - 1, y);
    MulMono(y, B - 1, B - 1);
  }

  /** The upper 64 bits of the product, from four 32-bit products: every intermediate number
      fits into 64 bits. */
  method MapIntoRange(x: uint64, n: uint64) returns (r: uint64)
    ensures r == x * n / (B * B)
    ensures n > 0 ==> r < n
  {
    var xHi, xLo := x / B, x % B;
    var nHi, nLo := n / B, n % B;
    HalfProduct(xHi, nHi);
    HalfProduct(xHi, nLo);
    HalfProduct(xLo, nHi);
    HalfProduct(xLo, nLo);
    var ac: uint64 := xHi * nHi;
    var ad: uint64 := xHi * nLo;
    var bc: uint64 := xLo * nHi;
    var bd: uint64 := xLo * nLo;
    var mid34: uint64 := bd / B + bc % B + ad % B;
    SplitProduct(xHi, xLo, nHi, nLo);
    ghost var upper := ac + bc / B + ad / B + mid34 / B;
    assert x * n == upper * (B * B) + (mid34 % B * B + bd % B);
    DivModIs(x * n, B * B, upper, mid34 % B * B + bd % B);
    InRange(x, n);
    r := ac + bc / B + ad / B + mid34 / B;
  }

  lemma InRange(x: nat, n: nat)
    requires x < B * B && n < B * B
    ensures x * n / (B * B) < B * B && (n > 0 ==> x * n / (B * B) < n)
  {
    if n > 0 {
      MulMono(x, B * B - 1, n);
      FloorBelow(x * n, B * B, n);
    }
  }

  // ----- Hashed sets -----

  type Element = nat

  /** A filter's parameters: the keyed hash, the code parameter and the inverse rate of false
      positives. */
  datatype Params = Params(hash: Element -> uint64, p: nat, m: uint32)

  /** The range that the elements of a filter of `n` elements are hashed to. */
  function RangeOf(params: Params, n: uint32): (f: uint64)
    ensures f == n * params.m
  {
    HalfProduct(n, params.m);
    n * params.m
  }

  function HashToRange(params: Params, f: uint64, e: Element): nat {
    params.hash(e) * f / (B * B)
  }

  function Insert(v: seq<nat>, x: nat): (r: seq<nat>)
    requires Sorted(v)
    ensures Sorted(r) && multiset(r) == multiset(v) + multiset{x}
  {
    if v == [] then [x]
    else if x <= v[0] then [x] + v
    else
      var t := Insert(v[1..], x);
      InsertLater(v, x, t);
      [v[0]] + t
  }

  lemma InsertLater(v: seq<nat>, x: nat, t: seq<nat>)
    requires Sorted(v) && v != [] && v[0] < x && Sorted(t) && multiset(t) == multiset(v[1..]) + multiset{x}
    ensures Sorted([v[0]] + t) && multiset([v[0]] + t) == multiset(v) + multiset{x}
  {
    InsertBounds(v, x, t);
    assert v == [v[0]] + v[1..];
  }

  lemma InsertBounds(v: seq<nat>, x: nat, t: seq<nat>)
    requires Sorted(v) && v != [] && v[0] < x && multiset(t) == multiset(v[1..]) + multiset{x}
    ensures forall i :: 0 <= i < |t| ==> v[0] <= t[i]
  {
    forall i | 0 <= i < |t| ensures v[0] <= t[i] {
      assert t[i] in multiset(t);
      if t[i] != x {
        assert t[i] in v[1..];
      }
    }
  }

  ghost predicate IsHash(params: Params, f: uint64, elements: seq<Element>, x: nat) {
    exists k :: 0 <= k < |elements| && HashToRange(params, f, elements[k]) == x
  }

  /** The hashes of a set of elements in ascending order. */
  function HashedSet(params: Params, f: uint64, elements: seq<Element>): (v: seq<nat>)
    ensures Sorted(v) && |v| == |elements|
    ensures forall x :: x in v <==> IsHash(params, f, elements, x)
  {
    if elements == [] then [] else
    var n := |elements| - 1;
    var h := HashToRange(params, f, elements[n]);
    var w := HashedSet(params, f, elements[..n]);
    var v := Insert(w, h);
    HashedNext(params, f, elements, w, v);
    v
  }

  lemma HashedNext(params: Params, f: uint64, elements: seq<Element>, w: seq<nat>, v: seq<nat>)
    requires elements != [] && |w| == |elements| - 1
    requires forall x :: x in w <==> IsHash(params, f, elements[..|elements| - 1], x)
    requires multiset(v) == multiset(w) + multiset{HashToRange(params, f, elements[|elements| - 1])}
    ensures |v| == |elements|
    ensures forall x :: x in v <==> IsHash(params, f, elements, x)
  {
    hide HashToRange, IsHash;
    assert |multiset(v)| == |v| && |multiset(w)| == |w|;
    forall x ensures x in v <==> IsHash(params, f, elements, x) {
      assert x in v <==> x in multiset(v);
      assert x in w <==> x in multiset(w);
      HashOfMore(params, f, elements, x);
    }
  }

  lemma HashOfMore(params: Params, f: uint64, elements: seq<Element>, x: nat)
    requires elements != []
    ensures var n := |elements| - 1;
      IsHash(params, f, elements, x) <==> IsHash(params, f, elements[..n], x) || x == HashToRange(params, f, elements[n])
  {
    hide HashToRange;
    var n := |elements| - 1;
    if IsHash(params, f, elements[..n], x) {
      var k :| 0 <= k < n && HashToRange(params, f, elements[..n][k]) == x;
      assert elements[..n][k] == elements[k];
    }
    if k :| 0 <= k < |elements| && HashToRange(params, f, elements[k]) == x {
      if k < n {
        assert elements[..n][k] == elements[k];
      }
    }
  }

  /** Hashes the elements one by one and sorts the hashes; the sort is by insertion here. */
  method BuildHashedSet(params: Params, f: uint64, elements: seq<Element>) returns (v: seq<nat>)
    ensures v == HashedSet(params, f, elements)
  {
    hide Insert, HashToRange;
    v := [];
    for i := 0 to |elements|
      invariant v == HashedSet(params, f, elements[..i])
    {
      var hash := MapIntoRange(params.hash(elements[i]), f);
      HashIs(params, f, elements[i], hash);
      assert elements[..i + 1][..i] == elements[..i];
      v := Insert(v, hash);
    }
    assert elements[..|elements|] == elements;
  }

  lemma HashIs(params: Params, f: uint64, e: Element, hash: uint64)
    requires hash == params.hash(e) * f / (B * B)
    ensures hash == HashToRange(params, f, e)
  {
  }

  // ----- Writing -----

  lemma {:induction false} AllOnes(k: nat, n: nat)
    requires n <= k
    ensures LowBits(Pow(2, k) - 1, n) == Ones(n)
    decreases n
  {
    hide Pow, LowBits;
    if n == 0 {
      LowBitsNone(Pow(2, k) - 1);
    } else {
      PowNext(2, k - 1);
      PowPositive(2, k - 1);
      LowBitsMore(Pow(2, k) - 1, n);
      AllOnes(k - 1, n - 1);
      assert Ones(n) == Ones(n - 1) + [true];
    }
  }

  lemma LowBitsNone(x: int)
    requires x >= 0
    ensures LowBits(x, 0) == []
  {
  }

  lemma LowBitsMore(x: int, n: nat)
    requires x >= 0 && n > 0
    ensures LowBits(x, n) == LowBits(x / 2, n - 1) + [x % 2 == 1]
  {
  }

  /** Writes one code; the ones of the quotient go out up to 64 at a time. */
  method GolombRiceEncode(w: Bits, p: nat, x: nat) returns (out: Bits)
    ensures out == w + Code(p, x)
  {
    hide Pow, LowBits;
    out := w;
    var q := x / Pow(2, p);
    ghost var total := q;
    while q > 0
      invariant 0 <= q <= total && out == w + Ones(total - q)
    {
      var nbits := if q <= 64 then q else 64;
      AllOnes(64, nbits);
      PowPositive(2, 64);
      out := out + LowBits(Pow(2, 64) - 1, nbits);
      assert Ones(total - q + nbits) == Ones(total - q) + Ones(nbits);
      q := q - nbits;
    }
    out := out + [false];
    out := out + LowBits(x, p);
    assert out == w + Code(p, x);
  }

  function Padding(n: nat): (z: Bits)
    ensures |z| < 8 && (n + |z|) % 8 == 0 && forall i :: 0 <= i < |z| ==> !z[i]
  {
    seq((8 - n % 8) % 8, _ => false)
  }

  /** The filter of a set: the coded list, filled up to whole bytes. */
  function FilterBits(params: Params, elements: seq<Element>): Bits
    requires |elements| < B
  {
    var v := HashedSet(params, RangeOf(params, |elements|), elements);
    CodeAll(params.p, 0, v) + Padding(|CodeAll(params.p, 0, v)|)
  }

  /** The bits of bytes, the highest bit of each first. */
  function Unpack(b: seq<byte>): (bits: Bits)
    ensures |bits| == 8 * |b|
  {
    if b == [] then [] else LowBits(b[0], 8) + Unpack(b[1..])
  }

  function ByteOf(bits: Bits): byte
    requires |bits| == 8
  {
    ValueBound(bits);
    BytePower();
    BitsValue(bits)
  }

  lemma BytePower()
    ensures Pow(2, 8) == 256
  {
    assert Pow(2, 4) == 16;
    PowAdd(2, 4, 4);
  }

  /** Bit `i` of byte `k`, counted from the highest. */
  lemma {:induction false} UnpackAt(b: seq<byte>, k: nat, i: nat)
    requires k < |b| && i < 8
    ensures Unpack(b)[8 * k + i] <==> b[k] / Pow(2, 7 - i) % 2 == 1
  {
    hide Pow, LowBits;
    if k == 0 {
      LowBitsAt(b[0], 8, i);
    } else {
      UnpackAt(b[1..], k - 1, i);
    }
  }

  function Pack(bits: Bits): seq<byte>
    requires |bits| % 8 == 0
    decreases |bits|
  {
    if bits == [] then [] else [ByteOf(bits[..8])] + Pack(bits[8..])
  }

  lemma {:induction false} UnpackPack(bits: Bits)
    requires |bits| % 8 == 0
    ensures Unpack(Pack(bits)) == bits
    decreases |bits|
  {
    hide LowBits, BitsValue;
    if bits != [] {
      LowBitsOfValue(bits[..8]);
      UnpackPack(bits[8..]);
      assert Pack(bits)[1..] == Pack(bits[8..]);
      assert bits == bits[..8] + bits[8..];
    }
  }

  /** The encoded filter: the number of elements and the coded hashes. */
  function EncodedFilter(params: Params, elements: seq<Element>): seq<byte>
    requires |elements| < B
  {
    CompactSize.Write(|elements|) + Pack(FilterBits(params, elements))
  }

  lemma CodeAllNone(p: nat, last: nat, v: seq<nat>)
    requires v == []
    ensures CodeAll(p, last, v) == []
  {
  }

  lemma CodeAllStep(p: nat, last: nat, v: seq<nat>, i: nat, bits: Bits)
    requires Sorted(v) && i < |v| && last <= v[i]
    ensures bits + CodeAll(p, last, v[i..]) == bits + Code(p, v[i] - last) + CodeAll(p, v[i], v[i + 1..])
  {
    hide Code;
    assert v[i..][0] == v[i] && v[i..][1..] == v[i + 1..];
    var a, c := Code(p, v[i] - last), CodeAll(p, v[i], v[i + 1..]);
    assert bits + (a + c) == bits + a + c;
  }

  /** Throws when the number of elements does not fit into 32 bits. */
  method BuildFilter(params: Params, elements: seq<Element>) returns (thrown: bool, encoded: seq<byte>)
    ensures thrown <==> |elements| >= B
    ensures !thrown ==> encoded == EncodedFilter(params, elements)
  {
    hide Code, HashedSet, CodeAll, Pack;
    if |elements| >= B {
      return true, [];
    }
    thrown := false;
    encoded := CompactSize.Write(|elements|);
    if |elements| == 0 {
      NoElements(params, elements);
      return;
    }
    var bits: Bits := [];
    var v := BuildHashedSet(params, RangeOf(params, |elements|), elements);
    var last := 0;
    ghost var all := CodeAll(params.p, 0, v);
    for i := 0 to |v|
      invariant i < |v| ==> last <= v[i]
      invariant bits + CodeAll(params.p, last, v[i..]) == all
    {
      CodeAllStep(params.p, last, v, i, bits);
      bits := GolombRiceEncode(bits, params.p, v[i] - last);
      last := v[i];
    }
    CodeAllNone(params.p, last, v[|v|..]);
    assert bits == all;
    encoded := encoded + Pack(bits + Padding(|bits|));
  }

  lemma NoElements(params: Params, elements: seq<Element>)
    requires elements == []
    ensures EncodedFilter(params, elements) == CompactSize.Write(0)
  {
  }

  // ----- Reading -----

  class Reader {
    const bits: Bits
    var pos: nat

    constructor (bits: Bits)
      ensures this.bits == bits && pos == 0 && Rest() == bits
    {
      this.bits, pos := bits, 0;
    }

    ghost function Rest(): Bits
      requires pos <= |bits|
      reads this
    {
      bits[pos..]
    }

    /** One code. Running out of bits throws. */
    method GolombRiceDecode(p: nat) returns (thrown: bool, x: nat)
      requires pos <= |bits|
      modifies this
      ensures pos <= |bits|
      ensures thrown <==> Decode(old(Rest()), p).None?
      ensures !thrown ==> Decode(old(Rest()), p) == Some((x, Rest()))
    {
      hide Pow, BitsValue, OnesAt;
      ghost var start := pos;
      ghost var b := Rest();
      var q := 0;
      x := 0;
      while pos < |bits| && bits[pos]
        invariant 0 <= q && pos == start + q <= |bits|
        invariant forall i :: 0 <= i < q ==> b[i]
      {
        q := q + 1;
        pos := pos + 1;
      }
      if pos == |bits| {
        AllOnesRead(b);
        return true, 0;
      }
      OnesAtIs(b, q);
      pos := pos + 1;
      if pos + p > |bits| {
        return true, 0;
      }
      SliceOfSlice(bits, start, q + 1, p);
      PowPositive(2, p);
      MulMono(0, q, Pow(2, p));
      x := q * Pow(2, p) + BitsValue(bits[pos..pos + p]);
      pos := pos + p;
      thrown := false;
    }
  }

  lemma SliceOfSlice(b: Bits, start: nat, q: nat, p: nat)
    requires start + q + p <= |b|
    ensures var c := b[start..]; c[q..q + p] == b[start + q..start + q + p] && c[q + p..] == b[start + q + p..]
  {
  }

  lemma RestSize(r: Reader)
    requires r.pos <= |r.bits|
    ensures |r.Rest()| == |r.bits| - r.pos
  {
  }

  lemma AllOnesRead(b: Bits)
    requires forall i :: 0 <= i < |b| ==> b[i]
    ensures OnesAt(b) == |b|
  {
  }

  /** What the filter constructor makes of bytes that were received: the number of elements and
      the values, if there are exactly so many codes and no whole byte after them. */
  function Opened(p: nat, encoded: seq<byte>): Option<(nat, seq<nat>)> {
    match CompactSize.Read(encoded)
    case None => None
    case Some((n, rest)) =>
      match DecodeAll(p, 0, Unpack(rest), n)
      case None => None
      case Some((v, tail)) => if |tail| < 8 then Some((n, v)) else None
  }

  method OpenFilter(p: nat, encoded: seq<byte>) returns (ok: bool, n: nat)
    ensures ok <==> Opened(p, encoded).Some?
    ensures ok ==> n == Opened(p, encoded).value.0
  {
    hide DecodeAll, CompactSize.Read, CompactSize.Write, Unpack;
    var size := CompactSize.Read(encoded);
    if size.None? {
      return false, 0;
    }
    CompactSize.WrittenRead(encoded);
    n := size.value.0;
    assert n < B;
    ok := CheckFilter(Unpack(size.value.1), p, n);
  }

  method CheckFilter(bits: Bits, p: nat, n: nat) returns (ok: bool)
    requires |bits| % 8 == 0
    ensures ok <==> DecodeAll(p, 0, bits, n).Some? && |DecodeAll(p, 0, bits, n).value.1| < 8
  {
    hide DecodeAll, Decode, Continues, Reader.Rest;
    var r := new Reader(bits);
    ghost var value := 0;
    ghost var read: seq<nat> := [];
    ContinuesStart(p, bits, n);
    for i := 0 to n
      invariant r.pos <= |bits| && r.bits == bits
      invariant Continues(p, bits, n, value, r.Rest(), n - i, read)
    {
      ContinuesNext(p, bits, n, value, r.Rest(), n - i, read);
      var thrown, delta := r.GolombRiceDecode(p);
      if thrown {
        return false;
      }
      value := value + delta;
      read := read + [value];
    }
    ContinuesEnd(p, bits, n, value, r.Rest(), read);
    assert |r.Rest()| == |bits| - r.pos by {
      RestSize(r);
    }
    ok := |bits| - r.pos < 8;
  }

  /** Decoding everything from the start comes to what was read so far and the rest. */
  ghost predicate Continues(p: nat, bits: Bits, n: nat, value: nat, rest: Bits, left: nat, read: seq<nat>) {
    var whole, more := DecodeAll(p, 0, bits, n), DecodeAll(p, value, rest, left);
    (whole.Some? <==> more.Some?) && (whole.Some? ==> whole.value.0 == read + more.value.0 && whole.value.1 == more.value.1)
  }

  lemma ContinuesStart(p: nat, bits: Bits, n: nat)
    ensures Continues(p, bits, n, 0, bits, n, [])
  {
  }

  lemma ContinuesNext(p: nat, bits: Bits, n: nat, value: nat, rest: Bits, left: nat, read: seq<nat>)
    requires left > 0 && Continues(p, bits, n, value, rest, left, read)
    ensures Decode(rest, p).None? ==> DecodeAll(p, 0, bits, n).None?
    ensures Decode(rest, p).Some? ==> var (delta, tail) := Decode(rest, p).value;
      Continues(p, bits, n, value + delta, tail, left - 1, read + [value + delta])
  {
    hide Decode;
    DecodeOne(p, value, rest, left);
    if Decode(rest, p).Some? {
      var (delta, tail) := Decode(rest, p).value;
      var more := DecodeAll(p, value + delta, tail, left - 1);
      if more.Some? {
        assert read + ([value + delta] + more.value.0) == read + [value + delta] + more.value.0;
      }
    }
  }

  lemma ContinuesEnd(p: nat, bits: Bits, n: nat, value: nat, rest: Bits, read: seq<nat>)
    requires Continues(p, bits, n, value, rest, 0, read)
    ensures DecodeAll(p, 0, bits, n) == Some((read, rest))
  {
    assert read + [] == read;
  }

  /** What has been read is a part of the whole list. */
  lemma ContinuesPart(p: nat, bits: Bits, n: nat, value: nat, rest: Bits, left: nat, read: seq<nat>)
    requires Continues(p, bits, n, value, rest, left, read) && DecodeAll(p, 0, bits, n).Some?
    ensures read <= DecodeAll(p, 0, bits, n).value.0
  {
  }

  lemma DecodeOne(p: nat, last: nat, b: Bits, n: nat)
    requires n > 0
    ensures Decode(b, p).None? ==> DecodeAll(p, last, b, n).None?
    ensures Decode(b, p).Some? ==> var (delta, rest) := Decode(b, p).value;
      var more := DecodeAll(p, last + delta, rest, n - 1);
      (DecodeAll(p, last, b, n).Some? <==> more.Some?) &&
      (more.Some? ==> DecodeAll(p, last, b, n).value == ([last + delta] + more.value.0, more.value.1))
  {
    hide Decode;
  }

  /** A filter that was built is accepted, and holds the sorted hashes. */
  lemma BuiltFilter(params: Params, elements: seq<Element>)
    requires |elements| < B
    ensures var bits, d := FilterBits(params, elements), DecodeAll(params.p, 0, FilterBits(params, elements), |elements|);
      |bits| % 8 == 0 && d.Some? && d.value.0 == HashedSet(params, RangeOf(params, |elements|), elements) && |d.value.1| < 8
  {
    hide HashedSet, CodeAll, DecodeAll, HashToRange, IsHash;
    var v := HashedSet(params, RangeOf(params, |elements|), elements);
    DecodeCodeAll(params.p, 0, v, Padding(|CodeAll(params.p, 0, v)|));
  }

  /** A filter that was built can be opened if and only if its size is one that readers accept,
      and then it has the elements' sorted hashes. */
  lemma BuiltOpens(params: Params, elements: seq<Element>)
    requires |elements| < B
    ensures var n: nat := |elements|;
      Opened(params.p, EncodedFilter(params, elements)) ==
      if n <= CompactSize.MAX_SIZE then Some((n, HashedSet(params, RangeOf(params, n), elements))) else None
  {
    hide HashedSet, DecodeAll, FilterBits, Pack, Unpack, CompactSize.Read, CompactSize.Write;
    BuiltFilter(params, elements);
    UnpackPack(FilterBits(params, elements));
    CompactSize.ReadWritten(|elements|, Pack(FilterBits(params, elements)));
  }

  // ----- Queries -----

  ghost predicate Meet(v: seq<nat>, w: seq<nat>) {
    exists i, j :: 0 <= i < |v| && 0 <= j < |w| && v[i] == w[j]
  }

  /** Walks the coded list and the sorted queries together. */
  method MatchInternal(bits: Bits, p: nat, n: nat, queries: seq<nat>, ghost v: seq<nat>) returns (found: bool)
    requires Sorted(queries) && Sorted(v) && |v| == n
    requires DecodeAll(p, 0, bits, n).Some? && DecodeAll(p, 0, bits, n).value.0 == v
    ensures found <==> Meet(v, queries)
  {
    hide Decode, DecodeAll, Continues, Sorted, NoneMet, Meet, Reader.Rest;
    var r := new Reader(bits);
    NoneMetStart(v, queries);
    var value, k := 0, 0;
    ghost var read: seq<nat> := [];
    ContinuesStart(p, bits, n);
    for i := 0 to n
      invariant r.pos <= |bits| && r.bits == bits && 0 <= k <= |queries| && 0 <= value && |read| == i
      invariant Continues(p, bits, n, value, r.Rest(), n - i, read)
      invariant NoneMet(v, queries, i, k)
    {
      ContinuesNext(p, bits, n, value, r.Rest(), n - i, read);
      var thrown, delta := r.GolombRiceDecode(p);
      value := value + delta;
      read := read + [value];
      ContinuesPart(p, bits, n, value, r.Rest(), n - i - 1, read);
      LastRead(v, read);
      NoneMetAt(v, queries, i, k);
      k, found := Advance(queries, k, value);
      if found {
        Met(v, queries, i, k);
        return true;
      }
      NoneMetNext(v, queries, i, k);
      if k == |queries| {
        NoneLeft(v, queries, i + 1);
        return false;
      }
    }
    NoneLeft(v, queries, n);
    found := false;
  }

  /** The inner loop: queries below the value are passed. */
  method Advance(queries: seq<nat>, from: nat, value: nat) returns (k: nat, found: bool)
    requires Sorted(queries) && from <= |queries| && forall b :: 0 <= b < from ==> queries[b] < value
    ensures from <= k <= |queries| && (forall b :: 0 <= b < k ==> queries[b] < value)
    ensures found <==> k < |queries| && queries[k] == value
    ensures !found ==> value !in queries
    ensures !found && k < |queries| ==> queries[k] > value
  {
    k := from;
    while true
      invariant from <= k <= |queries| && forall b :: 0 <= b < k ==> queries[b] < value
      decreases |queries| - k
    {
      if k == |queries| {
        return k, false;
      } else if queries[k] == value {
        return k, true;
      } else if queries[k] > value {
        return k, false;
      }
      k := k + 1;
    }
  }

  lemma LastRead(v: seq<nat>, read: seq<nat>)
    requires read != [] && read <= v
    ensures v[|read| - 1] == read[|read| - 1]
  {
  }

  /** The first `i` values met no query, and the first `k` queries are below all later values. */
  ghost predicate NoneMet(v: seq<nat>, queries: seq<nat>, i: nat, k: nat)
    requires i <= |v| && k <= |queries|
  {
    && (forall a, b :: 0 <= a < i && 0 <= b < |queries| ==> v[a] != queries[b])
    && (i < |v| ==> forall b :: 0 <= b < k ==> queries[b] < v[i])
  }

  lemma Met(v: seq<nat>, queries: seq<nat>, i: nat, k: nat)
    requires i < |v| && k < |queries| && v[i] == queries[k]
    ensures Meet(v, queries)
  {
  }

  lemma NoneMetStart(v: seq<nat>, queries: seq<nat>)
    ensures NoneMet(v, queries, 0, 0)
  {
  }

  lemma NoneMetAt(v: seq<nat>, queries: seq<nat>, i: nat, k: nat)
    requires i < |v| && k <= |queries| && NoneMet(v, queries, i, k)
    ensures forall b :: 0 <= b < k ==> queries[b] < v[i]
  {
  }

  lemma NoneMetNext(v: seq<nat>, queries: seq<nat>, i: nat, k: nat)
    requires Sorted(v) && i < |v| && k <= |queries|
    requires exists j :: 0 <= j <= |queries| && NoneMet(v, queries, i, j)
    requires v[i] !in queries && forall b :: 0 <= b < k ==> queries[b] < v[i]
    ensures NoneMet(v, queries, i + 1, k)
  {
  }

  /** When the values or the queries run out, nothing meets. */
  lemma NoneLeft(v: seq<nat>, queries: seq<nat>, i: nat)
    requires Sorted(v) && i <= |v|
    requires NoneMet(v, queries, i, |queries|) || (i == |v| && exists k :: 0 <= k <= |queries| && NoneMet(v, queries, i, k))
    ensures !Meet(v, queries)
  {
    forall a, b | 0 <= a < |v| && 0 <= b < |queries| ensures v[a] != queries[b] {
      if a >= i {
        assert v[i] <= v[a];
      }
    }
  }

  /** Some element and some query have the same hash. */
  ghost predicate Common(params: Params, f: uint64, elements: seq<Element>, queries: seq<Element>) {
    exists i, j :: 0 <= i < |elements| && 0 <= j < |queries| && HashToRange(params, f, elements[i]) == HashToRange(params, f, queries[j])
  }

  /** MatchAny answers whether the hashed query and the hashed set meet. Of a filter with more
      elements than readers accept it cannot read the size, and throws. */
  method MatchAny(params: Params, encoded: seq<byte>, n: uint32, queries: seq<Element>, ghost elements: seq<Element>)
      returns (thrown: bool, found: bool)
    requires n == |elements| && encoded == EncodedFilter(params, elements)
    ensures thrown <==> n > CompactSize.MAX_SIZE
    ensures !thrown ==> (found <==> Common(params, RangeOf(params, n), elements, queries))
  {
    hide HashedSet, HashToRange, DecodeAll, FilterBits, Pack, Unpack, CompactSize.Read, CompactSize.Write, Meet, Common;
    var f := RangeOf(params, n);
    BuiltFilter(params, elements);
    UnpackPack(FilterBits(params, elements));
    CompactSize.ReadWritten(n, Pack(FilterBits(params, elements)));
    var hashes := BuildHashedSet(params, f, queries);
    var size := CompactSize.Read(encoded);
    if size.None? {
      return true, false;
    }
    thrown := false;
    found := MatchInternal(Unpack(size.value.1), params.p, n, hashes, HashedSet(params, f, elements));
    MeetIsCommon(params, f, elements, queries);
  }

  lemma MeetIsCommon(params: Params, f: uint64, elements: seq<Element>, queries: seq<Element>)
    ensures Meet(HashedSet(params, f, elements), HashedSet(params, f, queries)) <==> Common(params, f, elements, queries)
  {
    hide HashedSet, HashToRange;
    var v, w := HashedSet(params, f, elements), HashedSet(params, f, queries);
    if i, j :| 0 <= i < |v| && 0 <= j < |w| && v[i] == w[j] {
      assert v[i] in v && w[j] in w;
      assert IsHash(params, f, elements, v[i]) && IsHash(params, f, queries, w[j]);
      var a :| 0 <= a < |elements| && HashToRange(params, f, elements[a]) == v[i];
      var b :| 0 <= b < |queries| && HashToRange(params, f, queries[b]) == w[j];
    }
    if a, b :| 0 <= a < |elements| && 0 <= b < |queries| && HashToRange(params, f, elements[a]) == HashToRange(params, f, queries[b]) {
      var x := HashToRange(params, f, elements[a]);
      assert IsHash(params, f, elements, x) && IsHash(params, f, queries, x);
      assert x in v && x in w;
    }
  }

  /** No false negatives: an element of the set always matches. */
  lemma MemberMeets(params: Params, f: uint64, elements: seq<Element>, queries: seq<Element>, e: Element)
    requires e in elements && e in queries
    ensures Meet(HashedSet(params, f, elements), HashedSet(params, f, queries))
  {
    hide HashedSet, HashToRange;
    var a :| 0 <= a < |elements| && elements[a] == e;
    var b :| 0 <= b < |queries| && queries[b] == e;
    MeetIsCommon(params, f, elements, queries);
  }
}
