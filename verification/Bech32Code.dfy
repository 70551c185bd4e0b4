/** The Bech32 checksum as a polynomial remainder (BIP 173): symbols are elements of GF(32), and a
    sequence of them is a polynomial, the highest power first. */
module Bech32Code {
  import opened Bech32
  import opened Wrappers

  // ----- The field with 32 elements -----

  /** Times the element a, modulo a^5 + a^3 + 1. */
  function TimesA(x: bv32): bv32 {
    if x & 16 == 0 then x << 1 else ((x & 15) << 1) ^ 9
  }

  /** `x` if bit `bit` of `y` is set. */
  function Part(x: bv32, y: bv32, bit: bv32): bv32 {
    if HasBit(y, bit) then x else 0
  }

  /** The product in GF(32): the sum of x * a^i over the bits i of y. */
  function Mul(x: bv32, y: bv32): bv32 {
    var x1 := TimesA(x);
    var x2 := TimesA(x1);
    var x3 := TimesA(x2);
    Xor(Xor(Xor(Xor(Part(x, y, 1), Part(x1, y, 2)), Part(x2, y, 4)), Part(x3, y, 8)), Part(TimesA(x3), y, 16))
  }

  lemma MulRange(x: bv32, y: bv32)
    requires x < 32
    ensures Mul(x, y) < 32
  {
  }

  lemma MulOne(x: bv32)
    requires x < 32
    ensures Mul(1, x) == x && Mul(x, 1) == x
  {
  }

  /** No product of nonzero symbols is zero. */
  lemma MulNonzero(x: bv32, y: bv32)
    requires 0 < x < 32 && 0 < y < 32
    ensures Mul(x, y) != 0
  {
  }

  predicate HasBit(y: bv32, bit: bv32) {
    y & bit != 0
  }

  lemma HasBitXor(y: bv32, z: bv32, bit: bv32)
    requires OneBit(bit)
    ensures HasBit(Xor(y, z), bit) <==> HasBit(y, bit) != HasBit(z, bit)
  {
  }

  lemma PartXor(x: bv32, y: bv32, z: bv32, bit: bv32)
    requires OneBit(bit)
    ensures Part(x, Xor(y, z), bit) == Xor(Part(x, y, bit), Part(x, z, bit))
  {
    hide HasBit, Xor, OneBit;
    HasBitXor(y, z, bit);
    XorZero(x);
    XorZero(0);
    XorSelf(x, x);
  }

  /** Products add up. */
  lemma MulAdds(x: bv32, y: bv32, z: bv32)
    ensures Mul(x, Xor(y, z)) == Xor(Mul(x, y), Mul(x, z))
  {
    hide Part, Xor, TimesA;
    var x1 := TimesA(x);
    var x2 := TimesA(x1);
    var x3 := TimesA(x2);
    PartXor(x, y, z, 1);
    PartXor(x1, y, z, 2);
    PartXor(x2, y, z, 4);
    PartXor(x3, y, z, 8);
    PartXor(TimesA(x3), y, z, 16);
    var y1, z1 := Xor(Part(x, y, 1), Part(x1, y, 2)), Xor(Part(x, z, 1), Part(x1, z, 2));
    Swap(Part(x, y, 1), Part(x, z, 1), Part(x1, y, 2), Part(x1, z, 2));
    Swap(y1, z1, Part(x2, y, 4), Part(x2, z, 4));
    var y2, z2 := Xor(y1, Part(x2, y, 4)), Xor(z1, Part(x2, z, 4));
    Swap(y2, z2, Part(x3, y, 8), Part(x3, z, 8));
    var y3, z3 := Xor(y2, Part(x3, y, 8)), Xor(z2, Part(x3, z, 8));
    Swap(y3, z3, Part(TimesA(x3), y, 16), Part(TimesA(x3), z, 16));
  }

  // ----- One step -----

  function Shr5(c: bv32): bv32 {
    c >> 5
  }

  /** The packed polynomial divided by x^i. */
  function Down(c: bv32, i: nat): bv32 {
    if i == 0 then c else Shr5(Down(c, i - 1))
  }

  function Symbol(c: bv32): bv32 {
    c & 31
  }

  /** The coefficient of x^i in a packed polynomial of degree at most five. */
  function Coefficient(c: bv32, i: nat): bv32
    requires i < 6
  {
    Symbol(Down(c, i))
  }

  /** The coefficients of the generator below x^6:
      x^6 + {29}x^5 + {22}x^4 + {20}x^3 + {21}x^2 + {29}x + {18}. */
  function Generator(i: nat): bv32
    requires i < 6
  {
    if i == 0 then 18 else if i == 1 then 29 else if i == 2 then 21 else if i == 3 then 20 else if i == 4 then 22 else 29
  }

  lemma Shr5Bits(c: bv32, d: bv32)
    ensures (c ^ d) >> 5 == (c >> 5) ^ (d >> 5)
  {
  }

  lemma SymbolBits(c: bv32, d: bv32)
    ensures (c ^ d) & 31 == (c & 31) ^ (d & 31)
  {
  }

  lemma Shr5Xor(c: bv32, d: bv32)
    ensures Shr5(Xor(c, d)) == Xor(Shr5(c), Shr5(d))
  {
    Shr5Bits(c, d);
  }

  lemma SymbolXor(c: bv32, d: bv32)
    ensures Symbol(Xor(c, d)) == Xor(Symbol(c), Symbol(d))
  {
    SymbolBits(c, d);
  }

  lemma {:induction false} DownXor(c: bv32, d: bv32, i: nat)
    ensures Down(Xor(c, d), i) == Xor(Down(c, i), Down(d, i))
  {
    hide Shr5, Xor;
    if i > 0 {
      DownXor(c, d, i - 1);
      Shr5Xor(Down(c, i - 1), Down(d, i - 1));
    }
  }

  lemma CoefficientXor(c: bv32, d: bv32, i: nat)
    requires i < 6
    ensures Coefficient(Xor(c, d), i) == Xor(Coefficient(c, i), Coefficient(d, i))
  {
    hide Down, Symbol, Xor;
    DownXor(c, d, i);
    SymbolXor(Down(c, i), Down(d, i));
  }

  /** The coefficients, written out. */
  lemma CoefficientIs(c: bv32)
    ensures Coefficient(c, 0) == c & 31 && Coefficient(c, 1) == (c >> 5) & 31 && Coefficient(c, 2) == (c >> 10) & 31
    ensures Coefficient(c, 3) == (c >> 15) & 31 && Coefficient(c, 4) == (c >> 20) & 31 && Coefficient(c, 5) == (c >> 25) & 31
  {
    assert Down(c, 1) == c >> 5;
    assert Down(c, 2) == c >> 10;
    assert Down(c, 3) == c >> 15;
    assert Down(c, 4) == c >> 20;
    assert Down(c, 5) == c >> 25;
  }

  lemma CoefficientGen(c: bv32, bit: bv32, g: bv32, i: nat)
    requires i < 6
    ensures Coefficient(Gen(c, bit, g), i) == Gen(c, bit, Coefficient(g, i))
  {
    hide Picks, Coefficient;
    CoefficientIs(0);
  }

  /** The next coefficient down, or the new symbol. */
  lemma CoefficientShifted(c: bv32, v: bv32, i: nat)
    requires v < 32 && i < 6
    ensures Coefficient(Shifted(c, v), i) == if i == 0 then v else Coefficient(c, i - 1)
  {
    hide Coefficient, Shl5;
    CoefficientIs(Shifted(c, v));
    CoefficientIs(c);
    if i == 0 {
      NewSymbol(c, v);
    } else if i < 3 {
      LowGroups(c, v);
    } else {
      HighGroups(c, v);
    }
  }

  lemma NewSymbol(c: bv32, v: bv32)
    requires v < 32
    ensures (Shl5(c) ^ v) & 31 == v
  {
  }

  lemma LowGroups(c: bv32, v: bv32)
    requires v < 32
    ensures ((Shl5(c) ^ v) >> 5) & 31 == c & 31 && ((Shl5(c) ^ v) >> 10) & 31 == (c >> 5) & 31
  {
  }

  lemma HighGroups(c: bv32, v: bv32)
    requires v < 32
    ensures ((Shl5(c) ^ v) >> 15) & 31 == (c >> 10) & 31 && ((Shl5(c) ^ v) >> 20) & 31 == (c >> 15) & 31
    ensures ((Shl5(c) ^ v) >> 25) & 31 == (c >> 20) & 31
  {
  }

  /** The five constants of the code are k(x), {2}k(x), {4}k(x), {8}k(x) and {16}k(x). */
  lemma Multiples(i: nat)
    requires i < 6
    ensures var g := Generator(i);
      && Coefficient(0x3b6a57b2, i) == g && Coefficient(0x26508e6d, i) == TimesA(g)
      && Coefficient(0x1ea119fa, i) == TimesA(TimesA(g)) && Coefficient(0x3d4233dd, i) == TimesA(TimesA(TimesA(g)))
      && Coefficient(0x2a1462b3, i) == TimesA(TimesA(TimesA(TimesA(g))))
  {
    hide Coefficient;
    CoefficientIs(0x3b6a57b2);
    CoefficientIs(0x26508e6d);
    CoefficientIs(0x1ea119fa);
    CoefficientIs(0x3d4233dd);
    CoefficientIs(0x2a1462b3);
  }

  lemma GenPart(c: bv32, bit: bv32, x: bv32)
    ensures Gen(c, bit, x) == Part(x, c >> 25, bit)
  {
  }

  lemma MulGen(c: bv32, x: bv32)
    ensures var x1 := TimesA(x); var x2 := TimesA(x1); var x3 := TimesA(x2);
      Mul(x, c >> 25) == Xor(Xor(Xor(Xor(Gen(c, 1, x), Gen(c, 2, x1)), Gen(c, 4, x2)), Gen(c, 8, x3)), Gen(c, 16, TimesA(x3)))
  {
    hide Gen, Part, Xor, TimesA;
    var x1 := TimesA(x);
    var x2 := TimesA(x1);
    var x3 := TimesA(x2);
    GenPart(c, 1, x);
    GenPart(c, 2, x1);
    GenPart(c, 4, x2);
    GenPart(c, 8, x3);
    GenPart(c, 16, TimesA(x3));
  }

  lemma Regroup(s: bv32, a: bv32, b: bv32, c: bv32, d: bv32, e: bv32)
    ensures Xor(Xor(Xor(Xor(Xor(s, a), b), c), d), e) == Xor(s, Xor(Xor(Xor(Xor(a, b), c), d), e))
  {
    hide Xor;
    XorAssoc(s, a, b);
    XorAssoc(s, Xor(a, b), c);
    XorAssoc(s, Xor(Xor(a, b), c), d);
    XorAssoc(s, Xor(Xor(Xor(a, b), c), d), e);
  }

  /** A step multiplies by x, adds the symbol, and replaces c0 * x^6 by c0 times the rest of the
      generator. */
  lemma StepCoefficient(c: bv32, v: bv32, i: nat)
    requires v < 32 && i < 6
    ensures Coefficient(Step(c, v), i) ==
      Xor(if i == 0 then v else Coefficient(c, i - 1), Mul(Generator(i), c >> 25))
  {
    hide Gen, Shifted, Xor, TimesA, Mul, Generator, Coefficient;
    var s0 := Shifted(c, v);
    var s1 := Xor(s0, Gen(c, 1, 0x3b6a57b2));
    var s2 := Xor(s1, Gen(c, 2, 0x26508e6d));
    var s3 := Xor(s2, Gen(c, 4, 0x1ea119fa));
    var s4 := Xor(s3, Gen(c, 8, 0x3d4233dd));
    CoefficientXor(s0, Gen(c, 1, 0x3b6a57b2), i);
    CoefficientXor(s1, Gen(c, 2, 0x26508e6d), i);
    CoefficientXor(s2, Gen(c, 4, 0x1ea119fa), i);
    CoefficientXor(s3, Gen(c, 8, 0x3d4233dd), i);
    CoefficientXor(s4, Gen(c, 16, 0x2a1462b3), i);
    CoefficientGen(c, 1, 0x3b6a57b2, i);
    CoefficientGen(c, 2, 0x26508e6d, i);
    CoefficientGen(c, 4, 0x1ea119fa, i);
    CoefficientGen(c, 8, 0x3d4233dd, i);
    CoefficientGen(c, 16, 0x2a1462b3, i);
    CoefficientShifted(c, v, i);
    Multiples(i);
    var g := Generator(i);
    var g1 := TimesA(g);
    var g2 := TimesA(g1);
    var g3 := TimesA(g2);
    MulGen(c, g);
    Regroup(Coefficient(s0, i), Gen(c, 1, g), Gen(c, 2, g1), Gen(c, 4, g2), Gen(c, 8, g3), Gen(c, 16, TimesA(g3)));
  }

  // ----- Division -----

  /** `d` times the generator. */
  function Scaled(d: bv32): (g: Data)
    ensures |g| == 7
  {
    [d] + seq(6, j requires 0 <= j < 6 => Mul(Generator(5 - j), d))
  }

  /** The generator times q(x): shift the product of the earlier symbols and add. */
  function Product(q: Data): (p: Data)
    ensures |p| == |q| + 6
  {
    if q == [] then Zeros(6) else
    var n := |q| - 1;
    Sum(Product(q[..n]) + [0], Zeros(n) + Scaled(q[n]))
  }

  /** The polynomial 1 * x^n + v(x), with leading zeros. */
  function WithOne(v: Data): Data {
    [0, 0, 0, 0, 0, 1] + v
  }

  /** x^n + v(x) == q(x) * g(x) + r(x), and r has degree at most five. */
  ghost predicate Divides(v: Data, q: Data, r: Data) {
    && |q| == |v| && Symbols(q) && |r| == 6 && Symbols(r)
    && WithOne(v) == Sum(Product(q), Zeros(|v|) + r)
  }

  lemma GroupsAre(c: bv32, j: nat)
    requires j < 6
    ensures Groups(c)[j] == Coefficient(c, 5 - j)
  {
    hide Coefficient;
    CoefficientIs(c);
  }

  lemma TopSmall(c: bv32)
    requires c < 0x40000000
    ensures c >> 25 < 32 && (c >> 25) & 31 == c >> 25
  {
  }

  lemma Cancel(p: bv32, c: bv32, m: bv32)
    ensures Xor(Xor(p, m), Xor(c, m)) == Xor(p, c)
  {
    hide Xor;
    Swap(p, m, c, m);
    XorSelf(m, m);
    XorZero(Xor(p, c));
  }

  lemma ProductNext(q: Data, d: bv32)
    ensures Product(q + [d]) == Sum(Product(q) + [0], Zeros(|q|) + Scaled(d))
  {
    hide Scaled;
    assert (q + [d])[..|q|] == q;
  }

  /** The coefficients after a round, from x^6 down. */
  lemma RoundCoefficient(c: bv32, x: bv32, j: nat, p: bv32)
    requires c < 0x40000000 && x < 32 && j <= 6
    ensures var d, r := c >> 25, [0] + Groups(Step(c, x));
      Xor(Xor(p, Scaled(d)[j]), r[j]) == Xor(p, (Groups(c) + [x])[j])
  {
    hide Step, Groups, Mul, Generator, Xor, Coefficient;
    var d, r := c >> 25, Groups(Step(c, x));
    if j == 0 {
      TopSmall(c);
      GroupsTop(c);
      XorZero(Xor(p, d));
    } else {
      GroupsAre(Step(c, x), j - 1);
      StepCoefficient(c, x, 6 - j);
      if j < 6 {
        GroupsAre(c, j);
      }
      Cancel(p, (Groups(c) + [x])[j], Mul(Generator(6 - j), d));
    }
  }

  lemma GroupsTop(c: bv32)
    ensures Groups(c)[0] == (c >> 25) & 31
  {
  }

  /** The coefficients of the sum after a round. */
  lemma RoundAt(v: Data, q: Data, c: bv32, x: bv32, k: nat)
    requires Divides(v, q, Groups(c)) && c < 0x40000000 && x < 32 && k < |v| + 7
    ensures var n := |v|; var p := (Product(q) + [0])[k];
      Xor(Xor(p, (Zeros(n) + Scaled(c >> 25))[k]), (Zeros(n + 1) + Groups(Step(c, x)))[k]) == WithOne(v + [x])[k]
  {
    hide Step, Groups, Scaled, Xor, Product;
    var n := |v|;
    var p := (Product(q) + [0])[k];
    XorZero(p);
    XorZero(x);
    if k < n + 6 {
      assert WithOne(v)[k] == Sum(Product(q), Zeros(n) + Groups(c))[k];
    }
    if k >= n {
      RoundCoefficient(c, x, k - n, p);
    }
  }

  /** One round of the division: the coefficient that leaves at the top is the next of the
      quotient. */
  lemma DividesNext(v: Data, q: Data, c: bv32, x: bv32)
    requires Divides(v, q, Groups(c)) && c < 0x40000000 && x < 32
    ensures Divides(v + [x], q + [c >> 25], Groups(Step(c, x)))
  {
    hide Step, Groups, Scaled, Xor, Product;
    var n, d, r := |v|, c >> 25, Groups(Step(c, x));
    TopSmall(c);
    GroupsSmall(Step(c, x));
    ProductNext(q, d);
    var total := Sum(Product(q + [d]), Zeros(n + 1) + r);
    forall k: nat | k < n + 7 ensures WithOne(v + [x])[k] == total[k] {
      RoundAt(v, q, c, x, k);
    }
    assert WithOne(v + [x]) == total;
  }

  lemma {:induction false} QuotientExists(v: Data)
    requires Symbols(v)
    ensures PolyMod(v) < 0x40000000 && exists q :: Divides(v, q, Groups(PolyMod(v)))
  {
    hide Step, Groups, Divides;
    if v == [] {
      NothingDivided();
    } else {
      var n := |v| - 1;
      QuotientExists(v[..n]);
      var q :| Divides(v[..n], q, Groups(PolyMod(v[..n])));
      DividesNext(v[..n], q, PolyMod(v[..n]), v[n]);
      StepRange(PolyMod(v[..n]), v[n]);
      assert v[..n] + [v[n]] == v;
    }
  }

  lemma NothingDivided()
    ensures Divides([], [], Groups(1))
  {
    assert Groups(1) == [0, 0, 0, 0, 0, 1];
    forall k | 0 <= k < 6 ensures WithOne([])[k] == Sum(Product([]), Groups(1))[k] {
      XorZero(Groups(1)[k]);
    }
    assert Zeros(0) + Groups(1) == Groups(1);
  }

  /** A multiple of the generator leaves nothing. */
  lemma {:induction false} ProductVanishes(q: Data)
    requires Symbols(q)
    ensures Fold(0, Product(q)) == 0
  {
    hide Step, Scaled, Xor;
    if q == [] {
      FoldZeros(6);
    } else {
      var n := |q| - 1;
      ProductVanishes(q[..n]);
      FoldLinear(0, 0, Product(q[..n]) + [0], Zeros(n) + Scaled(q[n]));
      XorZero(0);
      FoldConcat(0, Product(q[..n]), [0]);
      FoldOne(0, 0);
      StepZero();
      FoldConcat(0, Zeros(n), Scaled(q[n]));
      FoldZeros(n);
      ScaledVanishes(q[n]);
    }
  }

  lemma FoldOne(c: bv32, x: bv32)
    ensures Fold(c, [x]) == Step(c, x)
  {
    hide Step;
    assert Fold(c, [x][..0]) == c;
  }

  lemma ScaledVanishes(d: bv32)
    requires d < 32
    ensures Fold(0, Scaled(d)) == 0
  {
    hide Step, Mul, Generator, Coefficient, Fold, Packed;
    var g := Scaled(d);
    assert g == g[..6] + [g[6]];
    FoldConcat(0, g[..6], [g[6]]);
    FoldOne(Fold(0, g[..6]), g[6]);
    ScaledSymbols(d);
    FoldSix(g[..6]);
    var c := Fold(0, g[..6]);
    PackedTop(g[0], g[1], g[2], g[3], g[4], g[5]);
    forall i: nat | i < 6 ensures Coefficient(Step(c, g[6]), i) == 0 {
      StepCoefficient(c, g[6], i);
      if i > 0 {
        PackedCoefficient(g[..6], i - 1);
      }
      XorSelf(Mul(Generator(i), d), Mul(Generator(i), d));
    }
    StepRange(c, g[6]);
    NoCoefficient(Step(c, g[6]));
  }

  lemma ScaledSymbols(d: bv32)
    requires d < 32
    ensures Symbols(Scaled(d))
  {
    hide Mul;
    var g := Scaled(d);
    forall j | 0 < j < 7 ensures g[j] < 32 {
      MulRange(Generator(6 - j), d);
    }
  }

  lemma PackedTop(a: bv32, b: bv32, c: bv32, d: bv32, e: bv32, f: bv32)
    requires a < 32 && b < 32 && c < 32 && d < 32 && e < 32 && f < 32
    ensures Packed(a, b, c, d, e, f) >> 25 == a
  {
  }

  lemma GroupsOfPacked(a: bv32, b: bv32, c: bv32, d: bv32, e: bv32, f: bv32)
    requires a < 32 && b < 32 && c < 32 && d < 32 && e < 32 && f < 32
    ensures Groups(Packed(a, b, c, d, e, f)) == [a, b, c, d, e, f]
  {
  }

  lemma PackedCoefficient(six: Data, i: nat)
    requires |six| == 6 && Symbols(six) && i < 6
    ensures Coefficient(Packed(six[0], six[1], six[2], six[3], six[4], six[5]), i) == six[5 - i]
  {
    hide Packed, Groups, Coefficient;
    GroupsOfPacked(six[0], six[1], six[2], six[3], six[4], six[5]);
    GroupsAre(Packed(six[0], six[1], six[2], six[3], six[4], six[5]), 5 - i);
  }

  lemma NoCoefficient(c: bv32)
    requires c < 0x40000000 && forall i: nat :: i < 6 ==> Coefficient(c, i) == 0
    ensures c == 0
  {
    hide Coefficient, Packed;
    CoefficientIs(c);
    assert Coefficient(c, 0) == 0 && Coefficient(c, 1) == 0 && Coefficient(c, 2) == 0;
    assert Coefficient(c, 3) == 0 && Coefficient(c, 4) == 0 && Coefficient(c, 5) == 0;
    PackedGroups(c);
    NothingPacked();
  }

  lemma NothingPacked()
    ensures Packed(0, 0, 0, 0, 0, 0) == 0
  {
  }

  /** PolyMod is the remainder of division by the generator: `r` holds its coefficients if and only
      if the polynomial with the implicit 1 in front is a multiple of the generator plus `r`. */
  lemma PolyModIsRemainder(v: Data, r: Data)
    requires Symbols(v) && |r| == 6 && Symbols(r)
    ensures PolyMod(v) == Packed(r[0], r[1], r[2], r[3], r[4], r[5]) <==> exists q :: Divides(v, q, r)
  {
    hide Divides, PolyMod, Packed, Groups;
    if PolyMod(v) == Packed(r[0], r[1], r[2], r[3], r[4], r[5]) {
      QuotientExists(v);
      GroupsOfPacked(r[0], r[1], r[2], r[3], r[4], r[5]);
      assert Groups(PolyMod(v)) == r;
    }
    if q :| Divides(v, q, r) {
      RemainderOf(v, q, r);
    }
  }

  lemma RemainderOf(v: Data, q: Data, r: Data)
    requires Divides(v, q, r)
    ensures PolyMod(v) == Packed(r[0], r[1], r[2], r[3], r[4], r[5])
  {
    hide Step, Xor, Product, Packed, Fold;
    FoldConcat(0, [0, 0, 0, 0, 0, 1], v);
    LeadingOne();
    FoldLinear(0, 0, Product(q), Zeros(|v|) + r);
    XorZero(0);
    ProductVanishes(q);
    FoldConcat(0, Zeros(|v|), r);
    FoldZeros(|v|);
    FoldSix(r);
    XorZero(Fold(0, r));
  }

  lemma LeadingOne()
    ensures Fold(0, [0, 0, 0, 0, 0, 1]) == 1
  {
    hide Fold;
    var one: Data := [0, 0, 0, 0, 0, 1];
    FoldSix(one);
  }

  // ----- Checksums -----

  lemma ByteRange(c: char)
    ensures Byte(c) < 256
  {
  }

  lemma HighLow(c: char)
    ensures High(c) < 8 && Low(c) < 32 && (High(c) << 5) ^ Low(c) == Byte(c)
  {
    ByteRange(c);
    HighLowBits(Byte(c));
  }

  lemma HighLowBits(b: bv32)
    requires b < 256
    ensures b >> 5 < 8 && b & 0x1f < 32 && ((b >> 5) << 5) ^ (b & 0x1f) == b
  {
  }

  /** The expanded prefix has the upper three bits of every character, a zero, and the lower five
      bits of every character. */
  lemma HrpExpanded(hrp: string, i: nat)
    requires i < |hrp|
    ensures var e, n := ExpandHrp(hrp), |hrp|;
      && |e| == 2 * n + 1 && e[n] == 0
      && e[i] < 8 && e[n + 1 + i] < 32 && (e[i] << 5) ^ e[n + 1 + i] == Byte(hrp[i])
  {
    hide High, Low;
    HighLow(hrp[i]);
  }

  lemma ExpandedSymbols(hrp: string)
    ensures Symbols(ExpandHrp(hrp))
  {
    hide High, Low;
    var e, n := ExpandHrp(hrp), |hrp|;
    forall k | 0 <= k < |e| ensures e[k] < 32 {
      if k < n {
        HighLow(hrp[k]);
      } else if k > n {
        HighLow(hrp[k - n - 1]);
      }
    }
  }

  /** Symbols are accepted after a prefix if and only if the polynomial of 1, the expanded prefix
      and the symbols is one more than a multiple of the generator. */
  lemma VerifyIsRemainderOne(hrp: string, values: Data)
    requires Symbols(values)
    ensures VerifyChecksum(hrp, values) <==> exists q :: Divides(ExpandHrp(hrp) + values, q, [0, 0, 0, 0, 0, 1])
  {
    hide PolyMod, ExpandHrp, Divides, Packed;
    ExpandedSymbols(hrp);
    OnePacked();
    PolyModIsRemainder(ExpandHrp(hrp) + values, [0, 0, 0, 0, 0, 1]);
  }

  lemma OnePacked()
    ensures Packed(0, 0, 0, 0, 0, 1) == 1
  {
  }

  /** Only one checksum is accepted. */
  lemma ChecksumUnique(hrp: string, values: Data, chk: Data)
    requires Symbols(values) && |chk| == 6 && Symbols(chk)
    ensures VerifyChecksum(hrp, values + chk) <==> chk == CreateChecksum(hrp, values)
  {
    hide VerifyChecksum, CreateChecksum;
    ChecksumVerifies(hrp, values);
    var own := CreateChecksum(hrp, values);
    if chk != own {
      assert (values + own)[|values|..] == own && (values + chk)[|values|..] == chk;
      BurstDetected(hrp, values + own, values + chk, |values|, 6);
    }
  }

  // ----- Strings -----

  const CHARSET := "qpzry9x8gf2tvdw0s3jn54khce6mua7l"

  lemma CharsetIs(v: bv32)
    requires v < 32
    ensures CharOf(v) == CHARSET[v as int]
  {
  }

  lemma Rev0Char(l: char, v: bv32)
    requires Rev0(l) == Some(v)
    ensures v < 8 && CharOf(v) == l
  {
    hide Char1, Char2, Char3;
  }

  lemma Rev1Char(l: char, v: bv32)
    requires Rev1(l) == Some(v)
    ensures 8 <= v < 16 && CharOf(v) == l
  {
    hide Char0, Char2, Char3;
  }

  lemma Rev2Char(l: char, v: bv32)
    requires Rev2(l) == Some(v)
    ensures 16 <= v < 24 && CharOf(v) == l
  {
    hide Char0, Char1, Char3;
  }

  lemma Rev3Char(l: char, v: bv32)
    requires Rev3(l) == Some(v)
    ensures 24 <= v < 32 && CharOf(v) == l
  {
    hide Char0, Char1, Char2;
  }

  lemma LowerTwice(c: char)
    ensures LowerCase(LowerCase(c)) == LowerCase(c)
  {
  }

  /** A character stands for a symbol if and only if its lower case is the symbol's character. */
  lemma RevExact(c: char, v: bv32)
    ensures RevOf(c) == Some(v) <==> v < 32 && CharOf(v) == LowerCase(c)
  {
    hide CharOf, LowerCase, Rev0, Rev1, Rev2, Rev3;
    var l := LowerCase(c);
    if RevOf(c) == Some(v) {
      if Rev0(l).Some? {
        Rev0Char(l, v);
      } else if Rev1(l).Some? {
        Rev1Char(l, v);
      } else if Rev2(l).Some? {
        Rev2Char(l, v);
      } else {
        Rev3Char(l, v);
      }
    } else if v < 32 {
      CharBack(v);
      LowerTwice(c);
    }
  }

  function UpperCase(c: char): char {
    if IsLower(c) then (c as int - 'a' as int + 'A' as int) as char else c
  }

  /** One case: no letter is in lower case, or none is in upper case. */
  predicate OneCase(s: string) {
    (forall i :: 0 <= i < |s| ==> s[i] == LowerCase(s[i])) || (forall i :: 0 <= i < |s| ==> s[i] == UpperCase(s[i]))
  }

  lemma CaseIs(c: char)
    ensures c == LowerCase(c) <==> !IsUpper(c)
    ensures c == UpperCase(c) <==> !IsLower(c)
    ensures LowerCase(c) == '1' <==> c == '1'
    ensures !IsUpper(LowerCase(c)) && (Printable(c) <==> Printable(LowerCase(c)))
  {
  }

  lemma GoodCaseIs(s: string)
    ensures GoodCase(s) <==> OneCase(s) && forall i :: 0 <= i < |s| ==> 33 <= s[i] as int <= 126
  {
    hide LowerCase, UpperCase, IsLower, IsUpper;
    forall i | 0 <= i < |s| ensures (s[i] == LowerCase(s[i]) <==> !IsUpper(s[i])) && (s[i] == UpperCase(s[i]) <==> !IsLower(s[i])) {
      CaseIs(s[i]);
    }
  }

  /** Decode accepts exactly the printable strings in one case, of at most 90 characters, whose
      lower-case form is what Encode writes, and answers with what was encoded. */
  lemma DecodeExact(s: string, hrp: string, values: Data)
    requires hrp != ""
    ensures Decoded(s) == (hrp, values) <==>
      && |s| <= 90 && OneCase(s) && (forall i :: 0 <= i < |s| ==> 33 <= s[i] as int <= 126)
      && Symbols(values) && Lowered(s) == Encoded(hrp, values)
    ensures Decoded(s).0 == "" ==> Decoded(s).1 == []
  {
    NothingDecoded(s);
    hide GoodCase, Encoded, Decoded, OneCase;
    GoodCaseIs(s);
    if Decoded(s) == (hrp, values) {
      DecodedWas(s, hrp, values);
    }
    if |s| <= 90 && GoodCase(s) && Symbols(values) && Lowered(s) == Encoded(hrp, values) {
      EncodedIs(s, hrp, values);
    }
  }

  lemma NothingDecoded(s: string)
    ensures Decoded(s).0 == "" ==> Decoded(s).1 == []
  {
    hide GoodCase, VerifyChecksum, AllSymbols, LowerCase, RevOf;
  }

  lemma LoweredParts(s: string, pos: nat)
    requires pos < |s| && s[pos] == '1'
    ensures Lowered(s) == Lowered(s[..pos]) + ['1'] + Lowered(s[pos + 1..])
  {
    hide LowerCase;
    CaseIs('1');
  }

  /** Symbols written out again are the lower-case form of what was read. */
  lemma WrittenBack(rest: string)
    requires AllSymbols(rest)
    ensures Symbols(ValuesOf(rest)) && CharsOf(ValuesOf(rest)) == Lowered(rest)
  {
    hide LowerCase, RevOf, CharOf;
    var all := ValuesOf(rest);
    forall i | 0 <= i < |rest| ensures all[i] < 32 && CharOf(all[i]) == LowerCase(rest[i]) {
      RevExact(rest[i], all[i]);
    }
  }

  lemma DecodedParts(s: string, hrp: string, values: Data)
    requires hrp != "" && Decoded(s) == (hrp, values)
    ensures |s| <= 90 && GoodCase(s) && 0 < LastOne(s) <= |s| - 7
    ensures var rest := s[LastOne(s) + 1..];
      && AllSymbols(rest) && hrp == Lowered(s[..LastOne(s)])
      && VerifyChecksum(hrp, ValuesOf(rest)) && values == ValuesOf(rest)[..|rest| - 6]
  {
    hide GoodCase, VerifyChecksum, AllSymbols, LowerCase, RevOf;
  }

  lemma DecodedWas(s: string, hrp: string, values: Data)
    requires hrp != "" && Decoded(s) == (hrp, values)
    ensures |s| <= 90 && GoodCase(s) && Symbols(values) && Lowered(s) == Encoded(hrp, values)
  {
    hide GoodCase, VerifyChecksum, CreateChecksum, AllSymbols, LowerCase, CharOf, RevOf, Decoded, LastOne;
    DecodedParts(s, hrp, values);
    var pos := LastOne(s);
    var all := ValuesOf(s[pos + 1..]);
    WrittenBack(s[pos + 1..]);
    LoweredParts(s, pos);
    var chk := all[|all| - 6..];
    assert all == values + chk;
    ChecksumUnique(hrp, values, chk);
  }

  lemma EncodedIs(s: string, hrp: string, values: Data)
    requires hrp != "" && |s| <= 90 && GoodCase(s) && Symbols(values) && Lowered(s) == Encoded(hrp, values)
    ensures Decoded(s) == (hrp, values)
  {
    hide GoodCase, LowerCase, RevOf, CharOf, VerifyChecksum, CreateChecksum, Encoded;
    var all := values + CreateChecksum(hrp, values);
    EncodedShape(hrp, values);
    ChecksumVerifies(hrp, values);
    var pos, l := |hrp|, Lowered(s);
    forall i | 0 <= i < |s| ensures l[i] == '1' <==> s[i] == '1' {
      CaseIs(s[i]);
    }
    LastOneIs(s, pos);
    var rest := s[pos + 1..];
    forall i | 0 <= i < |rest| ensures RevOf(rest[i]) == Some(all[i]) {
      assert l[pos + 1..][i] == CharOf(all[i]);
      RevExact(rest[i], all[i]);
    }
    assert ValuesOf(rest) == all;
    assert Lowered(s[..pos]) == l[..pos];
    assert all[..|all| - 6] == values;
  }
}
