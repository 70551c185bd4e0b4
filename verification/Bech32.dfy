/** Bech32 (src/bech32.cpp, BIP 173): a checksum that is linear over GF(2), and the strings
    that carry it. */
module Bech32 {
  import opened Wrappers

  type Data = seq<bv32>

  // ----- Adding over GF(2) -----

  function Xor(a: bv32, b: bv32): bv32 {
    a ^ b
  }

  lemma AssocBits(a: bv32, b: bv32, c: bv32)
    ensures (a ^ b) ^ c == a ^ (b ^ c)
  {
  }

  lemma XorAssoc(a: bv32, b: bv32, c: bv32)
    ensures Xor(Xor(a, b), c) == Xor(a, Xor(b, c))
  {
    AssocBits(a, b, c);
  }

  lemma XorComm(a: bv32, b: bv32)
    ensures Xor(a, b) == Xor(b, a)
  {
  }

  lemma Swap(a: bv32, b: bv32, c: bv32, d: bv32)
    ensures Xor(Xor(a, b), Xor(c, d)) == Xor(Xor(a, c), Xor(b, d))
  {
    hide Xor;
    XorAssoc(a, b, Xor(c, d));
    XorAssoc(b, c, d);
    XorComm(b, c);
    XorAssoc(c, b, d);
    XorAssoc(a, c, Xor(b, d));
  }

  lemma XorZero(a: bv32)
    ensures Xor(a, 0) == a && Xor(0, a) == a
  {
  }

  lemma SelfBits(a: bv32, b: bv32)
    ensures a ^ (a ^ b) == b
  {
  }

  lemma SmallBits(a: bv32, b: bv32)
    requires a < 32 && b < 32
    ensures a ^ b < 32
  {
  }

  lemma EqualBits(a: bv32, b: bv32)
    ensures a ^ b == 0 <==> a == b
  {
  }

  /** Adding is its own inverse. */
  lemma XorSelf(a: bv32, b: bv32)
    ensures Xor(a, Xor(a, b)) == b
    ensures a < 32 && b < 32 ==> Xor(a, b) < 32
    ensures Xor(a, b) == 0 <==> a == b
  {
    SelfBits(a, b);
    EqualBits(a, b);
    if a < 32 && b < 32 {
      SmallBits(a, b);
    }
  }

  lemma XorOne(m: bv32)
    requires m < 0x40000000
    ensures Xor(m, 1) < 0x40000000 && Xor(m, Xor(m, 1)) == 1
  {
  }

  // ----- One step of the checksum -----

  /** The generator times bit `bit` of the coefficient that is shifted out. */
  function Gen(c: bv32, bit: bv32, g: bv32): bv32 {
    if Picks(c, bit) then g else 0
  }

  predicate Picks(c: bv32, bit: bv32) {
    (c >> 25) & bit != 0
  }

  /** The lower 25 bits, five places up. */
  function Shl5(c: bv32): bv32 {
    (c & 0x1ffffff) << 5
  }

  function Shifted(c: bv32, v: bv32): bv32 {
    Xor(Shl5(c), v)
  }

  /** One step of PolyMod: c(x) * x + v modulo the generator. */
  function Step(c: bv32, v: bv32): bv32 {
    Xor(Xor(Xor(Xor(Xor(Shifted(c, v), Gen(c, 1, 0x3b6a57b2)), Gen(c, 2, 0x26508e6d)), Gen(c, 4, 0x1ea119fa)),
      Gen(c, 8, 0x3d4233dd)), Gen(c, 16, 0x2a1462b3))
  }

  lemma ShiftBits(c: bv32, d: bv32)
    ensures Shl5(c ^ d) == Shl5(c) ^ Shl5(d)
  {
  }

  lemma ShiftXor(c: bv32, d: bv32)
    ensures Shl5(Xor(c, d)) == Xor(Shl5(c), Shl5(d))
  {
    hide Shl5;
    ShiftBits(c, d);
  }

  lemma ShiftedLinear(c: bv32, d: bv32, v: bv32, w: bv32)
    ensures Shifted(Xor(c, d), Xor(v, w)) == Xor(Shifted(c, v), Shifted(d, w))
  {
    hide Xor, Shl5;
    ShiftXor(c, d);
    Swap(Shl5(c), Shl5(d), v, w);
  }

  predicate OneBit(bit: bv32) {
    bit == 1 || bit == 2 || bit == 4 || bit == 8 || bit == 16
  }

  lemma PicksXor(c: bv32, d: bv32, bit: bv32)
    requires OneBit(bit)
    ensures Picks(Xor(c, d), bit) <==> Picks(c, bit) != Picks(d, bit)
  {
  }

  lemma GenLinear(c: bv32, d: bv32, bit: bv32, g: bv32)
    requires OneBit(bit)
    ensures Gen(Xor(c, d), bit, g) == Xor(Gen(c, bit, g), Gen(d, bit, g))
  {
    hide Picks, Xor, OneBit;
    PicksXor(c, d, bit);
    XorSelf(g, g);
    XorZero(g);
    XorZero(0);
  }

  lemma AddGen(a: bv32, b: bv32, c: bv32, d: bv32, bit: bv32, g: bv32)
    requires OneBit(bit)
    ensures Xor(Xor(a, b), Gen(Xor(c, d), bit, g)) == Xor(Xor(a, Gen(c, bit, g)), Xor(b, Gen(d, bit, g)))
  {
    hide Gen, Xor;
    GenLinear(c, d, bit, g);
    Swap(a, b, Gen(c, bit, g), Gen(d, bit, g));
  }

  /** Steps add up. */
  lemma StepLinear(c: bv32, d: bv32, v: bv32, w: bv32)
    ensures Step(Xor(c, d), Xor(v, w)) == Xor(Step(c, v), Step(d, w))
  {
    hide Gen, Shifted, Xor;
    ShiftedLinear(c, d, v, w);
    var a0, b0 := Shifted(c, v), Shifted(d, w);
    AddGen(a0, b0, c, d, 1, 0x3b6a57b2);
    var a1, b1 := Xor(a0, Gen(c, 1, 0x3b6a57b2)), Xor(b0, Gen(d, 1, 0x3b6a57b2));
    AddGen(a1, b1, c, d, 2, 0x26508e6d);
    var a2, b2 := Xor(a1, Gen(c, 2, 0x26508e6d)), Xor(b1, Gen(d, 2, 0x26508e6d));
    AddGen(a2, b2, c, d, 4, 0x1ea119fa);
    var a3, b3 := Xor(a2, Gen(c, 4, 0x1ea119fa)), Xor(b2, Gen(d, 4, 0x1ea119fa));
    AddGen(a3, b3, c, d, 8, 0x3d4233dd);
    var a4, b4 := Xor(a3, Gen(c, 8, 0x3d4233dd)), Xor(b3, Gen(d, 8, 0x3d4233dd));
    AddGen(a4, b4, c, d, 16, 0x2a1462b3);
  }

  lemma StepRange(c: bv32, v: bv32)
    requires v < 32
    ensures Step(c, v) < 0x40000000
  {
  }

  /** A step forgets nothing. */
  lemma StepInjective(c: bv32)
    requires c < 0x40000000 && Step(c, 0) == 0
    ensures c == 0
  {
  }

  lemma StepZero()
    ensures Step(0, 0) == 0
  {
  }

  // ----- Whole sequences -----

  function Fold(c: bv32, v: Data): bv32 {
    if v == [] then c else Step(Fold(c, v[..|v| - 1]), v[|v| - 1])
  }

  function PolyMod(v: Data): bv32 {
    Fold(1, v)
  }

  predicate Symbols(v: Data) {
    forall i :: 0 <= i < |v| ==> v[i] < 32
  }

  function Zeros(n: nat): (z: Data)
    ensures |z| == n && forall i :: 0 <= i < n ==> z[i] == 0
  {
    seq(n, _ => 0)
  }

  /** The symbolwise sum of two sequences. */
  function Sum(v: Data, w: Data): (s: Data)
    requires |v| == |w|
    ensures |s| == |v| && forall i :: 0 <= i < |v| ==> s[i] == Xor(v[i], w[i])
  {
    seq(|v|, i requires 0 <= i < |v| => Xor(v[i], w[i]))
  }

  lemma {:induction false} FoldLinear(c: bv32, d: bv32, v: Data, w: Data)
    requires |v| == |w|
    ensures Fold(Xor(c, d), Sum(v, w)) == Xor(Fold(c, v), Fold(d, w))
  {
    hide Step, Xor;
    if v != [] {
      var n := |v| - 1;
      FoldLinear(c, d, v[..n], w[..n]);
      assert Sum(v, w)[..n] == Sum(v[..n], w[..n]);
      StepLinear(Fold(c, v[..n]), Fold(d, w[..n]), v[n], w[n]);
    }
  }

  lemma {:induction false} FoldConcat(c: bv32, v: Data, w: Data)
    ensures Fold(c, v + w) == Fold(Fold(c, v), w)
  {
    hide Step;
    if w == [] {
      assert v + w == v;
    } else {
      var n := |w| - 1;
      FoldConcat(c, v, w[..n]);
      assert (v + w)[..|v| + n] == v + w[..n];
    }
  }

  lemma {:induction false} FoldZeros(n: nat)
    ensures Fold(0, Zeros(n)) == 0
  {
    hide Step;
    if n > 0 {
      FoldZeros(n - 1);
      assert Zeros(n)[..n - 1] == Zeros(n - 1);
      StepZero();
    }
  }

  /** Trailing zeros keep a nonzero remainder nonzero. */
  lemma {:induction false} FoldTail(c: bv32, n: nat)
    requires c < 0x40000000
    ensures Fold(c, Zeros(n)) < 0x40000000 && (Fold(c, Zeros(n)) == 0 ==> c == 0)
  {
    hide Step;
    if n > 0 {
      FoldTail(c, n - 1);
      assert Zeros(n)[..n - 1] == Zeros(n - 1);
      var d := Fold(c, Zeros(n - 1));
      StepRange(d, 0);
      if Step(d, 0) == 0 {
        StepInjective(d);
      }
    }
  }

  // ----- Six symbols -----

  /** Six symbols in thirty bits, the first one highest. */
  function Packed(a: bv32, b: bv32, c: bv32, d: bv32, e: bv32, f: bv32): bv32 {
    (a << 25) | (b << 20) | (c << 15) | (d << 10) | (e << 5) | f
  }

  /** While fewer than six symbols are in, nothing is shifted out. */
  lemma StepSmall(c: bv32, v: bv32)
    requires c < 0x2000000 && v < 32
    ensures Step(c, v) == Appended(c, v)
  {
    SmallShift(c, v);
    hide Xor;
    var s := Shifted(c, v);
    XorZero(s);
  }

  lemma SmallShift(c: bv32, v: bv32)
    requires c < 0x2000000 && v < 32
    ensures c >> 25 == 0 && Shl5(c) ^ v == (c << 5) | v
  {
  }

  lemma PackedIs(a: bv32, b: bv32, c: bv32, d: bv32, e: bv32, f: bv32)
    requires a < 32 && b < 32 && c < 32 && d < 32 && e < 32 && f < 32
    ensures var r := Step(Step(Step(Step(Step(Step(0, a), b), c), d), e), f);
      r == Packed(a, b, c, d, e, f) < 0x40000000
  {
    hide Step;
    StepSmall(0, a);
    var r1 := Appended(0, a);
    AppendedSmall(0, a, 1);
    StepSmall(r1, b);
    var r2 := Appended(r1, b);
    AppendedSmall(r1, b, 32);
    StepSmall(r2, c);
    var r3 := Appended(r2, c);
    AppendedSmall(r2, c, 1024);
    StepSmall(r3, d);
    var r4 := Appended(r3, d);
    AppendedSmall(r3, d, 32768);
    StepSmall(r4, e);
    var r5 := Appended(r4, e);
    AppendedSmall(r4, e, 1048576);
    StepSmall(r5, f);
    AppendedAll(a, b, c, d, e, f);
  }

  function Appended(c: bv32, v: bv32): bv32 {
    (c << 5) | v
  }

  lemma AppendedSmall(c: bv32, v: bv32, bound: bv32)
    requires c < bound <= 0x100000 && v < 32
    requires bound == 1 || bound == 32 || bound == 1024 || bound == 32768 || bound == 1048576
    ensures Appended(c, v) < bound << 5 <= 0x2000000
  {
  }

  lemma AppendedAll(a: bv32, b: bv32, c: bv32, d: bv32, e: bv32, f: bv32)
    requires a < 32 && b < 32 && c < 32 && d < 32 && e < 32 && f < 32
    ensures Appended(Appended(Appended(Appended(Appended(Appended(0, a), b), c), d), e), f) == Packed(a, b, c, d, e, f) < 0x40000000
  {
  }

  lemma PackedNonzero(a: bv32, b: bv32, c: bv32, d: bv32, e: bv32, f: bv32)
    requires a < 32 && b < 32 && c < 32 && d < 32 && e < 32 && f < 32
    requires Packed(a, b, c, d, e, f) == 0
    ensures a == 0 && b == 0 && c == 0 && d == 0 && e == 0 && f == 0
  {
  }

  lemma FoldSix(v: Data)
    requires |v| == 6 && Symbols(v)
    ensures Fold(0, v) == Packed(v[0], v[1], v[2], v[3], v[4], v[5]) < 0x40000000
  {
    hide Step, Packed;
    PackedIs(v[0], v[1], v[2], v[3], v[4], v[5]);
    assert v[..5][..4] == v[..4];
    assert v[..4][..3] == v[..3];
    assert v[..3][..2] == v[..2];
    assert v[..2][..1] == v[..1];
    assert v[..1][..0] == [];
    assert Fold(0, v[..1]) == Step(0, v[0]);
    assert Fold(0, v[..2]) == Step(Fold(0, v[..1]), v[1]);
    assert Fold(0, v[..3]) == Step(Fold(0, v[..2]), v[2]);
    assert Fold(0, v[..4]) == Step(Fold(0, v[..3]), v[3]);
    assert Fold(0, v[..5]) == Step(Fold(0, v[..4]), v[4]);
  }

  // ----- Creating and verifying -----

  function ExpandHrp(hrp: string): Data {
    seq(|hrp|, i requires 0 <= i < |hrp| => High(hrp[i])) + [0] + seq(|hrp|, i requires 0 <= i < |hrp| => Low(hrp[i]))
  }

  /** A character as an unsigned byte. */
  function Byte(c: char): bv32 {
    (c as int % 256) as bv32
  }

  function High(c: char): bv32 {
    Byte(c) >> 5
  }

  function Low(c: char): bv32 {
    Byte(c) & 0x1f
  }

  predicate VerifyChecksum(hrp: string, values: Data) {
    PolyMod(ExpandHrp(hrp) + values) == 1
  }

  /** The 5-bit groups of a thirty-bit number. */
  function Groups(mod: bv32): (g: Data)
    ensures |g| == 6
  {
    [(mod >> 25) & 31, (mod >> 20) & 31, (mod >> 15) & 31, (mod >> 10) & 31, (mod >> 5) & 31, mod & 31]
  }

  function CreateChecksum(hrp: string, values: Data): (g: Data)
    ensures |g| == 6
  {
    Groups(Xor(PolyMod(ExpandHrp(hrp) + values + Zeros(6)), 1))
  }

  lemma GroupsPacked(mod: bv32)
    requires mod < 0x40000000
    ensures Symbols(Groups(mod)) && Fold(0, Groups(mod)) == mod
  {
    GroupsSmall(mod);
    FoldSix(Groups(mod));
    hide Fold;
    PackedGroups(mod);
  }

  lemma GroupsSmall(mod: bv32)
    ensures Symbols(Groups(mod))
  {
  }

  lemma PackedGroups(mod: bv32)
    requires mod < 0x40000000
    ensures Packed((mod >> 25) & 31, (mod >> 20) & 31, (mod >> 15) & 31, (mod >> 10) & 31, (mod >> 5) & 31, mod & 31) == mod
  {
  }

  /** Six zeros in place of the last six symbols, and the symbols added to the remainder. */
  lemma LastSix(e: Data, chk: Data)
    requires |chk| == 6
    ensures PolyMod(e + chk) == Xor(PolyMod(e + Zeros(6)), Fold(0, chk))
  {
    hide Step, Xor;
    var mask := Zeros(|e|) + chk;
    XorZero(1);
    assert Sum(e + Zeros(6), mask) == e + chk by {
      forall i | 0 <= i < |e| + 6 ensures Sum(e + Zeros(6), mask)[i] == (e + chk)[i] {
        XorZero((e + chk)[i]);
      }
    }
    FoldLinear(1, 0, e + Zeros(6), mask);
    FoldConcat(0, Zeros(|e|), chk);
    FoldZeros(|e|);
  }

  /** What CreateChecksum appends, VerifyChecksum accepts. */
  lemma ChecksumVerifies(hrp: string, values: Data)
    ensures VerifyChecksum(hrp, values + CreateChecksum(hrp, values))
    ensures Symbols(CreateChecksum(hrp, values))
  {
    hide Step, Groups, Xor, Fold;
    var e := ExpandHrp(hrp) + values;
    var p := PolyMod(e + Zeros(6));
    RemainderRange(e);
    XorOne(p);
    GroupsPacked(Xor(p, 1));
    var chk := CreateChecksum(hrp, values);
    LastSix(e, chk);
    assert ExpandHrp(hrp) + (values + chk) == e + chk;
  }

  lemma RemainderRange(e: Data)
    ensures PolyMod(e + Zeros(6)) < 0x40000000
  {
    hide Step;
    var v := e + Zeros(6);
    assert v[|v| - 1] == 0;
    StepRange(Fold(1, v[..|v| - 1]), 0);
  }

  // ----- Errors -----

  /** Two sequences that differ only in the `len` places from `at` on. */
  predicate SameOutside(v: Data, w: Data, at: nat, len: nat) {
    |v| == |w| && at + len <= |v| && forall i :: 0 <= i < |v| && (i < at || at + len <= i) ==> v[i] == w[i]
  }

  lemma FoldFew(burst: Data)
    requires |burst| <= 6 && Symbols(burst) && exists i :: 0 <= i < |burst| && burst[i] != 0
    ensures 0 < Fold(0, burst) < 0x40000000
  {
    hide Step;
    var k := 6 - |burst|;
    var six := Zeros(k) + burst;
    FoldConcat(0, Zeros(k), burst);
    FoldZeros(k);
    FoldSix(six);
    var i :| 0 <= i < |burst| && burst[i] != 0;
    assert six[k + i] != 0;
    AllPacked(six, k + i);
  }

  lemma AllPacked(six: Data, i: nat)
    requires |six| == 6 && Symbols(six) && i < 6 && six[i] != 0
    ensures Packed(six[0], six[1], six[2], six[3], six[4], six[5]) != 0
  {
    if Packed(six[0], six[1], six[2], six[3], six[4], six[5]) == 0 {
      PackedNonzero(six[0], six[1], six[2], six[3], six[4], six[5]);
    }
  }

  /** A nonzero burst of up to six symbols leaves a nonzero remainder, however long the tail. */
  lemma BurstRemainder(front: nat, burst: Data, tail: nat)
    requires |burst| <= 6 && Symbols(burst) && exists i :: 0 <= i < |burst| && burst[i] != 0
    ensures Fold(0, Zeros(front) + burst + Zeros(tail)) != 0
  {
    hide Step;
    FoldConcat(0, Zeros(front) + burst, Zeros(tail));
    FoldConcat(0, Zeros(front), burst);
    FoldZeros(front);
    FoldFew(burst);
    FoldTail(Fold(0, burst), tail);
  }

  /** Changing a valid string within six neighbouring symbols, in any way, never gives another
      valid string with the same prefix. */
  lemma BurstDetected(hrp: string, v: Data, w: Data, at: nat, len: nat)
    requires Symbols(v) && Symbols(w) && len <= 6 && SameOutside(v, w, at, len) && v != w
    requires VerifyChecksum(hrp, v)
    ensures !VerifyChecksum(hrp, w)
  {
    hide Step, Xor, Fold;
    var e := ExpandHrp(hrp);
    var burst, tail := Sum(v, w)[at..at + len], |v| - at - len;
    BurstIs(v, w, at, len);
    BurstMask(e, v, w, at, len);
    var mask := Zeros(|e| + at) + burst + Zeros(tail);
    XorZero(1);
    FoldLinear(1, 0, e + v, mask);
    BurstRemainder(|e| + at, burst, tail);
    XorSelf(1, Fold(0, mask));
    XorSelf(1, Xor(1, Fold(0, mask)));
  }

  /** One changed symbol is always noticed. */
  lemma SymbolDetected(hrp: string, v: Data, i: nat, x: bv32)
    requires Symbols(v) && i < |v| && x < 32 && x != v[i]
    requires VerifyChecksum(hrp, v)
    ensures !VerifyChecksum(hrp, v[i := x])
  {
    hide Step, Xor, Fold, VerifyChecksum;
    assert v[i := x][i] != v[i];
    BurstDetected(hrp, v, v[i := x], i, 1);
  }

  lemma BurstIs(v: Data, w: Data, at: nat, len: nat)
    requires Symbols(v) && Symbols(w) && SameOutside(v, w, at, len) && v != w
    ensures var burst := Sum(v, w)[at..at + len];
      Symbols(burst) && exists i :: 0 <= i < |burst| && burst[i] != 0
  {
    hide Xor;
    var burst := Sum(v, w)[at..at + len];
    forall i | 0 <= i < len ensures burst[i] < 32 {
      XorSelf(v[at + i], w[at + i]);
    }
    var k :| 0 <= k < |v| && v[k] != w[k];
    XorSelf(v[k], w[k]);
    assert burst[k - at] == Xor(v[k], w[k]);
  }

  /** Adding the burst in its place turns the one string into the other. */
  lemma BurstMask(e: Data, v: Data, w: Data, at: nat, len: nat)
    requires SameOutside(v, w, at, len)
    ensures var mask := Zeros(|e| + at) + Sum(v, w)[at..at + len] + Zeros(|v| - at - len);
      Sum(e + v, mask) == e + w
  {
    hide Xor;
    var mask := Zeros(|e| + at) + Sum(v, w)[at..at + len] + Zeros(|v| - at - len);
    forall i | 0 <= i < |e| + |v| ensures Sum(e + v, mask)[i] == (e + w)[i] {
      XorZero((e + v)[i]);
      if |e| + at <= i < |e| + at + len {
        assert mask[i] == Xor(v[i - |e|], w[i - |e|]);
        XorSelf(v[i - |e|], w[i - |e|]);
      }
    }
  }

  // ----- Characters -----

  function CharOf(v: bv32): char {
    if v < 8 then Char0(v) else if v < 16 then Char1(v) else if v < 24 then Char2(v) else Char3(v)
  }

  function Char0(v: bv32): char {
    if v == 0 then 'q' else if v == 1 then 'p' else if v == 2 then 'z' else if v == 3 then 'r'
    else if v == 4 then 'y' else if v == 5 then '9' else if v == 6 then 'x' else '8'
  }

  function Char1(v: bv32): char {
    if v == 8 then 'g' else if v == 9 then 'f' else if v == 10 then '2' else if v == 11 then 't'
    else if v == 12 then 'v' else if v == 13 then 'd' else if v == 14 then 'w' else '0'
  }

  function Char2(v: bv32): char {
    if v == 16 then 's' else if v == 17 then '3' else if v == 18 then 'j' else if v == 19 then 'n'
    else if v == 20 then '5' else if v == 21 then '4' else if v == 22 then 'k' else 'h'
  }

  function Char3(v: bv32): char {
    if v == 24 then 'c' else if v == 25 then 'e' else if v == 26 then '6' else if v == 27 then 'm'
    else if v == 28 then 'u' else if v == 29 then 'a' else if v == 30 then '7' else 'l'
  }

  predicate IsLower(c: char) {
    'a' <= c <= 'z'
  }

  predicate IsUpper(c: char) {
    'A' <= c <= 'Z'
  }

  function LowerCase(c: char): char {
    if IsUpper(c) then (c as int - 'A' as int + 'a' as int) as char else c
  }

  /** CHARSET_REV: both cases of a letter stand for one symbol. */
  function RevOf(c: char): Option<bv32> {
    var l := LowerCase(c);
    if Rev0(l).Some? then Rev0(l) else if Rev1(l).Some? then Rev1(l) else if Rev2(l).Some? then Rev2(l) else Rev3(l)
  }

  function Rev0(l: char): Option<bv32> {
    if l == 'q' then Some(0) else if l == 'p' then Some(1) else if l == 'z' then Some(2) else if l == 'r' then Some(3)
    else if l == 'y' then Some(4) else if l == '9' then Some(5) else if l == 'x' then Some(6) else if l == '8' then Some(7) else None
  }

  function Rev1(l: char): Option<bv32> {
    if l == 'g' then Some(8) else if l == 'f' then Some(9) else if l == '2' then Some(10) else if l == 't' then Some(11)
    else if l == 'v' then Some(12) else if l == 'd' then Some(13) else if l == 'w' then Some(14) else if l == '0' then Some(15) else None
  }

  function Rev2(l: char): Option<bv32> {
    if l == 's' then Some(16) else if l == '3' then Some(17) else if l == 'j' then Some(18) else if l == 'n' then Some(19)
    else if l == '5' then Some(20) else if l == '4' then Some(21) else if l == 'k' then Some(22) else if l == 'h' then Some(23) else None
  }

  function Rev3(l: char): Option<bv32> {
    if l == 'c' then Some(24) else if l == 'e' then Some(25) else if l == '6' then Some(26) else if l == 'm' then Some(27)
    else if l == 'u' then Some(28) else if l == 'a' then Some(29) else if l == '7' then Some(30) else if l == 'l' then Some(31) else None
  }

  /** The character of a symbol is a digit or a lower-case letter, not the separator, and
      stands for that symbol. */
  lemma CharBack(v: bv32)
    requires v < 32
    ensures RevOf(CharOf(v)) == Some(v)
    ensures CharOf(v) != '1' && !IsUpper(CharOf(v)) && Printable(CharOf(v))
  {
    hide CharOf, RevOf;
    if v < 8 {
      CharBack0(v);
    } else if v < 16 {
      CharBack1(v);
    } else if v < 24 {
      CharBack2(v);
    } else {
      CharBack3(v);
    }
    CharPlain(v);
  }

  lemma CharBack0(v: bv32)
    requires v < 8
    ensures RevOf(CharOf(v)) == Some(v)
  {
    hide Char1, Char2, Char3;
  }

  lemma CharBack1(v: bv32)
    requires 8 <= v < 16
    ensures RevOf(CharOf(v)) == Some(v)
  {
    hide Char0, Char2, Char3;
  }

  lemma CharBack2(v: bv32)
    requires 16 <= v < 24
    ensures RevOf(CharOf(v)) == Some(v)
  {
    hide Char0, Char1, Char3;
  }

  lemma CharBack3(v: bv32)
    requires 24 <= v < 32
    ensures RevOf(CharOf(v)) == Some(v)
  {
    hide Char0, Char1, Char2;
  }

  lemma CharPlain(v: bv32)
    ensures CharOf(v) != '1' && !IsUpper(CharOf(v)) && Printable(CharOf(v))
  {
  }

  predicate Printable(c: char) {
    33 <= c as int <= 126
  }

  // ----- Encode and Decode -----

  function CharsOf(v: Data): (s: string)
    ensures |s| == |v| && forall i :: 0 <= i < |v| ==> s[i] == CharOf(v[i])
  {
    seq(|v|, i requires 0 <= i < |v| => CharOf(v[i]))
  }

  function Encoded(hrp: string, values: Data): string {
    hrp + ['1'] + CharsOf(values + CreateChecksum(hrp, values))
  }

  /** The place of the last separator, or -1. */
  function LastOne(s: string): (pos: int)
    ensures -1 <= pos < |s|
    ensures pos >= 0 ==> s[pos] == '1'
    ensures forall i :: pos < i < |s| ==> s[i] != '1'
  {
    if s == [] then -1 else if s[|s| - 1] == '1' then |s| - 1 else LastOne(s[..|s| - 1])
  }

  lemma LastOneIs(s: string, pos: int)
    requires 0 <= pos < |s| && s[pos] == '1' && forall i :: pos < i < |s| ==> s[i] != '1'
    ensures LastOne(s) == pos
  {
  }

  function Lowered(s: string): (r: string)
    ensures |r| == |s| && forall i :: 0 <= i < |s| ==> r[i] == LowerCase(s[i])
  {
    seq(|s|, i requires 0 <= i < |s| => LowerCase(s[i]))
  }

  predicate AllSymbols(s: string) {
    forall i :: 0 <= i < |s| ==> RevOf(s[i]).Some?
  }

  function ValuesOf(s: string): (v: Data)
    requires AllSymbols(s)
    ensures |v| == |s| && forall i :: 0 <= i < |s| ==> v[i] == RevOf(s[i]).value
  {
    seq(|s|, i requires 0 <= i < |s| => RevOf(s[i]).value)
  }

  /** No unprintable character, and not both cases of letters. */
  predicate GoodCase(s: string) {
    && (forall i :: 0 <= i < |s| ==> Printable(s[i]))
    && !((exists i :: 0 <= i < |s| && IsLower(s[i])) && (exists i :: 0 <= i < |s| && IsUpper(s[i])))
  }

  /** What Decode answers: the prefix in lower case and the data without the checksum, or
      nothing and nothing. */
  function Decoded(s: string): (string, Data) {
    var pos := LastOne(s);
    if !GoodCase(s) || |s| > 90 || pos <= 0 || pos + 7 > |s| then ("", []) else
    var rest := s[pos + 1..];
    if !AllSymbols(rest) then ("", []) else
    var hrp, values := Lowered(s[..pos]), ValuesOf(rest);
    if !VerifyChecksum(hrp, values) then ("", []) else (hrp, values[..|values| - 6])
  }

  predicate GoodPrefix(hrp: string) {
    hrp != "" && forall i :: 0 <= i < |hrp| ==> Printable(hrp[i]) && !IsUpper(hrp[i])
  }

  lemma EncodedShape(hrp: string, values: Data)
    requires Symbols(values)
    ensures var s := Encoded(hrp, values); var all := values + CreateChecksum(hrp, values);
      && |s| == |hrp| + 7 + |values| && Symbols(all) && LastOne(s) == |hrp|
      && s[..|hrp|] == hrp && s[|hrp| + 1..] == CharsOf(all)
      && AllSymbols(CharsOf(all)) && ValuesOf(CharsOf(all)) == all
  {
    hide VerifyChecksum, CreateChecksum, CharOf, RevOf;
    ChecksumVerifies(hrp, values);
    var all := values + CreateChecksum(hrp, values);
    var s, t := Encoded(hrp, values), CharsOf(all);
    forall i | 0 <= i < |t| ensures t[i] != '1' && RevOf(t[i]) == Some(all[i]) {
      CharBack(all[i]);
    }
    assert forall i :: |hrp| < i < |s| ==> s[i] == t[i - |hrp| - 1];
    LastOneIs(s, |hrp|);
  }

  lemma EncodedCase(hrp: string, values: Data)
    requires Symbols(values) && GoodPrefix(hrp)
    ensures GoodCase(Encoded(hrp, values))
  {
    hide VerifyChecksum, CreateChecksum, CharOf, RevOf;
    ChecksumVerifies(hrp, values);
    var all := values + CreateChecksum(hrp, values);
    var s, t := Encoded(hrp, values), CharsOf(all);
    forall i | 0 <= i < |s| ensures Printable(s[i]) && !IsUpper(s[i]) {
      if i > |hrp| {
        assert s[i] == t[i - |hrp| - 1];
        CharBack(all[i - |hrp| - 1]);
      }
    }
  }

  lemma PlainLowered(hrp: string)
    ensures Lowered(hrp) == hrp <==> forall i :: 0 <= i < |hrp| ==> !IsUpper(hrp[i])
  {
    forall i | 0 <= i < |hrp| ensures LowerCase(hrp[i]) == hrp[i] <==> !IsUpper(hrp[i]) {
    }
  }

  /** Decode gives back exactly those inputs of Encode that have a nonempty printable prefix
      without upper-case letters and fit into 90 characters, and nothing for nothing. */
  lemma DecodeEncode(hrp: string, values: Data)
    requires Symbols(values)
    ensures Decoded(Encoded(hrp, values)) == (hrp, values) <==>
      (GoodPrefix(hrp) && |hrp| + 7 + |values| <= 90) || (hrp == "" && values == [])
  {
    hide VerifyChecksum, CreateChecksum, CharOf, RevOf, Encoded;
    EncodedShape(hrp, values);
    ChecksumVerifies(hrp, values);
    PlainLowered(hrp);
    var s := Encoded(hrp, values);
    if GoodPrefix(hrp) {
      EncodedCase(hrp, values);
    } else if hrp != "" {
      BadPrefix(hrp, s);
    }
    var all := values + CreateChecksum(hrp, values);
    assert all[..|all| - 6] == values;
  }

  lemma BadPrefix(hrp: string, s: string)
    requires hrp != "" && !GoodPrefix(hrp) && |s| >= |hrp| && s[..|hrp|] == hrp && LastOne(s) == |hrp|
    ensures Decoded(s).0 != hrp
  {
    hide VerifyChecksum;
    var i :| 0 <= i < |hrp| && !(Printable(hrp[i]) && !IsUpper(hrp[i]));
    assert s[i] == hrp[i];
    PlainLowered(hrp);
  }

  // ----- The loops -----

  method RunPolyMod(v: Data) returns (c: bv32)
    ensures c == PolyMod(v)
  {
    hide Gen, Shl5, Xor;
    c := 1;
    for i := 0 to |v|
      invariant c == Fold(1, v[..i])
    {
      var c0 := c >> 25;
      ghost var before := c;
      c := Xor(Shl5(c), v[i]);
      GenCases(before, c0);
      if c0 & 1 != 0 { c := Xor(c, 0x3b6a57b2); } else { XorZero(c); }
      if c0 & 2 != 0 { c := Xor(c, 0x26508e6d); } else { XorZero(c); }
      if c0 & 4 != 0 { c := Xor(c, 0x1ea119fa); } else { XorZero(c); }
      if c0 & 8 != 0 { c := Xor(c, 0x3d4233dd); } else { XorZero(c); }
      if c0 & 16 != 0 { c := Xor(c, 0x2a1462b3); } else { XorZero(c); }
      assert v[..i + 1][..i] == v[..i];
    }
    assert v[..|v|] == v;
  }

  lemma GenCases(c: bv32, c0: bv32)
    requires c0 == c >> 25
    ensures Gen(c, 1, 0x3b6a57b2) == if c0 & 1 != 0 then 0x3b6a57b2 else 0
    ensures Gen(c, 2, 0x26508e6d) == if c0 & 2 != 0 then 0x26508e6d else 0
    ensures Gen(c, 4, 0x1ea119fa) == if c0 & 4 != 0 then 0x1ea119fa else 0
    ensures Gen(c, 8, 0x3d4233dd) == if c0 & 8 != 0 then 0x3d4233dd else 0
    ensures Gen(c, 16, 0x2a1462b3) == if c0 & 16 != 0 then 0x2a1462b3 else 0
  {
  }

  method Encode(hrp: string, values: Data) returns (ret: string)
    requires Symbols(values)
    ensures ret == Encoded(hrp, values)
  {
    hide CreateChecksum, CharOf;
    var combined := values + CreateChecksum(hrp, values);
    ret := hrp + ['1'];
    for i := 0 to |combined|
      invariant ret == hrp + ['1'] + CharsOf(combined[..i])
    {
      ret := ret + [CharOf(combined[i])];
      assert CharsOf(combined[..i + 1]) == CharsOf(combined[..i]) + [CharOf(combined[i])];
    }
    assert combined[..|combined|] == combined;
  }

  method ScanCase(s: string) returns (good: bool)
    ensures good <==> GoodCase(s)
  {
    var lower, upper := false, false;
    for i := 0 to |s|
      invariant lower <==> exists j :: 0 <= j < i && IsLower(s[j])
      invariant upper <==> exists j :: 0 <= j < i && IsUpper(s[j])
      invariant forall j :: 0 <= j < i ==> Printable(s[j])
    {
      var c := s[i];
      if IsLower(c) {
        lower := true;
      } else if IsUpper(c) {
        upper := true;
      } else if !Printable(c) {
        return false;
      }
    }
    good := !(lower && upper);
  }

  method Decode(s: string) returns (hrp: string, values: Data)
    ensures (hrp, values) == Decoded(s)
  {
    hide VerifyChecksum, RevOf;
    hrp, values := "", [];
    var good := ScanCase(s);
    if !good {
      return;
    }
    var pos := LastOne(s);
    if |s| > 90 || pos <= 0 || pos + 7 > |s| {
      return;
    }
    ghost var rest := s[pos + 1..];
    var all: Data := [];
    for i := 0 to |s| - 1 - pos
      invariant |all| == i
      invariant forall j :: 0 <= j < i ==> RevOf(rest[j]) == Some(all[j])
    {
      var rev := RevOf(s[i + pos + 1]);
      assert s[i + pos + 1] == rest[i];
      if rev.None? {
        return;
      }
      all := all + [rev.value];
    }
    assert all == ValuesOf(rest);
    for i := 0 to pos
      invariant hrp == Lowered(s[..i])
    {
      hrp := hrp + [LowerCase(s[i])];
      assert Lowered(s[..i + 1]) == Lowered(s[..i]) + [LowerCase(s[i])];
    }
    if !VerifyChecksum(hrp, all) {
      hrp := "";
      return;
    }
    values := all[..|all| - 6];
  }
}
