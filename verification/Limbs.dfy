/** Little-endian numbers in 32-bit limbs, and what the limb loops of src/arith_uint256.cpp
    compute on them. */
module Limbs {
  import opened Powers

  const B: nat := 0x1_0000_0000

  type uint32 = x: int | 0 <= x < 0x1_0000_0000
  type uint64 = x: int | 0 <= x < 0x1_0000_0000_0000_0000

  /** The number in the lowest `i` limbs. */
  function Prefix(s: seq<uint32>, i: nat): nat
    requires i <= |s|
  {
    if i == 0 then 0 else Prefix(s, i - 1) + s[i - 1] * Pow(B, i - 1)
  }

  function Val(s: seq<uint32>): nat {
    Prefix(s, |s|)
  }

  /** 2^BITS for a number of `w` limbs. */
  function Modulus(w: nat): (m: nat)
    ensures m > 0
  {
    Pow(B, w)
  }

  lemma BaseIsPower()
    ensures B == Pow(2, 32)
  {
    assert Pow(2, 4) == 16;
    hide Pow;
    PowAdd(2, 16, 16);
    PowAdd(2, 8, 8);
    PowAdd(2, 4, 4);
  }

  /** B^w is 2^(32w). */
  lemma ModulusIsPower(w: nat)
    ensures Modulus(w) == Pow(2, 32 * w)
  {
    BaseIsPower();
    PowMul(2, 32, w);
  }

  /** The two parts of a limb that is shifted by `t` bits. */
  lemma LimbSplit(t: nat)
    requires t <= 32
    ensures Pow(2, t) * Pow(2, 32 - t) == B
  {
    BaseIsPower();
    PowAdd(2, t, 32 - t);
  }

  lemma {:induction false} PrefixBound(s: seq<uint32>, i: nat)
    requires i <= |s|
    ensures Prefix(s, i) < Pow(B, i)
  {
    if i > 0 {
      PrefixBound(s, i - 1);
      MulMono(s[i - 1], B - 1, Pow(B, i - 1));
    }
  }

  lemma {:induction false} PrefixSame(s: seq<uint32>, t: seq<uint32>, i: nat)
    requires i <= |s| && i <= |t| && forall j :: 0 <= j < i ==> s[j] == t[j]
    ensures Prefix(s, i) == Prefix(t, i)
  {
    if i > 0 {
      PrefixSame(s, t, i - 1);
    }
  }

  lemma {:induction false} PrefixZero(s: seq<uint32>, i: nat)
    requires i <= |s| && forall j :: 0 <= j < i ==> s[j] == 0
    ensures Prefix(s, i) == 0
  {
    if i > 0 {
      PrefixZero(s, i - 1);
    }
  }

  lemma {:induction false} PrefixUpdate(s: seq<uint32>, j: nat, x: uint32, i: nat)
    requires j < i <= |s|
    ensures Prefix(s[j := x], i) == Prefix(s, i) + (x - s[j]) * Pow(B, j)
  {
    hide Pow;
    if j == i - 1 {
      PrefixSame(s, s[j := x], j);
      var y: int := s[j];
      MulDistrib(x, -y, Pow(B, j));
    } else {
      PrefixUpdate(s, j, x, i - 1);
    }
  }

  /** The limbs from `i` on count B^i each. */
  lemma {:induction false} PrefixSplit(s: seq<uint32>, i: nat, n: nat)
    requires i <= n <= |s|
    ensures Prefix(s, n) == Prefix(s, i) + Pow(B, i) * Prefix(s[i..], n - i)
  {
    if i < n {
      PrefixSplit(s, i, n - 1);
      PowAdd(B, i, n - 1 - i);
      assert s[i..][n - 1 - i] == s[n - 1];
      SplitAlgebra(Prefix(s[i..], n - 1 - i), s[n - 1], Pow(B, i), Pow(B, n - 1 - i));
    }
  }

  lemma SplitAlgebra(r: int, x: int, p: int, q: int)
    ensures p * (r + x * q) == p * r + x * (p * q)
  {
  }

  // ----- Complement -----

  lemma {:induction false} ComplementValue(s: seq<uint32>, t: seq<uint32>, i: nat)
    requires |s| == |t| && i <= |s|
    requires forall j :: 0 <= j < |s| ==> t[j] == B - 1 - s[j]
    ensures Prefix(t, i) == Pow(B, i) - 1 - Prefix(s, i)
  {
    if i > 0 {
      ComplementValue(s, t, i - 1);
      var p := Pow(B, i - 1);
      assert (B - 1 - s[i - 1]) * p == B * p - p - s[i - 1] * p;
    }
  }

  // ----- Left shift -----

  /** What a left shift by `t` bits moves out of a limb and what it keeps. */
  function Hi(x: uint32, t: nat): nat
    requires t < 32
  {
    x * Pow(2, t) / B
  }

  function Lo(x: uint32, t: nat): (r: uint32)
    requires t < 32
  {
    x * Pow(2, t) % B
  }

  /** A limb times `p` falls apart at B where the limb falls apart at B / p. */
  lemma SplitLimb(x: uint32, q: nat, p: nat)
    requires q * p == B && q > 0 && p > 0
    ensures x * p / B == x / q < p
    ensures x * p % B == (x % q) * p && ((x % q) * p) % p == 0
  {
    var h, l := x / q, x % q;
    SplitLimbAlgebra(h, l, q, p);
    MulMono(l, q - 1, p);
    MulDistrib(q, -1, p);
    DivModIs(x * p, B, h, l * p);
    DivModIs(l * p, p, l, 0);
    if h >= p {
      MulMono(p, h, q);
    }
  }

  lemma SplitLimbAlgebra(h: int, l: int, q: int, p: int)
    ensures (h * q + l) * p == h * (q * p) + l * p
  {
  }

  /** `x >> (32 - t)` is what a left shift by `t` moves out. */
  lemma HiIsShift(x: uint32, t: nat)
    requires t < 32
    ensures x / Pow(2, 32 - t) == Hi(x, t)
    ensures Hi(x, t) < Pow(2, t)
    ensures Lo(x, t) % Pow(2, t) == 0
    ensures x * Pow(2, t) == Hi(x, t) * B + Lo(x, t)
  {
    hide Pow;
    LimbSplit(t);
    SplitLimb(x, Pow(2, 32 - t), Pow(2, t));
  }

  /** Limb `m` of `s` shifted left by 32k + t bits. */
  function ShlLimb(s: seq<uint32>, k: nat, t: nat, m: nat): nat
    requires t < 32
  {
    (if 0 <= m - k - 1 < |s| then Hi(s[m - k - 1], t) else 0) + (if 0 <= m - k < |s| then Lo(s[m - k], t) else 0)
  }

  /** What stands at place `k + i` before limb `i` has been shifted in. */
  function Pending(s: seq<uint32>, t: nat, i: nat): nat
    requires t < 32 && i <= |s|
  {
    if i == 0 then 0 else Hi(s[i - 1], t)
  }

  lemma {:induction false} ShlPrefix(s: seq<uint32>, r: seq<uint32>, k: nat, t: nat, i: nat)
    requires t < 32 && |r| == |s| && k + i <= |s|
    requires forall m :: 0 <= m < |r| ==> r[m] == ShlLimb(s, k, t, m)
    ensures Prefix(r, k + i) + Pending(s, t, i) * Pow(B, k + i) == Prefix(s, i) * (Pow(2, t) * Pow(B, k))
  {
    if i == 0 {
      PrefixZero(r, k);
    } else {
      ShlPrefix(s, r, k, t, i - 1);
      var x := s[i - 1];
      HiIsShift(x, t);
      assert r[k + i - 1] == Pending(s, t, i - 1) + Lo(x, t);
      PowAdd(B, k, i - 1);
      ShlAlgebra(Prefix(r, k + i - 1), Pending(s, t, i - 1), Lo(x, t), Hi(x, t), Pow(B, k), Pow(B, i - 1), Prefix(s, i - 1), x, Pow(2, t));
    }
  }

  lemma ShlAlgebra(r: int, pending: int, lo: int, hi: int, bk: int, bi: int, s: int, x: int, p: int)
    requires x * p == hi * B + lo
    requires r + pending * (bk * bi) == s * (p * bk)
    ensures r + (pending + lo) * (bk * bi) + hi * (B * (bk * bi)) == (s + x * bi) * (p * bk)
  {
    var m := bk * bi;
    assert (s + x * bi) * (p * bk) == s * (p * bk) + (x * p) * m;
    assert (hi * B + lo) * m == hi * (B * m) + lo * m;
    assert (pending + lo) * m == pending * m + lo * m;
  }

  /** A left shift multiplies by 2^shift, modulo 2^BITS. */
  lemma ShlValue(s: seq<uint32>, r: seq<uint32>, shift: nat)
    requires |r| == |s|
    requires forall m :: 0 <= m < |r| ==> r[m] == ShlLimb(s, shift / 32, shift % 32, m)
    ensures Val(r) == (Val(s) * Pow(2, shift)) % Modulus(|s|)
  {
    hide Pow, Prefix, ShlLimb, Pending;
    var k, t, w := shift / 32, shift % 32, |s|;
    var p := Pow(2, t);
    ModulusIsPower(k);
    PowAdd(2, t, 32 * k);
    assert Pow(2, shift) == p * Pow(B, k);
    PrefixBound(r, w);
    var m := Modulus(w);
    if k <= w {
      var i := w - k;
      ShlPrefix(s, r, k, t, i);
      PrefixSplit(s, i, w);
      PowAdd(B, i, k);
      var rest := Prefix(s[i..], k);
      ShlTail(Val(r), Pending(s, t, i), Prefix(s, i), rest, Pow(B, i), Pow(B, k), p, m);
      DivModIs(Val(s) * Pow(2, shift), m, Pending(s, t, i) + rest * p, Val(r));
    } else {
      ShlAway(s, r, k, t);
      PowAdd(B, w, k - w);
      ShlVanishes(Val(s), p, m, Pow(B, k - w));
    }
  }

  lemma ShlAway(s: seq<uint32>, r: seq<uint32>, k: nat, t: nat)
    requires t < 32 && |r| == |s| < k
    requires forall m :: 0 <= m < |r| ==> r[m] == ShlLimb(s, k, t, m)
    ensures Val(r) == 0
  {
    PrefixZero(r, |r|);
  }

  lemma ShlVanishes(x: int, p: int, m: int, c: int)
    requires m > 0
    ensures (x * (p * (m * c))) % m == 0
  {
    assert x * (p * (m * c)) == (x * p * c) * m;
    DivModIs(x * (p * (m * c)), m, x * p * c, 0);
  }

  lemma ShlTail(r: int, pending: int, low: int, rest: int, bi: int, bk: int, p: int, m: int)
    requires m == bi * bk && r + pending * m == low * (p * bk)
    ensures (low + bi * rest) * (p * bk) == (pending + rest * p) * m + r
  {
    assert (bi * rest) * (p * bk) == (rest * p) * (bi * bk);
    MulDistrib(low, bi * rest, p * bk);
    MulDistrib(pending, rest * p, m);
  }

  // ----- Right shift -----

  /** `x << (32 - t)` keeps the low `t` bits of a limb, at its top. */
  lemma LowBits(x: uint32, t: nat)
    requires 0 < t < 32
    ensures Lo(x, 32 - t) == (x % Pow(2, t)) * Pow(2, 32 - t)
    ensures Lo(x, 32 - t) % Pow(2, 32 - t) == 0
    ensures x / Pow(2, t) < Pow(2, 32 - t)
  {
    hide Pow;
    LimbSplit(t);
    SplitLimb(x, Pow(2, t), Pow(2, 32 - t));
  }

  /** Limb `m` of `s` shifted right by 32k + t bits. */
  function ShrLimb(s: seq<uint32>, k: nat, t: nat, m: nat): nat
    requires t < 32
  {
    (if m + k < |s| then s[m + k] / Pow(2, t) else 0)
    + (if t != 0 && m + k + 1 < |s| then Lo(s[m + k + 1], 32 - t) else 0)
  }

  function Spill(s: seq<uint32>, k: nat, t: nat, i: nat): nat {
    if k + i < |s| then s[k + i] % Pow(2, t) else 0
  }

  lemma ShrStep(s: seq<uint32>, k: nat, t: nat, i: nat)
    requires t < 32 && k + i < |s|
    ensures ShrLimb(s, k, t, i) * Pow(2, t) + Spill(s, k, t, i) == s[k + i] + Spill(s, k, t, i + 1) * B
  {
    hide Pow, Lo;
    var x, y := s[k + i], if k + i + 1 < |s| then s[k + i + 1] else 0;
    SplitAt(x, t);
    if t == 0 {
      SplitAt(y, t);
      PowNone(2);
    } else {
      LowBits(y, t);
      SpillTimes(y, t);
      MulDistrib(x / Pow(2, t), Lo(y, 32 - t), Pow(2, t));
      NoSpill(t);
    }
  }

  lemma SplitAt(x: nat, t: nat)
    ensures Pow(2, t) > 0 && x == (x / Pow(2, t)) * Pow(2, t) + x % Pow(2, t)
  {
    hide Pow;
  }

  lemma NoSpill(t: nat)
    ensures 0 % Pow(2, t) == 0
  {
    hide Pow;
  }

  /** The low bits of the next limb, moved up and then counted in units of 2^t, are a whole limb. */
  lemma SpillTimes(y: uint32, t: nat)
    requires 0 < t < 32
    ensures Lo(y, 32 - t) * Pow(2, t) == (y % Pow(2, t)) * B
  {
    hide Pow, Lo;
    LowBits(y, t);
    LimbSplit(t);
    MulAssoc(y % Pow(2, t), Pow(2, 32 - t), Pow(2, t));
  }

  lemma {:induction false} ShrPrefix(s: seq<uint32>, r: seq<uint32>, k: nat, t: nat, i: nat)
    requires t < 32 && |r| == |s| && k + i <= |s|
    requires forall m :: 0 <= m < |r| ==> r[m] == ShrLimb(s, k, t, m)
    ensures Prefix(r, i) * Pow(2, t) + Spill(s, k, t, 0) == Prefix(s[k..], i) + Spill(s, k, t, i) * Pow(B, i)
  {
    if i > 0 {
      ShrPrefix(s, r, k, t, i - 1);
      ShrStep(s, k, t, i - 1);
      assert s[k..][i - 1] == s[k + i - 1];
      ShrAlgebra(Prefix(r, i - 1), r[i - 1], Pow(2, t), Prefix(s[k..], i - 1), s[k + i - 1],
        Spill(s, k, t, 0), Spill(s, k, t, i - 1), Spill(s, k, t, i), Pow(B, i - 1));
    }
  }

  lemma ShrAlgebra(r: int, y: int, p: int, s: int, x: int, spill: int, here: int, next: int, b: int)
    requires r * p + spill == s + here * b
    requires y * p + here == x + next * B
    ensures (r + y * b) * p + spill == (s + x * b) + next * (B * b)
  {
    assert (r + y * b) * p == r * p + (y * p) * b;
    assert (x + next * B - here) * b == x * b + next * (B * b) - here * b;
  }

  /** A right shift is the floor of the quotient by 2^shift. */
  lemma ShrValue(s: seq<uint32>, r: seq<uint32>, shift: nat)
    requires |r| == |s|
    requires forall m :: 0 <= m < |r| ==> r[m] == ShrLimb(s, shift / 32, shift % 32, m)
    ensures Val(r) == Val(s) / Pow(2, shift)
  {
    hide Pow, Prefix, ShrLimb;
    var k, t, w := shift / 32, shift % 32, |s|;
    var p := Pow(2, t);
    ModulusIsPower(k);
    PowAdd(2, 32 * k, t);
    assert Pow(2, shift) == Pow(B, k) * p;
    if k <= w {
      ShrPrefix(s, r, k, t, w - k);
      PrefixSplit(s, k, w);
      PrefixBound(s, k);
      ShrTop(s, r, k, t);
      var spill := Spill(s, k, t, 0);
      assert Spill(s, k, t, w - k) == 0;
      DivModIs(Val(s), Pow(B, k), Prefix(s[k..], w - k), Prefix(s, k));
      DivModIs(Prefix(s[k..], w - k), p, Val(r), spill);
      DivDiv(Val(s), Pow(B, k), p);
    } else {
      ShrAway(s, r, k, t);
      PrefixBound(s, w);
      PowMono(B, w, k);
      MulMono(1, p, Pow(B, k));
      DivModIs(Val(s), Pow(2, shift), 0, Val(s));
    }
  }

  lemma ShrAway(s: seq<uint32>, r: seq<uint32>, k: nat, t: nat)
    requires t < 32 && |r| == |s| < k
    requires forall m :: 0 <= m < |r| ==> r[m] == ShrLimb(s, k, t, m)
    ensures Val(r) == 0
  {
    PrefixZero(r, |r|);
  }

  lemma ShrTop(s: seq<uint32>, r: seq<uint32>, k: nat, t: nat)
    requires t < 32 && |r| == |s| && k <= |s|
    requires forall m :: 0 <= m < |r| ==> r[m] == ShrLimb(s, k, t, m)
    ensures Val(r) == Prefix(r, |s| - k)
  {
    var n := |s| - k;
    PrefixSplit(r, n, |s|);
    forall j | 0 <= j < |s| - n ensures r[n..][j] == 0 {
      assert r[n + j] == ShrLimb(s, k, t, n + j);
    }
    PrefixZero(r[n..], |s| - n);
  }
}
