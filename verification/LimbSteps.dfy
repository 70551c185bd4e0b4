/** Single steps of the limb loops, as facts about numbers. */
module LimbSteps {
  import opened Powers
  import opened Limbs

  lemma PrefixNext(s: seq<uint32>, i: nat)
    requires i < |s|
    ensures Prefix(s, i + 1) == Prefix(s, i) + s[i] * Pow(B, i)
  {
  }

  lemma InRange(s: seq<uint32>)
    ensures Val(s) < Modulus(|s|)
  {
    PrefixBound(s, |s|);
  }

  lemma NothingYet(s: seq<uint32>)
    ensures Prefix(s, 0) == 0
  {
  }

  lemma LowLimbs(s: seq<uint32>)
    requires |s| >= 2 && forall j :: 2 <= j < |s| ==> s[j] == 0
    ensures Val(s) == s[0] + s[1] * B
  {
    PrefixSplit(s, 2, |s|);
    PrefixZero(s[2..], |s| - 2);
    PrefixNext(s, 1);
    PrefixNext(s, 0);
    assert Pow(B, 1) == B && Pow(B, 0) == 1;
  }

  // ----- Carries -----

  lemma CarrySplit(n: int, p: int)
    ensures (n % B) * p + (n / B) * (B * p) == n * p
  {
    var q, r := n / B, n % B;
    assert (q * B + r) * p == q * (B * p) + r * p;
  }

  lemma CarryStep(r: int, c: int, x: int, y: int, n: int, p: int, sx: int, sy: int)
    requires r + c * p == sx + sy && n == c + x + y
    ensures r + (n % B) * p + (n / B) * (B * p) == (sx + x * p) + (sy + y * p)
  {
    CarrySplit(n, p);
    assert (c + x + y) * p == c * p + x * p + y * p;
  }

  lemma CarryOut(p: int, x: int)
    requires x == B - 1
    ensures x * p == B * p - p
  {
  }

  lemma ScaleStep(r: int, c: int, x: int, b: int, n: int, p: int, sx: int)
    requires r + c * p == sx * b && n == c + b * x
    ensures r + (n % B) * p + (n / B) * (B * p) == (sx + x * p) * b
  {
    CarrySplit(n, p);
    assert (c + b * x) * p == c * p + b * (x * p);
    assert (sx + x * p) * b == sx * b + b * (x * p);
  }

  /** The first `i` limbs of `a` times `b` are in `r`, with `c` carried. */
  ghost predicate Scaled(a: seq<uint32>, r: seq<uint32>, c: nat, b: nat, i: nat)
    requires i <= |a| == |r|
  {
    Prefix(r, i) + c * Pow(B, i) == Prefix(a, i) * b
  }

  lemma ScaledNone(a: seq<uint32>, b: nat)
    ensures Scaled(a, a, 0, b, 0)
  {
  }

  lemma ScaledNext(a: seq<uint32>, r: seq<uint32>, c: nat, b: nat, i: nat)
    requires i < |a| == |r| && r[i] == a[i] && Scaled(a, r, c, b, i)
    ensures var n := c + b * a[i]; n >= 0 && Scaled(a, r[i := n % B], n / B, b, i + 1)
  {
    hide Pow, Prefix;
    MulMono(0, b, a[i]);
    var n := c + b * a[i];
    var r' := r[i := n % B];
    PrefixSame(r, r', i);
    PrefixNext(r', i);
    PrefixNext(a, i);
    ScaleStep(Prefix(r, i), c, a[i], b, n, Pow(B, i), Prefix(a, i));
    PowNext(B, i);
  }

  lemma ScaledAll(a: seq<uint32>, r: seq<uint32>, c: nat, b: nat)
    requires |a| == |r| && Scaled(a, r, c, b, |a|)
    ensures Val(r) == (Val(a) * b) % Modulus(|a|)
  {
    hide Pow, Prefix;
    PrefixBound(r, |r|);
    DivModIs(Val(a) * b, Pow(B, |a|), c, Val(r));
  }

  lemma ProductFits(x: uint32, y: uint32, c: nat, d: nat)
    requires c < B && d < B
    ensures c + d + x * y < B * B && (c + d + x * y) / B < B
  {
    MulMono(x, B - 1, y);
    MulMono(y, B - 1, B - 1);
  }

  lemma RowStep(v: int, c: int, old_: int, x: int, y: int, n: int, pj: int, pi: int, start: int, pre: int)
    requires v + c * (pj * pi) == start + x * pj * pre && n == c + old_ + x * y
    ensures v + (n % B - old_) * (pj * pi) + (n / B) * (B * (pj * pi)) == start + x * pj * (pre + y * pi)
  {
    var p := pj * pi;
    CarrySplit(n, p);
    assert (n % B - old_) * p == (n % B) * p - old_ * p;
    assert (c + old_ + x * y) * p == c * p + old_ * p + x * y * p;
    assert x * pj * (pre + y * pi) == x * pj * pre + x * y * (pj * pi);
  }

  lemma RowEnd(v: int, c: int, m: int, start: int, x: int, pj: int, pi: int, pre: int, rest: int)
    requires m == pj * pi && v + c * m == start + x * pj * pre
    ensures v + (c + x * rest) * m == start + x * pj * (pre + pi * rest)
  {
    assert (c + x * rest) * m == c * m + x * rest * m;
    assert x * pj * (pre + pi * rest) == x * pj * pre + x * rest * (pj * pi);
  }

  lemma RowsAdd(v: int, was: int, over: int, more: int, m: int, pre: int, t: int, b: int)
    requires v + more * m == was + t * b && was + over * m == pre * b
    ensures v + (over + more) * m == (pre + t) * b
  {
    MulDistrib(over, more, m);
    MulDistrib(pre, t, b);
  }

  /** Limbs from `i` on that agree count the same. */
  lemma {:induction false} PrefixTail(s: seq<uint32>, t: seq<uint32>, i: nat, n: nat)
    requires |s| == |t| && i <= n <= |s| && forall j :: i <= j < n ==> s[j] == t[j]
    ensures Prefix(s, n) - Prefix(s, i) == Prefix(t, n) - Prefix(t, i)
  {
    if i < n {
      PrefixTail(s, t, i, n - 1);
    }
  }

  /** A limb that overflows in ++ hands the carry on. */
  lemma IncrementCarry(was: seq<uint32>, now: seq<uint32>, start: seq<uint32>, i: nat)
    requires i < |was| && now == was[i := 0] && |start| == |was| && start[i] == was[i] == B - 1
    requires Prefix(was, i) + Pow(B, i) == Prefix(start, i) + 1
    ensures Prefix(now, i + 1) + Pow(B, i + 1) == Prefix(start, i + 1) + 1
  {
    hide Pow;
    PrefixSame(was, now, i);
    PowNext(B, i);
    CarryOut(Pow(B, i), start[i]);
  }

  /** A limb that does not overflow ends it. */
  lemma IncrementStop(was: seq<uint32>, now: seq<uint32>, start: seq<uint32>, i: nat)
    requires i < |was| && |start| == |was| && forall j :: i <= j < |was| ==> start[j] == was[j]
    requires was[i] < B - 1 && now == was[i := was[i] + 1]
    requires Prefix(was, i) + Pow(B, i) == Prefix(start, i) + 1
    ensures Val(now) == Val(start) + 1
  {
    hide Pow, Prefix;
    PrefixUpdate(was, i, was[i] + 1, |was|);
    PrefixTail(was, start, i, |was|);
  }

  lemma SubtractMod(x: int, y: int, m: int)
    requires 0 <= y < m
    ensures (x + (m - y) % m) % m == (x - y) % m
  {
    if y == 0 {
      DivModIs(m, m, 1, 0);
    } else {
      DivModIs(m - y, m, 0, m - y);
      ModAddMultiple(x - y, m, 1);
    }
  }

  // ----- Order -----

  lemma Smaller(s: seq<uint32>, t: seq<uint32>, i: nat)
    requires |s| == |t| && i < |s| && s[i] < t[i] && forall j :: i < j < |s| ==> s[j] == t[j]
    ensures Val(s) < Val(t)
  {
    PrefixTail(s, t, i + 1, |s|);
    PrefixBound(s, i);
    MulMono(s[i] + 1, t[i], Pow(B, i));
    MulDistrib(s[i], 1, Pow(B, i));
  }

  lemma {:induction false} PrefixGrows(s: seq<uint32>, i: nat, n: nat)
    requires i <= n <= |s|
    ensures Prefix(s, i) <= Prefix(s, n)
  {
    if i < n {
      PrefixGrows(s, i, n - 1);
      MulMono(0, s[n - 1], Pow(B, n - 1));
    }
  }

  lemma TooLarge(s: seq<uint32>, i: nat)
    requires 2 <= i < |s| && s[i] != 0
    ensures Val(s) >= B * B
  {
    PrefixGrows(s, i + 1, |s|);
    MulMono(1, s[i], Pow(B, i));
    PowMono(B, 2, i);
    assert Pow(B, 1) == B;
  }

  // ----- Bits of a limb -----

  lemma LimbBound(x: uint32)
    ensures x < Pow(2, 32)
  {
    BaseIsPower();
  }

  lemma BitTest(x: nat, n: nat)
    requires x < Pow(2, n + 1)
    ensures (x / Pow(2, n)) % 2 == 1 <==> Pow(2, n) <= x
  {
    var p := Pow(2, n);
    assert Pow(2, n + 1) == 2 * p;
    if x < p {
      DivModIs(x, p, 0, x);
    } else {
      DivModIs(x, p, 1, x - p);
    }
  }

  /** The highest nonzero limb and its highest bit give the size of the number. */
  lemma TopBit(s: seq<uint32>, pos: nat, nbits: nat)
    requires pos < |s| && forall j :: pos < j < |s| ==> s[j] == 0
    requires Pow(2, nbits) <= s[pos] < Pow(2, nbits + 1)
    ensures Pow(2, 32 * pos + nbits) <= Val(s) < Pow(2, 32 * pos + nbits + 1)
  {
    hide Pow;
    PrefixSplit(s, pos + 1, |s|);
    PrefixZero(s[pos + 1..], |s| - pos - 1);
    PrefixNext(s, pos);
    PrefixBound(s, pos);
    ModulusIsPower(pos);
    var p := Pow(B, pos);
    PowAdd(2, nbits, 32 * pos);
    PowAdd(2, nbits + 1, 32 * pos);
    var x: int := s[pos];
    MulMono(Pow(2, nbits), x, p);
    MulMono(x + 1, Pow(2, nbits + 1), p);
    MulDistrib(x, 1, p);
  }

  lemma NoShift(x: uint32, t: nat)
    requires t == 0
    ensures Hi(x, t) == 0
  {
    assert Pow(2, 0) == 1;
  }

  /** Limbs below the shift distance are zero, and nothing is pending at the start. */
  lemma ShlStart(s: seq<uint32>, k: nat, t: nat)
    requires t < 32
    ensures Pending(s, t, 0) == 0 && forall m: nat :: m < k ==> ShlLimb(s, k, t, m) == 0
  {
  }

  /** A limb is finished by adding what the limb below handed up to what it keeps. */
  lemma ShlNext(s: seq<uint32>, k: nat, t: nat, i: nat)
    requires t < 32 && i < |s|
    ensures ShlLimb(s, k, t, i + k) == Pending(s, t, i) + Lo(s[i], t)
    ensures Pending(s, t, i + 1) == Hi(s[i], t) && (t == 0 ==> Hi(s[i], t) == 0)
  {
    if t == 0 {
      NoShift(s[i], t);
    }
    if i > 0 {
      assert i + k - k - 1 == i - 1;
    }
  }

  lemma Shifted(x: uint32, t: nat)
    ensures 0 <= x / Pow(2, t) <= x
  {
    hide Pow;
    PowPositive(2, t);
    QuotientLess(x, Pow(2, t));
  }

  lemma QuotientLess(x: nat, p: nat)
    requires p >= 1
    ensures x / p <= x
  {
    MulMono(1, p, x / p);
  }

  /** A multiple of `p` below a multiple of `p` leaves room for `p`. */
  lemma Room(x: nat, m: nat, p: nat)
    requires p > 0 && x % p == 0 && m % p == 0 && x < m
    ensures x + p <= m
  {
    var a, b := x / p, m / p;
    assert x == a * p && m == b * p;
    if a >= b {
      MulMono(b, a, p);
    }
    MulMono(a + 1, b, p);
    MulDistrib(a, 1, p);
  }

  lemma PendingBound(s: seq<uint32>, t: nat, i: nat)
    requires t < 32 && i < |s|
    ensures Pending(s, t, i) < Pow(2, t) && Pending(s, t, i) + Lo(s[i], t) < B
  {
    if i > 0 {
      HiIsShift(s[i - 1], t);
    }
    HiIsShift(s[i], t);
    LimbSplit(t);
    DivModIs(B, Pow(2, t), Pow(2, 32 - t), 0);
    Room(Lo(s[i], t), B, Pow(2, t));
  }

  lemma ShrSum(x: uint32, y: uint32, t: nat)
    requires 0 < t < 32
    ensures x / Pow(2, t) < Pow(2, 32 - t) && x / Pow(2, t) + Lo(y, 32 - t) < B
  {
    LowBits(x, t);
    LowBits(y, t);
    LimbSplit(t);
    DivModIs(B, Pow(2, 32 - t), Pow(2, t), 0);
    Room(Lo(y, 32 - t), B, Pow(2, 32 - t));
  }

  // ----- Clear low bits -----

  /** How many of the lowest `n` bits of a number fall into limb `j`. */
  function BitsIn(j: nat, n: nat): (k: nat)
    ensures k <= 32
  {
    if n <= 32 * j then 0 else if n >= 32 * j + 32 then 32 else n - 32 * j
  }

  /** The lowest `n` bits are zero. */
  ghost predicate Clean(s: seq<uint32>, n: nat) {
    forall j :: 0 <= j < |s| ==> s[j] % Pow(2, BitsIn(j, n)) == 0
  }

  lemma AllClean(s: seq<uint32>, n: nat)
    requires forall j :: 0 <= j < |s| ==> s[j] == 0
    ensures Clean(s, n)
  {
    hide Pow;
    forall j | 0 <= j < |s| ensures s[j] % Pow(2, BitsIn(j, n)) == 0 {
      PowPositive(2, BitsIn(j, n));
      SmallMod(0, Pow(2, BitsIn(j, n)));
    }
  }

  lemma ModLess(x: nat, m: nat, n: nat)
    requires m <= n && x % Pow(2, n) == 0
    ensures x % Pow(2, m) == 0
  {
    hide Pow;
    PowPositive(2, n);
    PowPositive(2, m);
    PowAdd(2, n - m, m);
    var q := x / Pow(2, n);
    assert x == q * Pow(2, n);
    MulAssoc(q, Pow(2, n - m), Pow(2, m));
    DivModIs(x, Pow(2, m), q * Pow(2, n - m), 0);
  }

  lemma CleanLess(s: seq<uint32>, n: nat)
    requires Clean(s, n + 1)
    ensures Clean(s, n)
  {
    hide Pow;
    forall j | 0 <= j < |s| ensures s[j] % Pow(2, BitsIn(j, n)) == 0 {
      ModLess(s[j], BitsIn(j, n), BitsIn(j, n + 1));
    }
  }

  /** Setting bit `n` of a number whose bits up to `n` are clear adds 2^n. */
  lemma BitFits(s: seq<uint32>, n: nat)
    requires n < 32 * |s| && Clean(s, n + 1)
    ensures var q, r := n / 32, n % 32;
      Or(s[q], Pow(2, r)) == s[q] + Pow(2, r) < B
  {
    hide Or, Pow;
    var q, r := n / 32, n % 32;
    assert BitsIn(q, n + 1) == r + 1;
    PowPositive(2, r);
    PowStrict(r, r + 1);
    OrDisjoint(Pow(2, r), s[q], r + 1);
    LimbSplit(r + 1);
    PowPositive(2, r + 1);
    DivModIs(B, Pow(2, r + 1), Pow(2, 32 - (r + 1)), 0);
    Room(s[q], B, Pow(2, r + 1));
  }

  lemma BitValue(n: nat)
    ensures Pow(2, n % 32) * Pow(B, n / 32) == Pow(2, n)
  {
    hide Pow;
    ModulusIsPower(n / 32);
    PowAdd(2, n % 32, 32 * (n / 32));
  }

  lemma BitCleans(s: seq<uint32>, t: seq<uint32>, n: nat)
    requires |t| == |s| && n < 32 * |s| && Clean(s, n + 1)
    requires t[n / 32] == s[n / 32] + Pow(2, n % 32) && forall j :: 0 <= j < |s| && j != n / 32 ==> t[j] == s[j]
    ensures Clean(t, n)
  {
    hide Pow;
    var q, r := n / 32, n % 32;
    CleanLess(s, n);
    assert BitsIn(q, n) == r;
    PowPositive(2, r);
    ModAddMultiple(s[q], Pow(2, r), 1);
    forall j | 0 <= j < |t| ensures t[j] % Pow(2, BitsIn(j, n)) == 0 {
      if j == q {
        assert s[q] % Pow(2, BitsIn(q, n)) == 0;
      }
    }
  }

  // ----- Division -----

  lemma DoublePower(d: int, n: nat)
    ensures d * Pow(2, n + 1) == 2 * (d * Pow(2, n))
  {
  }

  /** Long division with `k` bits of the quotient to go. */
  ghost predicate Remains(num: nat, quo: nat, d: nat, n: nat, k: nat) {
    num + quo * d == n && num < d * Pow(2, k)
  }

  lemma RemainsFirst(n: nat, d: nat, k: nat)
    requires n < d * Pow(2, k)
    ensures Remains(n, 0, d, n, k)
  {
  }

  lemma RemainsLast(num: nat, quo: nat, d: nat, n: nat)
    requires d > 0 && Remains(num, quo, d, n, 0)
    ensures n / d == quo
  {
    PowNone(2);
    DivModIs(n, d, quo, num);
  }

  lemma QuotientStep(num: int, quo: int, d: int, p: int, n: int)
    requires num + quo * d == n
    ensures num - d * p + (quo + p) * d == n
  {
    MulDistrib(quo, p, d);
  }

  lemma HalfPower(d: nat, n: nat)
    ensures n >= 1 ==> (d * Pow(2, n)) / Pow(2, 1) == d * Pow(2, n - 1)
  {
    assert Pow(2, 1) == 2;
    if n >= 1 {
      DoublePower(d, n - 1);
    }
  }

  /** Shifted until its top bit is the dividend's, the divisor still fits. */
  lemma Aligned(n: nat, d: nat, numBits: nat, divBits: nat, w: nat)
    requires 1 <= divBits <= numBits <= 32 * w
    requires n < Pow(2, numBits) && Pow(2, divBits - 1) <= d < Pow(2, divBits)
    ensures var shift := numBits - divBits;
      d * Pow(2, shift) < Modulus(w) && n < d * Pow(2, shift + 1)
  {
    hide Pow;
    var shift := numBits - divBits;
    ModulusIsPower(w);
    PowAdd(2, divBits, shift);
    PowMono(2, numBits, 32 * w);
    PowPositive(2, shift);
    MulMono(d + 1, Pow(2, divBits), Pow(2, shift));
    MulDistrib(d, 1, Pow(2, shift));
    PowAdd(2, divBits - 1, shift + 1);
    MulMono(Pow(2, divBits - 1), d, Pow(2, shift + 1));
  }
}
