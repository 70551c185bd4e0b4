/** Powers and division facts that the arithmetic modules share. */
module Powers {

  function Pow(b: nat, n: nat): (p: nat)
    ensures b > 0 ==> p > 0
  {
    if n == 0 then 1 else b * Pow(b, n - 1)
  }

  lemma PowNone(b: nat)
    ensures Pow(b, 0) == 1
  {
  }

  lemma PowNext(b: nat, n: nat)
    ensures Pow(b, n + 1) == b * Pow(b, n)
  {
  }

  lemma PowPositive(b: nat, n: nat)
    requires b > 0
    ensures Pow(b, n) >= 1
  {
  }

  lemma {:induction false} PowAdd(b: nat, m: nat, n: nat)
    ensures Pow(b, m + n) == Pow(b, m) * Pow(b, n)
  {
    if m > 0 {
      PowAdd(b, m - 1, n);
      MulAssoc(b, Pow(b, m - 1), Pow(b, n));
    }
  }

  lemma {:induction false} PowMul(b: nat, m: nat, n: nat)
    ensures Pow(Pow(b, m), n) == Pow(b, m * n)
  {
    if n > 0 {
      PowMul(b, m, n - 1);
      assert m * n == m + m * (n - 1);
      PowAdd(b, m, m * (n - 1));
    }
  }

  lemma {:induction false} PowMono(b: nat, m: nat, n: nat)
    requires b > 0 && m <= n
    ensures Pow(b, m) <= Pow(b, n)
  {
    if m < n {
      PowMono(b, m, n - 1);
      MulMono(1, b, Pow(b, n - 1));
    }
  }

  lemma PowStrict(m: nat, n: nat)
    requires m < n
    ensures 2 * Pow(2, m) <= Pow(2, n)
  {
    PowMono(2, m + 1, n);
  }

  lemma {:induction false} PowBase(a: nat, b: nat, n: nat)
    requires a <= b
    ensures Pow(a, n) <= Pow(b, n)
  {
    if n > 0 {
      PowBase(a, b, n - 1);
      MulMono(a, b, Pow(a, n - 1));
      MulMono(Pow(a, n - 1), Pow(b, n - 1), b);
    }
  }

  // ----- Products -----

  lemma MulAssoc(x: int, y: int, z: int)
    ensures x * (y * z) == (x * y) * z
  {
  }

  lemma MulDistrib(x: int, y: int, z: int)
    ensures (x + y) * z == x * z + y * z
  {
  }

  lemma MulMono(x: int, y: int, z: int)
    requires x <= y && 0 <= z
    ensures x * z <= y * z && z * x <= z * y
  {
    assert (y - x) * z >= 0;
  }

  // ----- Quotients -----

  lemma DivModIs(x: int, m: int, q: int, r: int)
    requires 0 <= r < m && x == q * m + r
    ensures x / m == q && x % m == r
  {
    var p := x / m - q;
    assert x == (x / m) * m + x % m;
    assert p * m == r - x % m by {
      MulDistrib(x / m, -q, m);
    }
    if p >= 1 {
      MulMono(1, p, m);
    } else if p <= -1 {
      MulMono(p, -1, m);
    }
  }

  lemma ModAddMultiple(x: int, m: int, k: int)
    requires m > 0
    ensures (x + k * m) % m == x % m && (x + k * m) / m == x / m + k
  {
    MulDistrib(x / m, k, m);
    DivModIs(x + k * m, m, x / m + k, x % m);
  }

  lemma DivMono(x: int, y: int, m: int)
    requires x <= y && m > 0
    ensures x / m <= y / m
  {
    if x / m > y / m {
      MulMono(y / m + 1, x / m, m);
      MulDistrib(y / m, 1, m);
    }
  }

  lemma SmallMod(x: int, m: int)
    requires 0 <= x < m
    ensures x % m == x
  {
    DivModIs(x, m, 0, x);
  }

  lemma DivDiv(x: nat, m: nat, n: nat)
    requires m > 0 && n > 0
    ensures m * n > 0 && x / m / n == x / (m * n)
  {
    MulMono(1, n, m);
    var q, r := x / m / n, (x / m) % n;
    assert x / m == q * n + r;
    assert x == (q * n + r) * m + x % m;
    MulDistrib(q * n, r, m);
    assert q * n * m == q * (m * n) by {
      MulAssoc(q, n, m);
    }
    MulMono(r, n - 1, m);
    MulDistrib(n, -1, m);
    DivModIs(x, m * n, q, r * m + x % m);
  }

  lemma FloorBelow(x: nat, p: nat, m: nat)
    requires p > 0 && x < m * p
    ensures x / p < m
  {
    if x / p >= m {
      MulMono(m, x / p, p);
    }
  }

  // ----- Bits -----

  /** The bitwise or of two numbers. */
  function Or(a: nat, b: nat): nat {
    if a == 0 && b == 0 then 0 else
    (if a % 2 == 1 || b % 2 == 1 then 1 else 0) + 2 * Or(a / 2, b / 2)
  }

  /** Numbers without common bits are put together by adding them. */
  lemma {:induction false} OrDisjoint(a: nat, b: nat, s: nat)
    requires a < Pow(2, s) && b % Pow(2, s) == 0
    ensures Or(a, b) == a + b && Or(b, a) == a + b
    decreases s
  {
    if s == 0 {
      OrZero(b);
    } else {
      var p := Pow(2, s - 1);
      var c := b / (2 * p);
      assert b == c * (2 * p);
      assert b == 2 * (c * p) by {
        MulAssoc(c, p, 2);
      }
      DivModIs(c * p, p, c, 0);
      OrDisjoint(a / 2, b / 2, s - 1);
    }
  }

  lemma {:induction false} OrZero(b: nat)
    ensures Or(0, b) == b && Or(b, 0) == b
  {
    if b != 0 {
      OrZero(b / 2);
    }
  }
}
