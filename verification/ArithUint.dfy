/** The fixed-width unsigned integers of src/arith_uint256.h and src/arith_uint256.cpp: an array
    of 32-bit limbs that the operators rewrite in place. Every width is covered. */
module ArithUint {
  import opened Powers
  import opened Limbs
  import opened LimbSteps

  class BaseUint {
    const pn: array<uint32>

    /** The number the limbs stand for. */
    ghost function V(): nat
      reads pn
    {
      Val(pn[..])
    }

    ghost function M(): (m: nat)
      ensures m > 0
    {
      Modulus(pn.Length)
    }

    constructor (width: nat)
      ensures fresh(pn) && pn.Length == width && V() == 0
    {
      pn := new uint32[width](_ => 0);
      new;
      PrefixZero(pn[..], width);
    }

    constructor Copy(b: BaseUint)
      ensures fresh(pn) && pn.Length == b.pn.Length && pn[..] == b.pn[..]
    {
      pn := new uint32[b.pn.Length];
      new;
      for i := 0 to pn.Length
        invariant forall j :: 0 <= j < i ==> pn[j] == b.pn[j]
        invariant b.pn[..] == old(b.pn[..])
      {
        pn[i] := b.pn[i];
      }
    }

    method Clear()
      modifies pn
      ensures V() == 0 && forall j :: 0 <= j < pn.Length ==> pn[j] == 0
    {
      for i := 0 to pn.Length
        invariant forall j :: 0 <= j < i ==> pn[j] == 0
      {
        pn[i] := 0;
      }
      PrefixZero(pn[..], pn.Length);
    }

    /** Assignment from a 64-bit number. */
    method Set(b: uint64)
      requires pn.Length >= 2
      modifies pn
      ensures V() == b
    {
      pn[0] := b % B;
      pn[1] := b / B;
      for i := 2 to pn.Length
        invariant pn[0] == b % B && pn[1] == b / B
        invariant forall j :: 2 <= j < i ==> pn[j] == 0
      {
        pn[i] := 0;
      }
      LowLimbs(pn[..]);
    }

    // ----- Addition -----

    method Add(b: BaseUint)
      requires b.pn.Length == pn.Length
      modifies pn
      ensures V() == (old(V()) + old(b.V())) % M()
    {
      hide Pow;
      var carry: uint64 := 0;
      for i := 0 to pn.Length
        invariant carry <= 1
        invariant forall j :: i <= j < pn.Length ==> pn[j] == old(pn[j])
        invariant b.pn != pn ==> b.pn[..] == old(b.pn[..])
        invariant Prefix(pn[..], i) + carry * Pow(B, i) == Prefix(old(pn[..]), i) + Prefix(old(b.pn[..]), i)
      {
        var n: uint64 := carry + pn[i] + b.pn[i];
        ghost var was, step := pn[..], carry;
        pn[i] := n % B;
        carry := n / B;
        PrefixSame(was, pn[..], i);
        CarryStep(Prefix(was, i), step, old(pn[i]), old(b.pn[i]), n, Pow(B, i), Prefix(old(pn[..]), i), Prefix(old(b.pn[..]), i));
        PowNext(B, i);
      }
      PrefixBound(pn[..], pn.Length);
      DivModIs(old(V()) + old(b.V()), M(), carry, V());
    }

    method Complement() returns (r: BaseUint)
      ensures fresh(r) && fresh(r.pn) && r.pn.Length == pn.Length
      ensures r.V() == M() - 1 - V()
    {
      r := new BaseUint(pn.Length);
      for i := 0 to pn.Length
        invariant pn[..] == old(pn[..])
        invariant forall j :: 0 <= j < i ==> r.pn[j] == B - 1 - pn[j]
      {
        r.pn[i] := B - 1 - pn[i];
      }
      ComplementValue(pn[..], r.pn[..], pn.Length);
    }

    /** The prefix operator ++. */
    method Increment()
      modifies pn
      ensures V() == (old(V()) + 1) % M()
    {
      hide Pow, Prefix;
      var i := 0;
      var more := true;
      PowNone(2);
      PowNone(B);
      NothingYet(pn[..]);
      NothingYet(old(pn[..]));
      while i < pn.Length && more
        invariant 0 <= i <= pn.Length
        invariant forall j :: i <= j < pn.Length ==> more ==> pn[j] == old(pn[j])
        invariant more ==> Prefix(pn[..], i) + Pow(B, i) == Prefix(old(pn[..]), i) + 1
        invariant !more ==> V() == old(V()) + 1
        decreases pn.Length - i, more
      {
        ghost var was := pn[..];
        pn[i] := (pn[i] + 1) % B;
        assert pn[..] == was[i := pn[i]];
        if pn[i] == 0 {
          IncrementCarry(was, pn[..], old(pn[..]), i);
          i := i + 1;
        } else {
          IncrementStop(was, pn[..], old(pn[..]), i);
          more := false;
        }
      }
      InRange(pn[..]);
      if more {
        DivModIs(old(V()) + 1, M(), 1, V());
      } else {
        DivModIs(old(V()) + 1, M(), 0, V());
      }
    }

    /** Unary minus. */
    method Negate() returns (r: BaseUint)
      ensures fresh(r) && fresh(r.pn) && r.pn.Length == pn.Length
      ensures r.V() == (M() - V()) % M()
    {
      r := Complement();
      r.Increment();
    }

    method Subtract(b: BaseUint)
      requires b.pn.Length == pn.Length
      modifies pn
      ensures V() == (old(V()) - old(b.V())) % M()
    {
      hide Prefix, Modulus;
      var minus := b.Negate();
      ghost var y := b.V();
      InRange(b.pn[..]);
      Add(minus);
      SubtractMod(old(V()), y, M());
    }

    // ----- Comparison -----

    method CompareTo(b: BaseUint) returns (r: int)
      requires b.pn.Length == pn.Length
      ensures r == if V() < b.V() then -1 else if V() > b.V() then 1 else 0
    {
      var i := pn.Length - 1;
      while i >= 0
        invariant -1 <= i < pn.Length
        invariant forall j :: i < j < pn.Length ==> pn[j] == b.pn[j]
      {
        if pn[i] < b.pn[i] {
          Smaller(pn[..], b.pn[..], i);
          return -1;
        }
        if pn[i] > b.pn[i] {
          Smaller(b.pn[..], pn[..], i);
          return 1;
        }
        i := i - 1;
      }
      PrefixSame(pn[..], b.pn[..], pn.Length);
      r := 0;
    }

    method EqualTo(b: uint64) returns (r: bool)
      requires pn.Length >= 2
      ensures r <==> V() == b
    {
      ghost var s := pn[..];
      var i := pn.Length - 1;
      while i >= 2
        invariant 1 <= i < pn.Length
        invariant forall j :: i < j < pn.Length ==> pn[j] == 0
      {
        if pn[i] != 0 {
          TooLarge(s, i);
          return false;
        }
        i := i - 1;
      }
      LowLimbs(s);
      DivModIs(V(), B, pn[1], pn[0]);
      r := pn[1] == b / B && pn[0] == b % B;
    }

    /** The position of the highest bit set plus one, or zero. */
    method Bits() returns (r: nat)
      ensures r <= 32 * pn.Length
      ensures V() < Pow(2, r) && (r > 0 ==> Pow(2, r - 1) <= V())
    {
      hide Pow, Prefix;
      ghost var s := pn[..];
      PowNone(2);
      PowNone(B);
      var pos := pn.Length - 1;
      while pos >= 0
        invariant -1 <= pos < pn.Length
        invariant forall j :: pos < j < pn.Length ==> pn[j] == 0
      {
        if pn[pos] != 0 {
          var nbits := 31;
          LimbBound(pn[pos]);
          while nbits > 0
            invariant 0 <= nbits <= 31
            invariant pn[pos] < Pow(2, nbits + 1)
          {
            BitTest(pn[pos], nbits);
            if (pn[pos] / Pow(2, nbits)) % 2 == 1 {
              TopBit(s, pos, nbits);
              return 32 * pos + nbits + 1;
            }
            nbits := nbits - 1;
          }
          assert Pow(2, 0) <= s[pos] < Pow(2, 0 + 1);
          TopBit(s, pos, 0);
          return 32 * pos + 1;
        }
        pos := pos - 1;
      }
      PrefixZero(s, |s|);
      r := 0;
    }

    // ----- Shifts -----

    method ShiftLeft(shift: nat)
      modifies pn
      ensures V() == (old(V()) * Pow(2, shift)) % M()
    {
      hide Or, Pow, Hi, Lo, ShlLimb, Pending, Prefix, Modulus;
      var a := pn[..];
      Clear();
      var k, t := shift / 32, shift % 32;
      ShlStart(a, k, t);
      for i := 0 to pn.Length
        invariant forall m :: 0 <= m < pn.Length && m < i + k ==> pn[m] == ShlLimb(a, k, t, m)
        invariant i + k < pn.Length ==> pn[i + k] == Pending(a, t, i)
        invariant forall m :: i + k < m < pn.Length ==> pn[m] == 0
      {
        HiIsShift(a[i], t);
        ShlNext(a, k, t, i);
        if i + k + 1 < pn.Length && t != 0 {
          OrZero(a[i] / Pow(2, 32 - t));
          Shifted(a[i], 32 - t);
          pn[i + k + 1] := Or(pn[i + k + 1], a[i] / Pow(2, 32 - t));
        }
        if i + k < pn.Length {
          PendingBound(a, t, i);
          OrDisjoint(pn[i + k], Lo(a[i], t), t);
          pn[i + k] := Or(pn[i + k], Lo(a[i], t));
        }
      }
      ShlValue(a, pn[..], shift);
    }

    method ShiftRight(shift: nat)
      modifies pn
      ensures V() == old(V()) / Pow(2, shift)
    {
      hide Or, Pow, Hi, Lo;
      var a := pn[..];
      Clear();
      var k, t := shift / 32, shift % 32;
      for i := 0 to pn.Length
        invariant forall m :: 0 <= m < pn.Length && m + k + 1 < i ==> pn[m] == ShrLimb(a, k, t, m)
        invariant i - k - 1 >= 0 ==> pn[i - k - 1] == a[i - 1] / Pow(2, t)
        invariant forall m :: 0 <= m < pn.Length && m > i - k - 1 ==> pn[m] == 0
      {
        if i - k - 1 >= 0 && t != 0 {
          LowBits(a[i], t);
          ShrSum(a[i - 1], a[i], t);
          OrDisjoint(pn[i - k - 1], Lo(a[i], 32 - t), 32 - t);
          pn[i - k - 1] := Or(pn[i - k - 1], Lo(a[i], 32 - t));
        }
        if i - k >= 0 {
          Shifted(a[i], t);
          OrZero(a[i] / Pow(2, t));
          pn[i - k] := Or(pn[i - k], a[i] / Pow(2, t));
        }
      }
      ShrValue(a, pn[..], shift);
    }

    // ----- Products -----

    method MultiplySmall(b32: uint32)
      modifies pn
      ensures V() == (old(V()) * b32) % M()
    {
      hide Pow, Prefix, Modulus, Scaled;
      ghost var a := pn[..];
      var carry: uint64 := 0;
      ScaledNone(a, b32);
      for i := 0 to pn.Length
        invariant carry < B
        invariant forall j :: i <= j < pn.Length ==> pn[j] == a[j]
        invariant Scaled(a, pn[..], carry, b32, i)
      {
        ProductFits(b32, pn[i], carry, 0);
        var n: uint64 := carry + b32 * pn[i];
        ScaledNext(a, pn[..], carry, b32, i);
        pn[i] := n % B;
        carry := n / B;
      }
      ScaledAll(a, pn[..], carry, b32);
    }

    /** One row of the long multiplication: `a` += pn[j] * b * B^j, cut off at the width. */
    static method Row(a: array<uint32>, x: uint32, b: array<uint32>, j: nat)
      requires a != b && a.Length == b.Length && j < a.Length
      modifies a
      ensures exists over: int :: Val(a[..]) + over * Modulus(a.Length) == Val(old(a[..])) + x * Pow(B, j) * Val(b[..])
    {
      hide Pow, Prefix;
      var carry: uint64 := 0;
      var i := 0;
      NothingYet(b[..]);
      while i + j < a.Length
        invariant 0 <= i && i + j <= a.Length
        invariant carry < B
        invariant Val(a[..]) + carry * Pow(B, i + j) == Val(old(a[..])) + x * Pow(B, j) * Prefix(b[..], i)
      {
        ProductFits(x, b[i], carry, a[i + j]);
        var n: uint64 := carry + a[i + j] + x * b[i];
        ghost var was, step := a[..], carry;
        a[i + j] := n % B;
        carry := n / B;
        assert a[..] == was[i + j := a[i + j]];
        PrefixUpdate(was, i + j, a[i + j], |was|);
        PrefixNext(b[..], i);
        PowAdd(B, j, i);
        PowNext(B, i + j);
        RowStep(Val(was), step, was[i + j], x, b[i], n, Pow(B, j), Pow(B, i), Val(old(a[..])), Prefix(b[..], i));
        i := i + 1;
      }
      PrefixSplit(b[..], i, b.Length);
      PowAdd(B, j, i);
      RowEnd(Val(a[..]), carry, Modulus(a.Length), Val(old(a[..])), x, Pow(B, j), Pow(B, i), Prefix(b[..], i), Prefix(b[..][i..], j));
    }

    method Multiply(b: BaseUint)
      requires b.pn.Length == pn.Length
      modifies pn
      ensures V() == (old(V()) * old(b.V())) % M()
    {
      hide Pow;
      var a := new uint32[pn.Length](_ => 0);
      PrefixZero(a[..], a.Length);
      ghost var over: int := 0;
      for j := 0 to pn.Length
        invariant pn[..] == old(pn[..]) && b.pn[..] == old(b.pn[..])
        invariant Val(a[..]) + over * M() == Prefix(pn[..], j) * b.V()
      {
        ghost var was := Val(a[..]);
        Row(a, pn[j], b.pn, j);
        ghost var more: int :| Val(a[..]) + more * M() == was + pn[j] * Pow(B, j) * b.V();
        RowsAdd(Val(a[..]), was, over, more, M(), Prefix(pn[..], j), pn[j] * Pow(B, j), b.V());
        over := over + more;
      }
      PrefixBound(a[..], a.Length);
      DivModIs(old(V()) * old(b.V()), M(), over, Val(a[..]));
      ghost var result := a[..];
      forall i | 0 <= i < pn.Length {
        pn[i] := a[i];
      }
      assert pn[..] == result;
    }

    // ----- Quotients -----

    /** Sets bit `shift` of a number whose bits up to `shift` are clear. */
    method SetBit(shift: nat)
      requires shift < 32 * pn.Length && Clean(pn[..], shift + 1)
      modifies pn
      ensures V() == old(V()) + Pow(2, shift) && Clean(pn[..], shift)
    {
      hide Or, Pow, Clean;
      var q, r := shift / 32, shift % 32;
      ghost var was := pn[..];
      BitFits(was, shift);
      pn[q] := Or(pn[q], Pow(2, r));
      assert pn[..] == was[q := pn[q]];
      PrefixUpdate(was, q, pn[q], pn.Length);
      BitValue(shift);
      BitCleans(was, pn[..], shift);
    }

    /** One round of the division: bit `shift` of the quotient is decided. */
    method QuotientBit(num: BaseUint, div: BaseUint, shift: nat, ghost n: nat, ghost d: nat)
      requires num.pn != div.pn && num.pn != pn && div.pn != pn
      requires num.pn.Length == pn.Length && div.pn.Length == pn.Length && shift < 32 * pn.Length
      requires div.V() == d * Pow(2, shift)
      requires Remains(num.V(), V(), d, n, shift + 1)
      requires Clean(pn[..], shift + 1)
      modifies pn, num.pn, div.pn
      ensures shift >= 1 ==> div.V() == d * Pow(2, shift - 1)
      ensures Remains(num.V(), V(), d, n, shift)
      ensures Clean(pn[..], shift)
    {
      hide Pow, Clean, Prefix, Modulus;
      var order := num.CompareTo(div);
      DoublePower(d, shift);
      if order >= 0 {
        InRange(num.pn[..]);
        SmallMod(num.V() - div.V(), num.M());
        num.Subtract(div);
        SetBit(shift);
        QuotientStep(old(num.V()), old(V()), d, Pow(2, shift), n);
      } else {
        CleanLess(pn[..], shift);
      }
      div.ShiftRight(1);
      HalfPower(d, shift);
    }

    /** Division by shifting and subtracting. A zero divisor throws, and the number is zero then. */
    method Divide(b: BaseUint) returns (thrown: bool)
      requires b.pn.Length == pn.Length
      modifies pn
      ensures thrown <==> old(b.V()) == 0
      ensures V() == if thrown then 0 else old(V()) / old(b.V())
    {
      hide Pow, Clean, Prefix, Modulus, Remains;
      var div := new BaseUint.Copy(b);
      var num := new BaseUint.Copy(this);
      ghost var n, d := num.V(), div.V();
      Clear();
      var numBits := num.Bits();
      var divBits := div.Bits();
      PowNone(2);
      PowNone(B);
      if divBits == 0 {
        return true;
      }
      PowPositive(2, divBits - 1);
      thrown := false;
      if divBits > numBits {
        PowMono(2, numBits, divBits - 1);
        DivModIs(n, d, 0, n);
        return;
      }
      var shift := numBits - divBits;
      Aligned(n, d, numBits, divBits, pn.Length);
      SmallMod(d * Pow(2, shift), div.M());
      div.ShiftLeft(shift);
      AllClean(pn[..], shift + 1);
      RemainsFirst(n, d, shift + 1);
      while shift >= 0
        invariant -1 <= shift < 32 * pn.Length
        invariant shift >= 0 ==> div.V() == d * Pow(2, shift)
        invariant Remains(num.V(), V(), d, n, shift + 1)
        invariant Clean(pn[..], shift + 1)
        invariant fresh(num.pn) && fresh(div.pn) && num.pn != div.pn && num.pn != pn && div.pn != pn
        invariant num.pn.Length == pn.Length && div.pn.Length == pn.Length
      {
        QuotientBit(num, div, shift, n, d);
        shift := shift - 1;
      }
      RemainsLast(num.V(), V(), d, n);
    }
  }
}
