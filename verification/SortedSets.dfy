/** The ascending order in which a `std::set<int>` or a `std::map<int, _>` is walked. */
module SortedSets {

  predicate IsAscending(s: seq<int>) {
    forall i, j :: 0 <= i < j < |s| ==> s[i] < s[j]
  }

  lemma Inhabited(s: set<int>)
    requires s != {}
    ensures exists x :: x in s
  {
    if !exists x :: x in s {
      assert false;
    }
  }

  lemma SubsetSize<T>(a: set<T>, b: set<T>)
    requires a <= b
    ensures |a| <= |b|
  {
    assert a + (b - a) == b;
  }

  predicate IsLeast(x: int, s: set<int>) {
    x in s && forall y :: y in s ==> x <= y
  }

  lemma {:induction false} LeastExists(s: set<int>)
    requires s != {}
    ensures exists x :: IsLeast(x, s)
  {
    hide IsLeast;
    Inhabited(s);
    var x :| x in s;
    var rest := s - {x};
    if rest == {} {
      LeastWith(s, x, x);
    } else {
      LeastExists(rest);
      var z :| IsLeast(z, rest);
      LeastWith(s, x, z);
    }
  }

  lemma LeastWith(s: set<int>, x: int, z: int)
    requires x in s && (IsLeast(z, s - {x}) || (z == x && s - {x} == {}))
    ensures IsLeast(if z < x then z else x, s)
  {
    forall y | y in s ensures (if z < x then z else x) <= y {
      assert y == x || y in s - {x};
    }
  }

  function Least(s: set<int>): (x: int)
    requires s != {}
    ensures x in s && forall y :: y in s ==> x <= y
  {
    LeastExists(s);
    var x :| IsLeast(x, s);
    x
  }

  /** The elements of `s` in ascending order. */
  function Ascending(s: set<int>): (r: seq<int>)
    ensures |r| == |s| && IsAscending(r)
    ensures forall x :: x in r <==> x in s
  {
    if s == {} then [] else
    var x := Least(s);
    var rest := Ascending(s - {x});
    assert forall i :: 0 <= i < |rest| ==> rest[i] in s - {x};
    [x] + rest
  }

  /** The numbers below `n`. */
  ghost function Range(n: nat): (r: set<int>)
    ensures |r| == n && forall i :: i in r <==> 0 <= i < n
  {
    if n == 0 then {} else Range(n - 1) + {n - 1}
  }

  /** A set with different codes below `n` has at most `n` elements. */
  lemma {:induction false} Pigeonhole(ids: set<int>, code: map<int, int>, n: nat)
    requires forall id :: id in ids ==> id in code && 0 <= code[id] < n
    requires forall x, y :: x in ids && y in ids && x != y ==> code[x] != code[y]
    ensures |ids| <= n
  {
    if n == 0 {
      if ids != {} {
        Inhabited(ids);
        assert false;
      }
    } else if x :| x in ids && code[x] == n - 1 {
      Pigeonhole(ids - {x}, code, n - 1);
    } else {
      Pigeonhole(ids, code, n - 1);
    }
  }
}
