/** The cuckoo cache (src/cuckoocache.h): a table with eight places per element, garbage
    collection flags packed into bytes, and two epochs of entries. */
module CuckooCache {
  import opened Powers

  /** Elements; 0 is the value-initialised one that fills a new table. */
  type Element = nat

  const NO_ELEMENT: Element := 0

  /** The eight hashes of an element, each of 32 bits. */
  type Hasher = (Element, nat) -> nat

  ghost predicate HashesFit(h: Hasher) {
    forall e, k :: h(e, k) < 0x1_0000_0000
  }

  // ----- Locations -----

  /** One of the places of an element: its hash taken as a fraction of the table. */
  function Location(h: Hasher, size: nat, e: Element, k: nat): nat {
    h(e, k) * size / 0x1_0000_0000
  }

  lemma LocationInRange(h: Hasher, size: nat, e: Element, k: nat)
    requires HashesFit(h) && size > 0
    ensures Location(h, size, e, k) < size
  {
    assert h(e, k) * size <= (0x1_0000_0000 - 1) * size;
  }

  function Locations(h: Hasher, size: nat, e: Element): (locs: seq<nat>)
    ensures |locs| == 8
  {
    seq(8, k requires 0 <= k < 8 => Location(h, size, e, k))
  }

  ghost predicate IsPlace(h: Hasher, size: nat, e: Element, i: nat) {
    i in Locations(h, size, e)
  }

  /** Hash `x`, read as a fraction of 2^32, falls into slot `i` of `size` equal ones. */
  predicate FallsInto(x: nat, size: nat, i: nat) {
    i * 0x1_0000_0000 <= x * size < (i + 1) * 0x1_0000_0000
  }

  /** The places of an element are the slots that its eight hashes fall into. */
  lemma PlacesAre(h: Hasher, size: nat, e: Element, i: nat)
    ensures IsPlace(h, size, e, i) <==> exists k: nat :: k < 8 && FallsInto(h(e, k), size, i)
  {
    hide FallsInto;
    forall k: nat | k < 8 ensures Locations(h, size, e)[k] == i <==> FallsInto(h(e, k), size, i) {
      SlotOfHash(h(e, k), size, i);
    }
    if IsPlace(h, size, e, i) {
      var k: nat :| k < 8 && Locations(h, size, e)[k] == i;
      assert FallsInto(h(e, k), size, i);
    }
    if k: nat :| k < 8 && FallsInto(h(e, k), size, i) {
      assert Locations(h, size, e)[k] == i;
    }
  }

  lemma SlotOfHash(x: nat, size: nat, i: nat)
    ensures x * size / 0x1_0000_0000 == i <==> FallsInto(x, size, i)
  {
    if FallsInto(x, size, i) {
      DivModIs(x * size, 0x1_0000_0000, i, x * size - i * 0x1_0000_0000);
    }
  }

  /** Larger hashes fall into the same or later slots. */
  lemma LaterSlots(x: nat, y: nat, size: nat, i: nat, j: nat)
    requires x <= y && FallsInto(x, size, i) && FallsInto(y, size, j)
    ensures i <= j
  {
    MulMono(x, y, size);
  }

  /** Some 32-bit hash falls into every slot of a table with up to 2^32 slots. */
  lemma EverySlotReached(size: nat, i: nat)
    requires i < size <= 0x1_0000_0000
    ensures exists x: nat :: x < 0x1_0000_0000 && FallsInto(x, size, i)
  {
    var n := i * 0x1_0000_0000 + size - 1;
    var x := n / size;
    assert n == x * size + n % size;
    assert FallsInto(x, size, i);
    if x >= 0x1_0000_0000 {
      MulMono(0x1_0000_0000, x, size);
      assert false;
    }
  }

  // ----- Flags -----

  function Bit(k: nat): bv8
    requires k < 8
  {
    (1 as bv8) << k
  }

  predicate Test(x: bv8, b: bv8) {
    x & b != 0
  }

  function Put(x: bv8, b: bv8): bv8 {
    x | b
  }

  function Drop(x: bv8, b: bv8): bv8 {
    x & !b
  }

  predicate HasBit(x: bv8, k: nat)
    requires k < 8
  {
    Test(x, Bit(k))
  }

  predicate OneBit(b: bv8) {
    b == 1 || b == 2 || b == 4 || b == 8 || b == 16 || b == 32 || b == 64 || b == 128
  }

  lemma BitSingle(k: nat, j: nat)
    requires k < 8 && j < 8
    ensures OneBit(Bit(k)) && (Bit(k) == Bit(j) <==> k == j)
  {
  }

  lemma OneBitPut(x: bv8, b: bv8, c: bv8)
    requires OneBit(b) && OneBit(c)
    ensures Test(Put(x, b), c) <==> b == c || Test(x, c)
  {
  }

  lemma OneBitDrop(x: bv8, b: bv8, c: bv8)
    requires OneBit(b) && OneBit(c)
    ensures Test(Drop(x, b), c) <==> b != c && Test(x, c)
  {
  }

  lemma OneBitOps(x: bv8, b: bv8, c: bv8)
    requires OneBit(b) && OneBit(c)
    ensures Test(Put(x, b), c) <==> b == c || Test(x, c)
    ensures Test(Drop(x, b), c) <==> b != c && Test(x, c)
  {
    hide Test, Put, Drop, OneBit;
    OneBitPut(x, b, c);
    OneBitDrop(x, b, c);
  }

  /** Setting and clearing a bit changes that bit only. */
  lemma BitOps(x: bv8, k: nat, j: nat)
    requires k < 8 && j < 8
    ensures HasBit(Put(x, Bit(k)), j) <==> j == k || HasBit(x, j)
    ensures HasBit(Drop(x, Bit(k)), j) <==> j != k && HasBit(x, j)
  {
    hide Bit, OneBit, Put, Drop, Test;
    BitSingle(k, j);
    BitSingle(j, k);
    OneBitOps(x, Bit(k), Bit(j));
  }

  lemma FullByte(k: nat)
    requires k < 8
    ensures HasBit(0xff, k)
  {
    BitSingle(k, k);
  }

  /** The first `n` bits of a sequence of bytes. */
  function BitsOf(m: seq<bv8>, n: nat): (r: seq<bool>)
    requires n <= 8 * |m|
    ensures |r| == n && forall i :: 0 <= i < n ==> r[i] == HasBit(m[i / 8], i % 8)
  {
    seq(n, i requires 0 <= i < n => HasBit(m[i / 8], i % 8))
  }

  /** Garbage collection flags, eight to a byte. */
  class Flags {
    const mem: array<bv8>

    predicate IsSet(s: nat)
      requires s / 8 < mem.Length
      reads mem
    {
      HasBit(mem[s / 8], s % 8)
    }

    constructor (size: nat)
      ensures fresh(mem) && mem.Length == (size + 7) / 8
      ensures forall s: nat :: s / 8 < mem.Length ==> IsSet(s)
    {
      mem := new bv8[(size + 7) / 8](_ => 0xff);
      new;
      forall s: nat | s / 8 < mem.Length ensures IsSet(s) {
        FullByte(s % 8);
      }
    }

    method Set(s: nat)
      requires s / 8 < mem.Length
      modifies mem
      ensures forall t: nat :: t / 8 < mem.Length ==> (IsSet(t) <==> t == s || old(IsSet(t)))
    {
      hide Bit, Put, HasBit;
      mem[s / 8] := Put(mem[s / 8], Bit(s % 8));
      forall t: nat | t / 8 < mem.Length ensures IsSet(t) <==> t == s || old(IsSet(t)) {
        BitOps(old(mem[s / 8]), s % 8, t % 8);
      }
    }

    method Unset(s: nat)
      requires s / 8 < mem.Length
      modifies mem
      ensures forall t: nat :: t / 8 < mem.Length ==> (IsSet(t) <==> t != s && old(IsSet(t)))
    {
      hide Bit, Drop, HasBit;
      mem[s / 8] := Drop(mem[s / 8], Bit(s % 8));
      forall t: nat | t / 8 < mem.Length ensures IsSet(t) <==> t != s && old(IsSet(t)) {
        BitOps(old(mem[s / 8]), s % 8, t % 8);
      }
    }
  }

  // ----- What the table holds -----

  type Marks = seq<bool>

  /** The elements in slots that are not marked for collection. */
  ghost function LiveSet(t: seq<Element>, dead: Marks): set<Element>
    requires |dead| == |t|
  {
    set i | 0 <= i < |t| && !dead[i] :: t[i]
  }

  /** The live slots of the current epoch. */
  ghost function RecentSet(dead: Marks, epoch: Marks): set<int>
    requires |dead| == |epoch|
  {
    set i | 0 <= i < |dead| && !dead[i] && epoch[i]
  }

  ghost function RecentBelow(dead: Marks, epoch: Marks, n: nat): set<int>
    requires |dead| == |epoch| && n <= |dead|
  {
    set i | 0 <= i < n && !dead[i] && epoch[i]
  }

  lemma RecentStart(dead: Marks, epoch: Marks)
    requires |dead| == |epoch|
    ensures RecentBelow(dead, epoch, 0) == {} && RecentBelow(dead, epoch, |dead|) == RecentSet(dead, epoch)
  {
  }

  lemma RecentNext(dead: Marks, epoch: Marks, i: nat)
    requires |dead| == |epoch| && i < |dead|
    ensures |RecentBelow(dead, epoch, i + 1)| == |RecentBelow(dead, epoch, i)| + if !dead[i] && epoch[i] then 1 else 0
  {
    var x: int := i;
    assert RecentBelow(dead, epoch, i + 1) == RecentBelow(dead, epoch, i) + if !dead[i] && epoch[i] then {x} else {};
  }

  /** Place number `k` of an element is the first that holds it. */
  ghost predicate HeldFirst(h: Hasher, t: seq<Element>, e: Element, k: nat)
    requires k < 8
  {
    var locs := Locations(h, |t|, e);
    locs[k] < |t| && t[locs[k]] == e && forall j :: 0 <= j < k ==> locs[j] < |t| && t[locs[j]] != e
  }

  /** Slot `i` is the first place of `e` that holds it, where a search finds it. */
  ghost predicate FoundAt(h: Hasher, t: seq<Element>, e: Element, i: nat) {
    exists k: nat :: k < 8 && HeldFirst(h, t, e, k) && Locations(h, |t|, e)[k] == i
  }

  /** Every live element is where a search finds it. */
  ghost predicate Placed(h: Hasher, t: seq<Element>, dead: Marks)
    requires |dead| == |t|
  {
    forall i :: 0 <= i < |t| && !dead[i] ==> FoundAt(h, t, t[i], i)
  }

  lemma FoundOnce(h: Hasher, t: seq<Element>, e: Element, i: nat, j: nat)
    requires FoundAt(h, t, e, i) && FoundAt(h, t, e, j)
    ensures i == j && i < |t| && t[i] == e && IsPlace(h, |t|, e, i)
  {
    hide Locations;
    var k: nat :| k < 8 && HeldFirst(h, t, e, k) && Locations(h, |t|, e)[k] == i;
    var m: nat :| m < 8 && HeldFirst(h, t, e, m) && Locations(h, |t|, e)[m] == j;
    assert k == m;
  }

  /** So no element is live in two slots. */
  lemma LiveOnce(h: Hasher, t: seq<Element>, dead: Marks, i: nat, j: nat)
    requires |dead| == |t| && Placed(h, t, dead) && i < |t| && j < |t| && !dead[i] && FoundAt(h, t, t[i], j)
    ensures i == j
  {
    hide FoundAt;
    FoundOnce(h, t, t[i], i, j);
  }

  /** Writing another element elsewhere does not hide an element. */
  lemma FoundStill(h: Hasher, t: seq<Element>, x: Element, j: nat, i: nat, e: Element)
    requires FoundAt(h, t, x, j) && i < |t| && j != i && x != e
    ensures FoundAt(h, t[i := e], x, j)
  {
    hide Locations;
    var k: nat :| k < 8 && HeldFirst(h, t, x, k) && Locations(h, |t|, x)[k] == j;
    assert HeldFirst(h, t[i := e], x, k);
  }

  /** An element that is not live, put into place number `k`, is found there if the places before
      are live. */
  lemma {:induction false} FoundThere(h: Hasher, t: seq<Element>, dead: Marks, e: Element, k: nat)
    requires |dead| == |t| && k < 8 && e !in LiveSet(t, dead) && Locations(h, |t|, e)[k] < |t|
    requires forall j :: 0 <= j < k ==> var loc := Locations(h, |t|, e)[j]; loc < |t| && !dead[loc]
    ensures var i := Locations(h, |t|, e)[k]; FoundAt(h, t[i := e], e, i)
  {
    hide Locations;
    var locs := Locations(h, |t|, e);
    if j: nat :| j < k && locs[j] == locs[k] {
      FoundThere(h, t, dead, e, j);
    } else {
      forall j | 0 <= j < k ensures locs[j] < |t| && t[locs[k] := e][locs[j]] != e {
        assert t[locs[j]] in LiveSet(t, dead);
      }
      assert HeldFirst(h, t[locs[k] := e], e, k);
    }
  }

  /** Every element of the table, collectable or not, sits in one of its places, and no two
      slots hold the same one. The element that fills a new table is exempt. */
  ghost predicate Settled(h: Hasher, t: seq<Element>) {
    && (forall i :: 0 <= i < |t| && t[i] != NO_ELEMENT ==> IsPlace(h, |t|, t[i], i))
    && (forall i, j :: 0 <= i < j < |t| && t[i] != NO_ELEMENT ==> t[i] != t[j])
  }

  ghost predicate Missing(t: seq<Element>, e: Element) {
    e != NO_ELEMENT ==> e !in t
  }

  /** An element that is in none of its places is nowhere. */
  lemma MissedEverywhere(h: Hasher, t: seq<Element>, e: Element)
    requires Settled(h, t)
    requires forall k :: 0 <= k < 8 ==> var loc := Locations(h, |t|, e)[k]; loc < |t| && t[loc] != e
    ensures Missing(t, e)
  {
    forall i: nat | i < |t| && IsPlace(h, |t|, e, i) ensures t[i] != e {
      var k :| 0 <= k < 8 && Locations(h, |t|, e)[k] == i;
    }
  }

  lemma SettledPut(h: Hasher, t: seq<Element>, i: nat, e: Element)
    requires Settled(h, t) && i < |t| && IsPlace(h, |t|, e, i) && (t[i] == e || Missing(t, e))
    ensures Settled(h, t[i := e])
    ensures t[i] != e ==> Missing(t[i := e], t[i])
  {
    hide IsPlace;
    if t[i] == e {
      assert t[i := e] == t;
    } else {
      assert forall j :: 0 <= j < |t| && e != NO_ELEMENT ==> t[j] != e;
      assert forall j :: 0 <= j < |t| && j != i ==> t[i := e][j] == t[j];
    }
  }

  /** Marking the slot where an element is found removes it. */
  lemma LiveErase(h: Hasher, t: seq<Element>, dead: Marks, i: nat)
    requires |dead| == |t| && i < |t| && Placed(h, t, dead) && FoundAt(h, t, t[i], i)
    ensures LiveSet(t, dead[i := true]) == LiveSet(t, dead) - {t[i]}
  {
    hide FoundAt, Placed;
    LiveDrop(t, dead, i);
    forall j: nat | j < |t| && j != i && !dead[j] ensures t[j] != t[i] {
      if t[j] == t[i] {
        LiveOnce(h, t, dead, j, i);
        assert false;
      }
    }
  }

  lemma LivePut(t: seq<Element>, dead: Marks, i: nat, e: Element)
    requires |dead| == |t| && i < |t| && (dead[i] || t[i] == e)
    ensures LiveSet(t[i := e], dead[i := false]) == LiveSet(t, dead) + {e}
  {
    var a, b := LiveSet(t[i := e], dead[i := false]), LiveSet(t, dead) + {e};
    assert t[i := e][i] in a;
    forall x | x in b ensures x in a {
      if x != e {
        var j :| 0 <= j < |t| && !dead[j] && t[j] == x;
        assert t[i := e][j] in a;
      }
    }
  }

  lemma LiveSwap(t: seq<Element>, dead: Marks, i: nat, e: Element)
    requires |dead| == |t| && i < |t| && !dead[i]
    ensures LiveSet(t[i := e], dead) + {t[i]} == LiveSet(t, dead) + {e}
  {
    var a, b := LiveSet(t[i := e], dead), LiveSet(t, dead);
    assert t[i := e][i] in a;
    assert t[i] in b;
    forall x | x in b && x != t[i] ensures x in a {
      var j :| 0 <= j < |t| && !dead[j] && t[j] == x;
      assert t[i := e][j] in a;
    }
    forall x | x in a && x != e ensures x in b {
      var j :| 0 <= j < |t| && !dead[j] && t[i := e][j] == x;
      assert t[j] in b;
    }
  }

  lemma LiveDrop(t: seq<Element>, dead: Marks, i: nat)
    requires |dead| == |t| && i < |t|
    ensures LiveSet(t, dead[i := true]) <= LiveSet(t, dead) && LiveSet(t, dead) - {t[i]} <= LiveSet(t, dead[i := true])
  {
    var a, b := LiveSet(t, dead[i := true]), LiveSet(t, dead);
    forall x | x in b && x != t[i] ensures x in a {
      var j :| 0 <= j < |t| && !dead[j] && t[j] == x;
      assert t[j] in a;
    }
  }

  lemma RecentPut(dead: Marks, epoch: Marks, i: nat, ep: bool)
    requires |dead| == |epoch| && i < |dead|
    ensures |RecentSet(dead[i := false], epoch[i := ep])|
      == |RecentSet(dead, epoch) - {i as int}| + (if ep then 1 else 0)
    ensures |RecentSet(dead, epoch) - {i as int}| == |RecentSet(dead, epoch)| - (if !dead[i] && epoch[i] then 1 else 0)
  {
    var x: int := i;
    assert RecentSet(dead[i := false], epoch[i := ep]) == if ep then RecentSet(dead, epoch) - {x} + {x} else RecentSet(dead, epoch) - {x};
    assert x in RecentSet(dead, epoch) <==> !dead[i] && epoch[i];
  }

  lemma RecentDrop(dead: Marks, epoch: Marks, i: nat)
    requires |dead| == |epoch| && i < |dead|
    ensures |RecentSet(dead[i := true], epoch)| <= |RecentSet(dead, epoch)|
  {
    var x: int := i;
    assert RecentSet(dead[i := true], epoch) == RecentSet(dead, epoch) - {x};
  }

  lemma PlacedPut(h: Hasher, t: seq<Element>, dead: Marks, i: nat, e: Element)
    requires |dead| == |t| && i < |t| && Placed(h, t, dead) && FoundAt(h, t[i := e], e, i)
    requires t[i] == e || e !in LiveSet(t, dead)
    ensures Placed(h, t[i := e], dead[i := false])
  {
    hide FoundAt;
    var t', dead' := t[i := e], dead[i := false];
    if t[i] == e {
      assert t' == t;
    } else {
      forall j | 0 <= j < |t| && !dead'[j] ensures FoundAt(h, t', t'[j], j) {
        if j != i {
          assert t[j] in LiveSet(t, dead);
          FoundStill(h, t, t[j], j, i, e);
        }
      }
    }
  }

  lemma PlacedDrop(h: Hasher, t: seq<Element>, dead: Marks, i: nat)
    requires |dead| == |t| && i < |t| && Placed(h, t, dead)
    ensures Placed(h, t, dead[i := true])
  {
    hide FoundAt;
  }

  /** A displaced element is nowhere live. */
  lemma DisplacedGone(h: Hasher, t: seq<Element>, dead: Marks, i: nat, e: Element)
    requires |dead| == |t| && i < |t| && Placed(h, t, dead) && !dead[i] && e !in LiveSet(t, dead)
    ensures t[i] !in LiveSet(t[i := e], dead)
  {
    hide FoundAt, Placed;
    assert t[i] in LiveSet(t, dead);
    forall j: nat | j < |t| && !dead[j] ensures t[i := e][j] != t[i] {
      if j != i && t[j] == t[i] {
        PlacedAt(h, t, dead, i);
        LiveOnce(h, t, dead, j, i);
        assert false;
      }
    }
  }

  lemma PlacedAt(h: Hasher, t: seq<Element>, dead: Marks, i: nat)
    requires |dead| == |t| && i < |t| && Placed(h, t, dead) && !dead[i]
    ensures FoundAt(h, t, t[i], i)
  {
  }

  // ----- Room for an element -----

  ghost predicate AtPlace(h: Hasher, t: seq<Element>, e: Element) {
    exists i: nat :: i < |t| && IsPlace(h, |t|, e, i) && t[i] == e
  }

  ghost predicate Collectable(h: Hasher, dead: Marks, e: Element) {
    exists i: nat :: i < |dead| && IsPlace(h, |dead|, e, i) && dead[i]
  }

  /** The element took the first of its places that was collectable. */
  ghost predicate TakenFirst(h: Hasher, t: seq<Element>, dead: Marks, e: Element, t': seq<Element>, dead': Marks, k: nat)
    requires |dead| == |t|
  {
    var locs := Locations(h, |t|, e);
    && k < 8 && locs[k] < |t| && dead[locs[k]] && t' == t[locs[k] := e] && dead' == dead[locs[k] := false]
    && forall j :: 0 <= j < k ==> locs[j] < |t| && !dead[locs[j]]
  }

  /** The place of `loc` among the locations, or 8. */
  function IndexOf(locs: seq<nat>, loc: int): (k: nat)
    ensures k <= |locs| && (k < |locs| ==> locs[k] == loc) && forall j :: 0 <= j < k ==> locs[j] != loc
  {
    if locs == [] || locs[0] == loc then 0 else 1 + IndexOf(locs[1..], loc)
  }

  /** Which of its places an element takes when all are in use: the one after the place that the
      displacement before emptied. */
  function NextPlace(h: Hasher, size: nat, e: Element, last: int): nat {
    var locs := Locations(h, size, e);
    locs[(1 + IndexOf(locs, last)) % 8]
  }

  /** A fresh element displaces the one at its second place; an element that was displaced from one
      of its places goes to the next. If its places differ, it does not displace the one that just
      displaced it. */
  lemma NextPlaceIs(h: Hasher, size: nat, e: Element, last: int, k: nat)
    requires k < 8
    ensures (forall j :: 0 <= j < 8 ==> Locations(h, size, e)[j] != last) ==> NextPlace(h, size, e, last) == Locations(h, size, e)[1]
    ensures (forall i, j :: 0 <= i < j < 8 ==> Locations(h, size, e)[i] != Locations(h, size, e)[j]) && last == Locations(h, size, e)[k] ==>
      NextPlace(h, size, e, last) == Locations(h, size, e)[if k == 7 then 0 else k + 1] != last
  {
    hide Location, IndexOf;
    var locs := Locations(h, size, e);
    var i := IndexOf(locs, last);
    assert i < 8 ==> locs[i] == last;
  }

  /** At most `depth` displacements reach an element with a collectable place. */
  ghost predicate Fits(h: Hasher, t: seq<Element>, dead: Marks, e: Element, last: int, depth: nat)
    requires |dead| == |t|
    decreases depth
  {
    depth > 0 &&
    (|| Collectable(h, dead, e)
     || (var i := NextPlace(h, |t|, e, last); i < |t| && Fits(h, t[i := e], dead, t[i], i, depth - 1)))
  }

  const INVALID := 0xffff_ffff

  /** An insert loses nothing: the element is there, or the displacements end well. */
  ghost predicate Keeps(h: Hasher, t: seq<Element>, dead: Marks, e: Element, depth: nat)
    requires |dead| == |t|
  {
    AtPlace(h, t, e) || Fits(h, t, dead, e, INVALID, depth)
  }

  lemma FitsUnfold(h: Hasher, t: seq<Element>, dead: Marks, e: Element, last: int, depth: nat)
    requires |dead| == |t|
    ensures Fits(h, t, dead, e, last, depth) == (depth > 0 && (Collectable(h, dead, e) ||
      (var i := NextPlace(h, |t|, e, last); i < |t| && Fits(h, t[i := e], dead, t[i], i, depth - 1))))
  {
    hide Collectable, NextPlace;
  }

  // ----- Elements of the current epoch -----

  /** The elements that would survive an ageing. */
  ghost function YoungSet(t: seq<Element>, dead: Marks, epoch: Marks): set<Element>
    requires |t| == |dead| == |epoch|
  {
    LiveSet(t, AgedDead(dead, epoch))
  }

  lemma YoungLive(t: seq<Element>, dead: Marks, epoch: Marks)
    requires |t| == |dead| == |epoch|
    ensures YoungSet(t, dead, epoch) <= LiveSet(t, dead)
  {
  }

  lemma YoungPut(t: seq<Element>, dead: Marks, epoch: Marks, i: nat, e: Element, ep: bool)
    requires |t| == |dead| == |epoch| && i < |t| && (dead[i] || (t[i] == e && ep))
    ensures YoungSet(t[i := e], dead[i := false], epoch[i := ep]) == YoungSet(t, dead, epoch) + if ep then {e} else {}
  {
    hide LiveSet;
    var a := AgedDead(dead, epoch);
    assert AgedDead(dead[i := false], epoch[i := ep]) == a[i := !ep];
    if ep {
      LivePut(t, a, i, e);
    } else {
      assert a[i := true] == a;
      LiveUnder(t, a, i, e);
    }
  }

  /** What a marked slot holds does not matter. */
  lemma LiveUnder(t: seq<Element>, dead: Marks, i: nat, e: Element)
    requires |dead| == |t| && i < |t| && dead[i]
    ensures LiveSet(t[i := e], dead) == LiveSet(t, dead)
  {
    var a, b := LiveSet(t[i := e], dead), LiveSet(t, dead);
    forall x ensures x in a <==> x in b {
      if x in b {
        var j :| 0 <= j < |t| && !dead[j] && t[j] == x;
        assert t[i := e][j] in a;
      }
      if x in a {
        var j :| 0 <= j < |t| && !dead[j] && t[i := e][j] == x;
        assert t[j] in b;
      }
    }
  }

  /** The epoch goes with the element that is displaced. */
  lemma YoungSwap(t: seq<Element>, dead: Marks, epoch: Marks, i: nat, e: Element, ep: bool)
    requires |t| == |dead| == |epoch| && i < |t| && !dead[i]
    ensures YoungSet(t[i := e], dead, epoch[i := ep]) + (if epoch[i] then {t[i]} else {})
      == YoungSet(t, dead, epoch) + if ep then {e} else {}
  {
    hide LiveSet;
    var a := AgedDead(dead, epoch);
    assert AgedDead(dead, epoch[i := ep]) == a[i := !ep];
    if epoch[i] && ep {
      assert a[i := false] == a;
      LiveSwap(t, a, i, e);
    } else if epoch[i] {
      LiveUnder(t, a[i := true], i, e);
      LiveMark(t, a, i);
    } else if ep {
      LivePut(t, a, i, e);
    } else {
      assert a[i := true] == a;
      LiveUnder(t, a, i, e);
    }
  }

  lemma LiveMark(t: seq<Element>, dead: Marks, i: nat)
    requires |dead| == |t| && i < |t| && !dead[i]
    ensures LiveSet(t, dead[i := true]) + {t[i]} == LiveSet(t, dead)
  {
    LiveDrop(t, dead, i);
    assert t[i] in LiveSet(t, dead);
  }

  // ----- Ageing -----

  /** What an ageing of the epochs makes of the flags: the old epoch is marked for collection
      and the current one becomes the old one. */
  function AgedDead(dead: Marks, epoch: Marks): (r: Marks)
    requires |dead| == |epoch|
    ensures |r| == |dead|
  {
    seq(|dead|, i requires 0 <= i < |dead| => dead[i] || !epoch[i])
  }

  /** The flags of the first `i` slots have been aged. */
  ghost predicate AgedTo(dead: Marks, epoch: Marks, d: Marks, e: Marks, i: nat) {
    && |dead| == |epoch| == |d| == |e| && i <= |dead|
    && (forall j :: 0 <= j < i ==> d[j] == (dead[j] || !epoch[j]) && !e[j])
    && (forall j :: i <= j < |dead| ==> d[j] == dead[j] && e[j] == epoch[j])
  }

  lemma AgedNone(dead: Marks, epoch: Marks)
    requires |dead| == |epoch|
    ensures AgedTo(dead, epoch, dead, epoch, 0)
  {
  }

  lemma AgedNext(dead: Marks, epoch: Marks, d: Marks, e: Marks, i: nat)
    requires AgedTo(dead, epoch, d, e, i) && i < |dead|
    ensures |d| == |e| == |dead|
    ensures if e[i] then AgedTo(dead, epoch, d, e[i := false], i + 1) else AgedTo(dead, epoch, d[i := true], e, i + 1)
  {
  }

  lemma AgedAll(dead: Marks, epoch: Marks, d: Marks, e: Marks)
    requires AgedTo(dead, epoch, d, e, |dead|)
    ensures |epoch| == |dead| == |e| && d == AgedDead(dead, epoch) && forall i :: 0 <= i < |e| ==> !e[i]
  {
  }

  lemma AgedKeeps(h: Hasher, t: seq<Element>, dead: Marks, epoch: Marks, after: Marks)
    requires |t| == |dead| == |epoch| == |after| && Placed(h, t, dead) && forall i :: 0 <= i < |after| ==> !after[i]
    ensures Placed(h, t, AgedDead(dead, epoch)) && RecentSet(AgedDead(dead, epoch), after) == {}
  {
    hide FoundAt;
  }

  /** Meant to be 45 percent of the slots; the product is taken in 32 bits. */
  function EpochSize(size: nat): (n: nat)
    ensures n >= 1
  {
    var n := 45 * size % 0x1_0000_0000 / 100;
    if n > 1 then n else 1
  }

  /** It is 45 percent, or one, exactly for the sizes whose product does not wrap. */
  lemma EpochSizeExact(size: nat)
    requires size < 0x1_0000_0000
    ensures EpochSize(size) == (if 45 * size / 100 > 1 then 45 * size / 100 else 1) <==> size <= 95_443_717
  {
    var x := 45 * size;
    var q := x / 0x1_0000_0000;
    assert x == q * 0x1_0000_0000 + x % 0x1_0000_0000;
    if size > 95_443_717 {
      assert q >= 1;
      assert x % 0x1_0000_0000 + 0x1_0000_0000 <= x;
    }
  }

  /** The slack of the scan. */
  /** After how many inserts the next scan is due: when the epoch could be full at the earliest, but
      not before a sixteenth of it. */
  function NextScan(counter: nat, recent: nat, epochSize: nat): nat {
    if counter > 0 then counter - 1
    else if recent >= epochSize then epochSize
    else
      var room := epochSize - recent;
      if room >= Slack(epochSize) then room else Slack(epochSize)
  }

  function Slack(epochSize: nat): nat {
    if epochSize / 16 > 1 then epochSize / 16 else 1
  }

  class Cache {
    const h: Hasher
    const size: nat
    const table: array<Element>
    const flags: Flags
    const epochFlags: array<bool>
    var counter: nat
    const epochSize: nat
    const depthLimit: nat

    ghost predicate Shape() {
      && size >= 2 && HashesFit(h) && table.Length == size && epochFlags.Length == size
      && flags.mem.Length == (size + 7) / 8 && epochSize >= 1 && depthLimit >= 1
    }

    ghost function Dead(): (d: Marks)
      requires Shape()
      reads flags.mem
      ensures |d| == size
    {
      BitsOf(flags.mem[..], size)
    }

    ghost function Live(): set<Element>
      requires Shape()
      reads table, flags.mem
    {
      LiveSet(table[..], Dead())
    }

    ghost function Recent(): nat
      requires Shape()
      reads flags.mem, epochFlags
    {
      |RecentSet(Dead(), epochFlags[..])|
    }

    /** Every live element is where a search finds it, no element is there twice, and the live
        entries of the current epoch and the inserts until the next scan stay within the epoch
        size and the slack. */
    ghost predicate Valid()
      reads this, table, flags.mem, epochFlags
    {
      && Shape() && Placed(h, table[..], Dead()) && Settled(h, table[..])
      && Recent() + counter <= epochSize + Slack(epochSize)
    }

    /** `depth` is the logarithm of the size, at least one. */
    constructor Setup(h: Hasher, newSize: nat, depth: nat)
      requires HashesFit(h) && depth >= 1 && newSize < 0x1_0000_0000
      ensures Valid() && Live() == {} && size == (if newSize < 2 then 2 else newSize) && epochSize == EpochSize(size)
      ensures counter == epochSize && depthLimit == depth
    {
      this.h, depthLimit := h, depth;
      var n := if newSize < 2 then 2 else newSize;
      size := n;
      table := new Element[n](_ => NO_ELEMENT);
      flags := new Flags(n);
      epochFlags := new bool[n](_ => false);
      epochSize := EpochSize(n);
      counter := EpochSize(n);
      new;
      assert forall i: nat :: i < size ==> Dead()[i] == flags.IsSet(i);
      assert RecentSet(Dead(), epochFlags[..]) == {};
      assert Live() == {};
    }

    method AllowErase(i: nat)
      requires Shape() && i < size
      modifies flags.mem
      ensures Dead() == old(Dead())[i := true]
    {
      flags.Set(i);
      forall t: nat | t < size ensures Dead()[t] == (t == i || old(Dead())[t]) {
        assert Dead()[t] == flags.IsSet(t) && old(Dead())[t] == old(flags.IsSet(t));
      }
    }

    method PleaseKeep(i: nat)
      requires Shape() && i < size
      modifies flags.mem
      ensures Dead() == old(Dead())[i := false]
    {
      flags.Unset(i);
      forall t: nat | t < size ensures Dead()[t] == (t != i && old(Dead())[t]) {
        assert Dead()[t] == flags.IsSet(t) && old(Dead())[t] == old(flags.IsSet(t));
      }
    }

    /** Puts an element into a slot and marks it as live. */
    method Put(i: nat, e: Element, ep: bool)
      requires Shape() && i < size
      modifies table, flags.mem, epochFlags
      ensures table[..] == old(table[..])[i := e] && Dead() == old(Dead())[i := false]
      ensures epochFlags[..] == old(epochFlags[..])[i := ep]
    {
      table[i] := e;
      PleaseKeep(i);
      epochFlags[i] := ep;
    }

    /** With `erase` the place where the element was found may be collected, and the element is
        gone. */
    method Contains(e: Element, erase: bool) returns (found: bool)
      requires Valid()
      modifies flags.mem
      ensures Valid()
      ensures found <==> AtPlace(h, table[..], e)
      ensures e in old(Live()) ==> found
      ensures !(found && erase) ==> Dead() == old(Dead())
      ensures found && erase ==> exists i: nat :: i < size && FoundAt(h, table[..], e, i) && Dead() == old(Dead())[i := true]
      ensures found && erase ==> Live() == old(Live()) - {e}
    {
      hide IsPlace, LiveSet, RecentSet, Placed, Settled, Locations, BitsOf, AtPlace, FoundAt;
      LiveFound(e);
      var locs := Locations(h, size, e);
      for k := 0 to 8
        invariant Valid() && Dead() == old(Dead())
        invariant forall j :: 0 <= j < k ==> locs[j] < size && table[locs[j]] != e
      {
        PlaceFits(h, size, e, k);
        if table[locs[k]] == e {
          FoundFirst(h, table[..], e, k);
          if erase {
            Erase(locs[k]);
          }
          return true;
        }
      }
      AllMissed(h, table[..], e);
      found := false;
    }

    /** An erased element is still found until something else takes its place. */
    method FoundAgain(e: Element) returns (always: bool)
      requires Valid()
      modifies this, table, flags.mem, epochFlags
      ensures Valid() && always
    {
      Insert(e);
      var found := Contains(e, true);
      if !found {
        return true;
      }
      always := Contains(e, false);
    }

    /** Erases the element of a slot where it is found. */
    method Erase(i: nat)
      requires Valid() && i < size && FoundAt(h, table[..], table[i], i)
      modifies flags.mem
      ensures Valid() && Dead() == old(Dead())[i := true] && Live() == old(Live()) - {table[i]}
    {
      hide IsPlace, LiveSet, RecentSet, Placed, Settled, BitsOf, FoundAt;
      LiveErase(h, table[..], Dead(), i);
      RecentDrop(Dead(), epochFlags[..], i);
      PlacedDrop(h, table[..], Dead(), i);
      AllowErase(i);
    }

    /** A live element is found. */
    lemma LiveFound(e: Element)
      requires Valid()
      ensures e in Live() ==> AtPlace(h, table[..], e)
    {
      hide FoundAt, IsPlace;
      if e in Live() {
        var i: nat :| i < size && !Dead()[i] && table[..][i] == e;
        FoundOnce(h, table[..], e, i, i);
      }
    }

    // ----- Epochs -----

    ghost predicate Ageing()
      requires Shape()
      reads this, flags.mem, epochFlags
    {
      counter == 0 && Recent() >= epochSize
    }

    /** The flags after an epoch check. */
    ghost function Marked(): (d: Marks)
      requires Shape()
      reads this, flags.mem, epochFlags
      ensures |d| == size
    {
      if Ageing() then AgedDead(Dead(), epochFlags[..]) else Dead()
    }

    /** What survives an epoch check: everything, or the current epoch only. */
    ghost function Surviving(): set<Element>
      requires Shape()
      reads this, table, flags.mem, epochFlags
    {
      LiveSet(table[..], Marked())
    }

    /** The elements of the current epoch. */
    ghost function Young(): set<Element>
      requires Shape()
      reads table, flags.mem, epochFlags
    {
      YoungSet(table[..], Dead(), epochFlags[..])
    }

    /** What is of the current epoch after an epoch check. */
    ghost function StillYoung(): set<Element>
      requires Shape()
      reads this, table, flags.mem, epochFlags
    {
      if Ageing() then {} else Young()
    }

    method CountRecent() returns (n: nat)
      requires Shape()
      ensures n == Recent()
    {
      hide HasBit, RecentSet, RecentBelow;
      n := 0;
      ghost var dead, epoch := Dead(), epochFlags[..];
      RecentStart(dead, epoch);
      for i := 0 to size
        invariant n == |RecentBelow(dead, epoch, i)|
      {
        assert dead[i] == flags.IsSet(i);
        RecentNext(dead, epoch, i);
        if epochFlags[i] && !flags.IsSet(i) {
          n := n + 1;
        }
      }
    }

    method Age()
      requires Shape()
      modifies flags.mem, epochFlags
      ensures Dead() == AgedDead(old(Dead()), old(epochFlags[..]))
      ensures forall i :: 0 <= i < size ==> !epochFlags[i]
    {
      hide BitsOf, AgedTo, AgedDead;
      ghost var dead, epoch := Dead(), epochFlags[..];
      AgedNone(dead, epoch);
      for i := 0 to size
        invariant AgedTo(dead, epoch, Dead(), epochFlags[..], i)
      {
        AgedNext(dead, epoch, Dead(), epochFlags[..], i);
        if epochFlags[i] {
          epochFlags[i] := false;
        } else {
          AllowErase(i);
        }
      }
      AgedAll(dead, epoch, Dead(), epochFlags[..]);
      forall i | 0 <= i < size ensures !epochFlags[i] {
        assert epochFlags[..][i] == epochFlags[i];
      }
    }

    /** Afterwards there is room for one more entry in the current epoch. */
    method EpochCheck()
      requires Valid()
      modifies this, flags.mem, epochFlags
      ensures Shape() && Placed(h, table[..], Dead()) && Settled(h, table[..])
      ensures Dead() == old(Marked()) && Live() == old(Surviving()) && Young() == old(StillYoung())
      ensures Recent() + counter + 1 <= epochSize + Slack(epochSize)
      ensures counter == NextScan(old(counter), old(Recent()), epochSize)
    {
      hide BitsOf, Placed, Settled, LiveSet, AgedDead, RecentSet;
      if counter != 0 {
        counter := counter - 1;
        return;
      }
      var unused := CountRecent();
      if unused >= epochSize {
        Age();
        AgedKeeps(h, table[..], old(Dead()), old(epochFlags[..]), epochFlags[..]);
        NoneYoung(table[..], Dead(), epochFlags[..]);
        counter := epochSize;
      } else {
        var c := if epochSize / 16 > epochSize - unused then epochSize / 16 else epochSize - unused;
        counter := if c > 1 then c else 1;
      }
    }

    // ----- Inserting -----

    static method Find(locs: seq<nat>, loc: int) returns (k: nat)
      requires |locs| == 8
      ensures k == IndexOf(locs, loc)
    {
      k := 0;
      while k < 8 && locs[k] != loc
        invariant k <= 8 && forall j :: 0 <= j < k ==> locs[j] != loc
      {
        k := k + 1;
      }
    }

    /** An element that is in the table already is kept and becomes recent. */
    method Refresh(e: Element) returns (done: bool)
      requires Shape() && Placed(h, table[..], Dead()) && Settled(h, table[..])
      modifies table, flags.mem, epochFlags
      ensures Placed(h, table[..], Dead()) && Settled(h, table[..]) && done == old(AtPlace(h, table[..], e))
      ensures done ==> Live() == old(Live()) + {e} && Young() == old(Young()) + {e} && Recent() <= old(Recent()) + 1
      ensures !done ==> table[..] == old(table[..]) && Dead() == old(Dead()) && epochFlags[..] == old(epochFlags[..])
      ensures !done ==> Missing(table[..], e) && e !in Live()
    {
      hide IsPlace, LiveSet, RecentSet, Placed, Settled, Locations, BitsOf, AtPlace, FoundAt, YoungSet;
      var locs := Locations(h, size, e);
      for k := 0 to 8
        invariant table[..] == old(table[..]) && Dead() == old(Dead()) && epochFlags[..] == old(epochFlags[..])
        invariant forall j :: 0 <= j < k ==> locs[j] < size && table[locs[j]] != e
      {
        PlaceFits(h, size, e, k);
        if table[locs[k]] == e {
          FoundFirst(h, table[..], e, k);
          assert table[..][locs[k] := e] == table[..];
          TakeSlot(locs[k], e, true);
          return true;
        }
      }
      AllMissed(h, table[..], e);
      MissedEverywhere(h, table[..], e);
      NotLive(h, table[..], Dead(), e);
      done := false;
    }

    /** Puts `e` into a slot that holds it already, or that is collectable while `e` is nowhere
        live; it is found there. */
    method TakeSlot(i: nat, e: Element, ep: bool)
      requires Shape() && Placed(h, table[..], Dead()) && Settled(h, table[..]) && i < size
      requires FoundAt(h, table[..][i := e], e, i)
      requires (table[i] == e && ep) || (Dead()[i] && Missing(table[..], e) && e !in Live())
      modifies table, flags.mem, epochFlags
      ensures Placed(h, table[..], Dead()) && Settled(h, table[..]) && Live() == old(Live()) + {e}
      ensures Young() == old(Young()) + if ep then {e} else {}
      ensures Recent() <= old(Recent()) + if ep then 1 else 0
      ensures table[..] == old(table[..])[i := e] && Dead() == old(Dead())[i := false]
    {
      hide IsPlace, LiveSet, RecentSet, Placed, Settled, Missing, FoundAt, BitsOf, YoungSet;
      FoundOnce(h, table[..][i := e], e, i, i);
      SettledPut(h, table[..], i, e);
      LivePut(table[..], Dead(), i, e);
      RecentPut(Dead(), epochFlags[..], i, ep);
      PlacedPut(h, table[..], Dead(), i, e);
      YoungPut(table[..], Dead(), epochFlags[..], i, e, ep);
      Put(i, e, ep);
    }

    /** Swaps `e`, which is nowhere live, with the live element in one of its places, which is
        nowhere live then. */
    method Displace(i: nat, e: Element, ep: bool) returns (out: Element, outEp: bool)
      requires Shape() && Placed(h, table[..], Dead()) && Settled(h, table[..])
      requires Missing(table[..], e) && e !in Live()
      requires i < size && FoundAt(h, table[..][i := e], e, i) && !Dead()[i]
      modifies table, epochFlags
      ensures table[..] == old(table[..])[i := e] && out == old(table[i])
      ensures Placed(h, table[..], Dead()) && Settled(h, table[..]) && Missing(table[..], out) && out !in Live()
      ensures Live() + {out} == old(Live()) + {e}
      ensures Young() + (if outEp then {out} else {}) == old(Young()) + if ep then {e} else {}
      ensures Recent() + (if outEp then 1 else 0) == old(Recent()) + if ep then 1 else 0
    {
      hide IsPlace, LiveSet, RecentSet, Placed, Settled, FoundAt, BitsOf, YoungSet;
      ghost var t, dead, epoch := table[..], Dead(), epochFlags[..];
      FoundOnce(h, t[i := e], e, i, i);
      LiveHolds(t, dead, i);
      SettledPut(h, t, i, e);
      LiveSwap(t, dead, i, e);
      RecentPut(dead, epoch, i, ep);
      PlacedPut(h, t, dead, i, e);
      DisplacedGone(h, t, dead, i, e);
      YoungSwap(t, dead, epoch, i, e, ep);
      assert dead[i := false] == dead;
      out, outEp := table[i], epochFlags[i];
      table[i] := e;
      epochFlags[i] := ep;
      assert table[..] == t[i := e] && epochFlags[..] == epoch[i := ep];
    }

    /** After the epoch check nothing is lost, and `e0` joins the current epoch, if and only if
        `e0` is there already or the displacements reach a collectable place in time; otherwise
        exactly one of the surviving elements and `e0` is lost. No other element changes its epoch. */
    method Insert(e0: Element)
      requires Valid()
      modifies this, table, flags.mem, epochFlags
      ensures Valid()
      ensures old(Keeps(h, table[..], Marked(), e0, depthLimit)) ==>
        Live() == old(Surviving()) + {e0} && Young() == old(StillYoung()) + {e0}
      ensures !old(Keeps(h, table[..], Marked(), e0, depthLimit)) ==>
        exists x :: Lost(old(Surviving()) + {e0}, old(StillYoung()) + {e0}, Live(), Young(), x)
    {
      hide LiveSet, RecentSet, Placed, Settled, Missing, BitsOf, AtPlace, YoungSet, Fits, Lost;
      EpochCheck();
      var done := Refresh(e0);
      if !done {
        ghost var x := MakeRoom(e0);
      }
    }

    /** The table between two displacements: `e` is in hand, everything else is in the table. */
    ghost predicate InHand(e: Element, ep: bool, all: set<Element>, young: set<Element>, room: nat)
      reads table, flags.mem, epochFlags
    {
      && Shape() && Placed(h, table[..], Dead()) && Settled(h, table[..]) && Missing(table[..], e) && e !in Live()
      && Live() + {e} == all && Young() + (if ep then {e} else {}) == young
      && Recent() + (if ep then 1 else 0) <= room
    }

    /** The loop of Insert; `x` is the element in hand when it ends. */
    method MakeRoom(e0: Element) returns (ghost x: Element)
      requires Shape() && Placed(h, table[..], Dead()) && Settled(h, table[..])
      requires Missing(table[..], e0) && e0 !in Live()
      modifies table, flags.mem, epochFlags
      ensures Placed(h, table[..], Dead()) && Settled(h, table[..]) && Recent() <= old(Recent()) + 1
      ensures old(Fits(h, table[..], Dead(), e0, INVALID, depthLimit)) ==>
        Live() == old(Live()) + {e0} && Young() == old(Young()) + {e0}
      ensures !old(Fits(h, table[..], Dead(), e0, INVALID, depthLimit)) ==>
        Lost(old(Live()) + {e0}, old(Young()) + {e0}, Live(), Young(), x)
    {
      hide LiveSet, RecentSet, Placed, Settled, Missing, BitsOf, YoungSet, Fits, Lost, Collectable, NextPlace;
      ghost var all, young, room := Live() + {e0}, Young() + {e0}, Recent() + 1;
      var e, lastLoc, lastEpoch := e0, INVALID, true;
      for depth := 0 to depthLimit
        invariant InHand(e, lastEpoch, all, young, room)
        invariant old(Fits(h, table[..], Dead(), e0, INVALID, depthLimit)) == Fits(h, table[..], Dead(), e, lastLoc, depthLimit - depth)
      {
        FitsUnfold(h, table[..], Dead(), e, lastLoc, depthLimit - depth);
        var placed := TryPlaces(e, lastEpoch);
        if placed {
          return e;
        }
        e, lastEpoch, lastLoc := PushOut(e, lastEpoch, lastLoc, all, young, room);
      }
      FitsUnfold(h, table[..], Dead(), e, lastLoc, 0);
      YoungLive(table[..], Dead(), epochFlags[..]);
      OneLost(all, young, Live(), Young(), e, lastEpoch);
      x := e;
    }

    /** All places are in use: `e` takes the next one. */
    method PushOut(e: Element, ep: bool, last: int, ghost all: set<Element>, ghost young: set<Element>, ghost room: nat)
        returns (out: Element, outEp: bool, loc: nat)
      requires InHand(e, ep, all, young, room)
      requires forall k :: 0 <= k < 8 ==> var loc := Locations(h, size, e)[k]; loc < size && !Dead()[loc]
      modifies table, epochFlags
      ensures InHand(out, outEp, all, young, room)
      ensures loc == NextPlace(h, size, e, last) && loc < size
      ensures table[..] == old(table[..])[loc := e] && out == old(table[..])[loc] && Dead() == old(Dead())
    {
      hide IsPlace, LiveSet, RecentSet, Placed, Settled, Missing, Locations, BitsOf, FoundAt, YoungSet, NextPlace;
      var locs := Locations(h, size, e);
      var k := Find(locs, last);
      NextIs(h, size, e, last);
      FoundThere(h, table[..], Dead(), e, (1 + k) % 8);
      loc := locs[(1 + k) % 8];
      out, outEp := Displace(loc, e, ep);
    }

    /** The first collectable place of an element, if there is one. */
    method TryPlaces(e: Element, ep: bool) returns (placed: bool)
      requires Shape() && Placed(h, table[..], Dead()) && Settled(h, table[..])
      requires Missing(table[..], e) && e !in Live()
      modifies table, flags.mem, epochFlags
      ensures Placed(h, table[..], Dead()) && Settled(h, table[..]) && placed == old(Collectable(h, Dead(), e))
      ensures placed ==> Live() == old(Live()) + {e} && Young() == old(Young()) + if ep then {e} else {}
      ensures placed ==> Recent() <= old(Recent()) + if ep then 1 else 0
      ensures placed ==> exists k: nat :: TakenFirst(h, old(table[..]), old(Dead()), e, table[..], Dead(), k)
      ensures !placed ==> table[..] == old(table[..]) && Dead() == old(Dead()) && epochFlags[..] == old(epochFlags[..])
      ensures !placed ==> forall k :: 0 <= k < 8 ==> var loc := Locations(h, size, e)[k]; loc < size && !Dead()[loc]
    {
      hide LiveSet, RecentSet, Placed, Settled, Missing, Locations, BitsOf, FoundAt, YoungSet, Collectable;
      var locs := Locations(h, size, e);
      for k := 0 to 8
        invariant table[..] == old(table[..]) && Dead() == old(Dead()) && epochFlags[..] == old(epochFlags[..])
        invariant forall j :: 0 <= j < k ==> locs[j] < size && !Dead()[locs[j]]
      {
        PlaceFits(h, size, e, k);
        MarkIs(locs[k]);
        if flags.IsSet(locs[k]) {
          CollectableAt(h, Dead(), e, k);
          FoundThere(h, table[..], Dead(), e, k);
          TakeSlot(locs[k], e, ep);
          assert TakenFirst(h, old(table[..]), old(Dead()), e, table[..], Dead(), k);
          return true;
        }
      }
      NoneCollectable(h, Dead(), e);
      placed := false;
    }

    lemma MarkIs(i: nat)
      requires Shape() && i < size
      ensures Dead()[i] == flags.IsSet(i)
    {
    }
  }

  /** Exactly `x` was lost, from the current epoch too if it was in it. */
  ghost predicate Lost(all: set<Element>, young: set<Element>, live: set<Element>, now: set<Element>, x: Element) {
    x in all && live == all - {x} && now == young - {x}
  }

  lemma NextIs(h: Hasher, size: nat, e: Element, last: int)
    ensures var locs := Locations(h, size, e); NextPlace(h, size, e, last) == locs[(1 + IndexOf(locs, last)) % 8]
  {
  }

  lemma CollectableAt(h: Hasher, dead: Marks, e: Element, k: nat)
    requires k < 8 && (var i := Locations(h, |dead|, e)[k]; i < |dead| && dead[i])
    ensures Collectable(h, dead, e)
  {
    hide Locations;
    PlaceIs(h, |dead|, e, k);
  }

  lemma NoneCollectable(h: Hasher, dead: Marks, e: Element)
    requires forall k :: 0 <= k < 8 ==> var loc := Locations(h, |dead|, e)[k]; loc < |dead| && !dead[loc]
    ensures !Collectable(h, dead, e)
  {
    hide Locations;
    forall i: nat | i < |dead| && IsPlace(h, |dead|, e, i) ensures !dead[i] {
      var k :| 0 <= k < 8 && Locations(h, |dead|, e)[k] == i;
    }
  }

  lemma FoundFirst(h: Hasher, t: seq<Element>, e: Element, k: nat)
    requires k < 8 && HeldFirst(h, t, e, k)
    ensures FoundAt(h, t, e, Locations(h, |t|, e)[k]) && AtPlace(h, t, e)
  {
    hide Locations;
    PlaceIs(h, |t|, e, k);
  }

  lemma AllMissed(h: Hasher, t: seq<Element>, e: Element)
    requires forall k :: 0 <= k < 8 ==> var loc := Locations(h, |t|, e)[k]; loc < |t| && t[loc] != e
    ensures !AtPlace(h, t, e)
  {
    hide Locations;
    forall i: nat | i < |t| && IsPlace(h, |t|, e, i) ensures t[i] != e {
      var k :| 0 <= k < 8 && Locations(h, |t|, e)[k] == i;
    }
  }

  lemma NotLive(h: Hasher, t: seq<Element>, dead: Marks, e: Element)
    requires |dead| == |t| && Placed(h, t, dead) && !AtPlace(h, t, e)
    ensures e !in LiveSet(t, dead)
  {
    hide FoundAt, IsPlace;
    forall i: nat | i < |t| && !dead[i] ensures t[i] != e {
      FoundOnce(h, t, t[i], i, i);
    }
  }

  lemma LiveHolds(t: seq<Element>, dead: Marks, i: nat)
    requires |dead| == |t| && i < |t| && !dead[i]
    ensures t[i] in LiveSet(t, dead)
  {
  }

  lemma NoneYoung(t: seq<Element>, dead: Marks, epoch: Marks)
    requires |t| == |dead| == |epoch| && forall i :: 0 <= i < |epoch| ==> !epoch[i]
    ensures YoungSet(t, dead, epoch) == {}
  {
  }

  lemma PlaceIs(h: Hasher, size: nat, e: Element, k: nat)
    requires k < 8
    ensures IsPlace(h, size, e, Locations(h, size, e)[k])
  {
  }

  lemma PlaceFits(h: Hasher, size: nat, e: Element, k: nat)
    requires k < 8 && HashesFit(h) && size > 0
    ensures Locations(h, size, e)[k] < size
  {
    LocationInRange(h, size, e, k);
  }

  lemma OneLost(all: set<Element>, young: set<Element>, live: set<Element>, now: set<Element>, e: Element, ep: bool)
    requires live + {e} == all && e !in live && now <= live && now + (if ep then {e} else {}) == young
    ensures Lost(all, young, live, now, e)
  {
  }
}
