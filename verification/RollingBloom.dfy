/** The rolling Bloom filter (src/bloom.cpp:205-310): every position holds a two-bit
    generation, and entering a new generation wipes what is three generations old. */
module RollingBloom {
  import Powers

  // ----- 64-bit words, bit by bit -----

  type Word = w: seq<bool> | |w| == 64 witness seq(64, _ => false)

  function And(x: Word, y: Word): (r: Word)
    ensures forall b :: 0 <= b < 64 ==> r[b] == (x[b] && y[b])
  {
    seq(64, b requires 0 <= b < 64 => x[b] && y[b])
  }

  function Or(x: Word, y: Word): (r: Word)
    ensures forall b :: 0 <= b < 64 ==> r[b] == (x[b] || y[b])
  {
    seq(64, b requires 0 <= b < 64 => x[b] || y[b])
  }

  function Xor(x: Word, y: Word): (r: Word)
    ensures forall b :: 0 <= b < 64 ==> r[b] == (x[b] != y[b])
  {
    seq(64, b requires 0 <= b < 64 => x[b] != y[b])
  }

  function Not(x: Word): (r: Word)
    ensures forall b :: 0 <= b < 64 ==> r[b] == !x[b]
  {
    seq(64, b requires 0 <= b < 64 => !x[b])
  }

  /** `0 - v` for a bit `v`. */
  function Mask(v: bool): (r: Word)
    ensures forall b :: 0 <= b < 64 ==> r[b] == v
  {
    seq(64, _ => v)
  }

  /** `v << bit` for a bit `v`. */
  function Shl(v: bool, bit: nat): (r: Word)
    ensures forall b :: 0 <= b < 64 ==> r[b] == (v && b == bit)
  {
    seq(64, b => v && b == bit)
  }

  // ----- Cells -----

  /** A generation number 0 to 3 in two bits, the low one first. */
  function Label(low: bool, high: bool): nat {
    (if low then 1 else 0) + (if high then 2 else 0)
  }

  predicate LowBit(g: nat) {
    g % 2 == 1
  }

  predicate HighBit(g: nat) {
    g / 2 % 2 == 1
  }

  lemma LabelOf(g: nat)
    requires g < 4
    ensures Label(LowBit(g), HighBit(g)) == g
  {
  }

  type Words = seq<Word>

  /** The generation at bit `b` of word pair `w`. */
  function CellAt(data: Words, w: nat, b: nat): nat
    requires 2 * w + 1 < |data| && b < 64
  {
    var low, high := data[2 * w], data[2 * w + 1];
    Label(low[b], high[b])
  }

  /** A wiped word pair: cells of generation `g` become 0. */
  lemma WipedCell(p1: Word, p2: Word, g: nat, b: nat)
    requires 1 <= g <= 3 && b < 64
    ensures var mask := Or(Xor(p1, Mask(LowBit(g))), Xor(p2, Mask(HighBit(g))));
      Label(And(p1, mask)[b], And(p2, mask)[b]) == if Label(p1[b], p2[b]) == g then 0 else Label(p1[b], p2[b])
  {
    LabelOf(g);
  }

  /** A written word pair: the cell at `bit` becomes `g`. */
  function Written(p: Word, v: bool, bit: nat): Word {
    Or(And(p, Not(Shl(true, bit))), Shl(v, bit))
  }

  lemma WrittenCell(p1: Word, p2: Word, g: nat, bit: nat, b: nat)
    requires g < 4 && b < 64
    ensures Label(Written(p1, LowBit(g), bit)[b], Written(p2, HighBit(g), bit)[b])
      == if b == bit then g else Label(p1[b], p2[b])
  {
    LabelOf(g);
  }

  // ----- Positions of a key -----

  type Key = nat

  /** The hash number `n` of a key under a tweak. */
  type Hasher = (nat, nat, Key) -> nat

  ghost predicate HashesFit(h: Hasher) {
    forall n, tweak, key :: h(n, tweak, key) < 0x1_0000_0000
  }

  function FastMod(x: nat, n: nat): nat {
    x * n / 0x1_0000_0000
  }

  lemma FastModLess(x: nat, n: nat)
    requires x < 0x1_0000_0000 && n > 0
    ensures FastMod(x, n) < n
  {
    assert x * n <= (0x1_0000_0000 - 1) * n;
  }

  /** The word pair and the bit that a hash selects. */
  function WordOf(x: nat, size: nat): nat {
    FastMod(x, size) / 2
  }

  function BitOf(x: nat): (b: nat)
    ensures b < 64
  {
    x % 64
  }

  lemma WordFits(x: nat, size: nat)
    requires x < 0x1_0000_0000 && size > 0 && size % 2 == 0
    ensures 2 * WordOf(x, size) + 1 < size
  {
    FastModLess(x, size);
  }

  /** Two hashes agree modulo 64 and in the half of their multiply-shift position. */
  predicate SameCell(x: nat, y: nat, size: nat) {
    x % 64 == y % 64 && x * size / 0x1_0000_0000 / 2 == y * size / 0x1_0000_0000 / 2
  }

  lemma SameCellIs(x: nat, y: nat, size: nat)
    ensures SameCell(x, y, size) <==> WordOf(x, size) == WordOf(y, size) && BitOf(x) == BitOf(y)
  {
  }

  lemma CeilBounds(start: nat, size: nat)
    requires size > 0
    ensures var lo := (start + size - 1) / size; start <= lo * size < start + size
  {
    var n := start + size - 1;
    assert n == n / size * size + n % size;
  }

  lemma InPair(x: nat, size: nat, w: nat)
    requires 2 * w + 1 < size && 2 * w * 0x1_0000_0000 <= x * size < (2 * w + 1) * 0x1_0000_0000
    ensures x < 0x1_0000_0000 && WordOf(x, size) == w
  {
    Powers.DivModIs(x * size, 0x1_0000_0000, 2 * w, x * size - 2 * w * 0x1_0000_0000);
    if x >= 0x1_0000_0000 {
      Powers.MulMono(0x1_0000_0000, x, size);
      assert false;
    }
  }

  /** The hash from `lo` on that selects bit `b`. */
  lemma NextWithBit(lo: nat, b: nat) returns (x: nat)
    requires b < 64
    ensures lo <= x <= lo + 63 && BitOf(x) == b
  {
    x := lo + (b - lo) % 64;
  }

  /** Every cell of an array of up to 2^26 words is selected by some 32-bit hash. */
  lemma EveryCellSelected(size: nat, w: nat, b: nat)
    requires size <= 0x400_0000 && 2 * w + 1 < size && b < 64
    ensures exists x: nat :: x < 0x1_0000_0000 && WordOf(x, size) == w && BitOf(x) == b
  {
    hide WordOf, BitOf;
    var start := 2 * w * 0x1_0000_0000;
    CeilBounds(start, size);
    var lo := (start + size - 1) / size;
    var x := NextWithBit(lo, b);
    Powers.MulMono(x, lo + 63, size);
    Powers.MulMono(lo, x, size);
    Powers.MulDistrib(lo, 63, size);
    InPair(x, size, w);
  }

  /** One of the first `funcs` hashes of the key selects the cell. */
  ghost predicate Selects(h: Hasher, tweak: nat, size: nat, funcs: nat, key: Key, w: nat, b: nat) {
    exists n: nat :: n < funcs && SelectsBy(h, tweak, size, key, n, w, b)
  }

  predicate SelectsBy(h: Hasher, tweak: nat, size: nat, key: Key, n: nat, w: nat, b: nat) {
    var x := h(n, tweak, key);
    WordOf(x, size) == w && BitOf(x) == b
  }

  const MAX_ELEMENTS := 0xffff_ffff

  /** Half the elements to remember, in 32-bit arithmetic. */
  function PerGeneration(elements: nat): nat {
    (elements + 1) % 0x1_0000_0000 / 2
  }

  lemma PerGenerationIs(elements: nat)
    requires elements <= MAX_ELEMENTS
    ensures PerGeneration(elements) > 0 <==> 0 < elements < MAX_ELEMENTS
    ensures elements <= 2 * PerGeneration(elements) <= elements + 1 <==> elements < MAX_ELEMENTS
  {
    if elements < MAX_ELEMENTS {
      Powers.SmallMod(elements + 1, 0x1_0000_0000);
    }
  }

  // ----- What a history means -----

  datatype Params = Params(h: Hasher, tweak: nat, size: nat, funcs: nat, perGeneration: nat)

  ghost predicate Hits(p: Params, key: Key, w: nat, b: nat) {
    Selects(p.h, p.tweak, p.size, p.funcs, key, w, b)
  }

  /** The last entry of the history that selects the cell, or -1. */
  ghost function LastHit(p: Params, log: seq<Key>, w: nat, b: nat): (i: int)
    ensures -1 <= i < |log|
    ensures i >= 0 ==> Hits(p, log[i], w, b)
    ensures forall j :: i < j < |log| ==> !Hits(p, log[j], w, b)
  {
    if log == [] then -1
    else if Hits(p, log[|log| - 1], w, b) then |log| - 1
    else LastHit(p, log[..|log| - 1], w, b)
  }

  /** The generation, counted on without end, of the entry at place `i`. */
  function GenerationOf(i: nat, perGeneration: nat): nat
    requires perGeneration > 0
  {
    i / perGeneration + 1
  }

  /** The two-bit name of a generation. */
  function Name(generation: nat): nat
    requires generation >= 1
  {
    (generation - 1) % 3 + 1
  }

  /** What a cell must hold in generation `now`: the name of the generation that last wrote it,
      unless that was three or more generations ago. */
  ghost function Wanted(p: Params, log: seq<Key>, now: nat, w: nat, b: nat): nat
    requires p.perGeneration > 0
  {
    var i := LastHit(p, log, w, b);
    if i < 0 || GenerationOf(i, p.perGeneration) + 3 <= now then 0 else Name(GenerationOf(i, p.perGeneration))
  }

  ghost predicate CellsOk(p: Params, data: Words, log: seq<Key>, now: nat)
    requires |data| == p.size && p.perGeneration > 0
  {
    forall w: nat, b: nat :: 2 * w + 1 < |data| && b < 64 ==> CellAt(data, w, b) == Wanted(p, log, now, w, b)
  }

  /** Entering generation `now + 1`: exactly the cells with its name are too old. */
  lemma WipeRight(p: Params, log: seq<Key>, now: nat, w: nat, b: nat)
    requires p.perGeneration > 0 && now >= 1
    requires forall i :: 0 <= i < |log| ==> GenerationOf(i, p.perGeneration) <= now
    ensures var old_ := Wanted(p, log, now, w, b);
      Wanted(p, log, now + 1, w, b) == if old_ == Name(now + 1) then 0 else old_
  {
    hide LastHit, GenerationOf;
    var i := LastHit(p, log, w, b);
    if i >= 0 {
      var g := GenerationOf(i, p.perGeneration);
      assert g <= now;
    }
  }

  lemma WriteRight(p: Params, log: seq<Key>, key: Key, now: nat, w: nat, b: nat)
    requires p.perGeneration > 0 && GenerationOf(|log|, p.perGeneration) == now
    ensures Wanted(p, log + [key], now, w, b) == if Hits(p, key, w, b) then Name(now) else Wanted(p, log, now, w, b)
  {
    hide GenerationOf, Hits;
    var l := log + [key];
    assert l[..|log|] == log;
  }

  /** A cell is set exactly if an entry of the last three generations selects it. */
  lemma WantedExact(p: Params, log: seq<Key>, now: nat, w: nat, b: nat)
    requires p.perGeneration > 0
    ensures Wanted(p, log, now, w, b) != 0 <==>
      exists i: nat :: i < |log| && GenerationOf(i, p.perGeneration) + 3 > now && Hits(p, log[i], w, b)
  {
    hide LastHit, GenerationOf, Hits;
    var i := LastHit(p, log, w, b);
    if j: nat :| j < |log| && GenerationOf(j, p.perGeneration) + 3 > now && Hits(p, log[j], w, b) {
      assert j <= i;
      GenerationMono(j, i, p.perGeneration);
    }
  }

  lemma GenerationMono(i: nat, j: nat, per: nat)
    requires i <= j && per > 0
    ensures GenerationOf(i, per) <= GenerationOf(j, per)
  {
    Powers.DivMono(i, j, per);
  }

  // ----- The filter -----

  class RollingBloomFilter {
    const h: Hasher
    const funcs: nat
    const perGeneration: nat
    const data: array<Word>
    var tweak: nat
    var entriesThisGeneration: nat
    var nGeneration: nat
    /** The keys inserted since the last reset. */
    ghost var log: seq<Key>

    ghost function P(): Params
      reads this
    {
      Params(h, tweak, data.Length, funcs, perGeneration)
    }

    /** The generation the filter is in, counted on without end. */
    ghost function Now(): nat
      reads this
      requires perGeneration > 0
    {
      if log == [] then 1 else GenerationOf(|log| - 1, perGeneration)
    }

    ghost predicate Valid()
      reads this, data
    {
      && HashesFit(h) && perGeneration > 0 && data.Length > 0 && data.Length % 2 == 0
      && nGeneration == Name(Now())
      && entriesThisGeneration + (Now() - 1) * perGeneration == |log|
      && entriesThisGeneration <= perGeneration
      && CellsOk(P(), data[..], log, Now())
    }

    /** `elements` is how many keys are to be remembered, `pairs` the number of word pairs. For no
        elements there are no pairs, and such a filter can only be made and reset. The same goes
        for the greatest 32-bit number, where the sum under the quotient wraps around. */
    constructor (h: Hasher, funcs: nat, elements: nat, pairs: nat, tweak: nat)
      requires HashesFit(h) && elements <= MAX_ELEMENTS && (PerGeneration(elements) == 0 <==> pairs == 0)
      ensures log == [] && fresh(data) && data.Length == 2 * pairs
      ensures Valid() <==> 0 < elements < MAX_ELEMENTS
      ensures elements <= 2 * perGeneration <= elements + 1 <==> elements < MAX_ELEMENTS
    {
      hide PerGeneration, CellsOk, Mask;
      PerGenerationIs(elements);
      this.h, this.funcs := h, funcs;
      perGeneration := PerGeneration(elements);
      data := new Word[2 * pairs](_ => Mask(false));
      new;
      Reset(tweak);
    }

    method Reset(newTweak: nat)
      requires HashesFit(h) && data.Length % 2 == 0
      modifies this, data
      ensures log == [] && tweak == newTweak && entriesThisGeneration == 0 && nGeneration == 1
      ensures forall j :: 0 <= j < data.Length ==> data[j] == Mask(false)
      ensures perGeneration > 0 && data.Length > 0 ==> Valid()
    {
      tweak := newTweak;
      entriesThisGeneration := 0;
      nGeneration := 1;
      log := [];
      for i := 0 to data.Length
        modifies data
        invariant forall j :: 0 <= j < i ==> data[j] == Mask(false)
      {
        data[i] := Mask(false);
      }
      if perGeneration > 0 {
        ZeroCells(P(), data[..]);
      }
    }

    /** Cells with generation name `g` become unset. */
    method Wipe(g: nat)
      requires 1 <= g <= 3 && data.Length % 2 == 0
      modifies data
      ensures forall w: nat, b: nat :: 2 * w + 1 < data.Length && b < 64 ==>
        CellAt(data[..], w, b) == WipedTo(CellAt(old(data[..]), w, b), g)
    {
      hide Label, Mask, And, Or, Xor;
      ghost var was := data[..];
      for k := 0 to data.Length / 2
        invariant forall j :: 2 * k <= j < data.Length ==> data[j] == was[j]
        invariant forall w: nat, b: nat :: w < k && b < 64 ==> CellAt(data[..], w, b) == WipedTo(CellAt(was, w, b), g)
      {
        var p1, p2 := data[2 * k], data[2 * k + 1];
        var mask := Or(Xor(p1, Mask(LowBit(g))), Xor(p2, Mask(HighBit(g))));
        data[2 * k] := And(p1, mask);
        data[2 * k + 1] := And(p2, mask);
        forall b: nat | b < 64 ensures CellAt(data[..], k, b) == WipedTo(CellAt(was, k, b), g) {
          WipedCell(p1, p2, g, b);
        }
      }
    }

    /** Writes generation `g` into all cells of a key. */
    method Mark(key: Key, g: nat)
      requires HashesFit(h) && data.Length > 0 && data.Length % 2 == 0 && g < 4
      modifies data
      ensures forall w: nat, b: nat :: 2 * w + 1 < data.Length && b < 64 ==>
        CellAt(data[..], w, b) == if Hits(P(), key, w, b) then g else CellAt(old(data[..]), w, b)
    {
      hide Label, Written, WordOf, BitOf;
      ghost var was := data[..];
      for n := 0 to funcs
        invariant forall w: nat, b: nat :: 2 * w + 1 < data.Length && b < 64 ==>
          CellAt(data[..], w, b) == if Selects(h, tweak, data.Length, n, key, w, b) then g else CellAt(was, w, b)
      {
        var x := h(n, tweak, key);
        WordFits(x, data.Length);
        var w, bit := WordOf(x, data.Length), BitOf(x);
        ghost var before := data[..];
        var p1, p2 := data[2 * w], data[2 * w + 1];
        data[2 * w] := Written(p1, LowBit(g), bit);
        data[2 * w + 1] := Written(p2, HighBit(g), bit);
        forall v: nat, b: nat | 2 * v + 1 < data.Length && b < 64
          ensures CellAt(data[..], v, b) == if Selects(h, tweak, data.Length, n + 1, key, v, b) then g else CellAt(was, v, b)
        {
          WrittenCell(p1, p2, g, bit, b);
          SelectsNext(h, tweak, data.Length, n, key, v, b);
        }
      }
    }

    method Insert(key: Key)
      requires Valid()
      modifies this, data
      ensures Valid() && log == old(log) + [key] && tweak == old(tweak)
    {
      hide CellsOk, GenerationOf, Name, Hits;
      ghost var now := Now();
      GenerationBounds(|log|, now, entriesThisGeneration, perGeneration);
      if entriesThisGeneration == perGeneration {
        entriesThisGeneration := 0;
        nGeneration := nGeneration + 1;
        if nGeneration == 4 {
          nGeneration := 1;
        }
        NextName(now);
        Wipe(nGeneration);
        WipedCells(P(), old(data[..]), data[..], log, now);
        now := now + 1;
      }
      entriesThisGeneration := entriesThisGeneration + 1;
      NamesFit(now);
      ghost var before := data[..];
      Mark(key, nGeneration);
      MarkedCells(P(), before, data[..], log, key, now);
      log := log + [key];
    }

    /** Entry `i` was inserted less than three generations ago. */
    ghost predicate Recent(i: nat)
      reads this
      requires perGeneration > 0
    {
      i < |log| && i / perGeneration + 3 > (|log| - 1) / perGeneration
    }

    /** Some hash of a recent entry selects the same cell as hash `x`. */
    ghost predicate Covered(x: nat)
      reads this
      requires perGeneration > 0
    {
      exists i: nat, m: nat :: m < funcs && Recent(i) && SameCell(h(m, tweak, log[i]), x, data.Length)
    }

    /** The answer in terms of the history: true if and only if every hash of the key selects the
        cell that some hash of a recent entry selects. So recent keys are always found. */
    method Contains(key: Key) returns (found: bool)
      requires Valid()
      ensures found <==> forall n: nat :: n < funcs ==> Covered(h(n, tweak, key))
      ensures forall i: nat :: Recent(i) && log[i] == key ==> found
    {
      hide Wanted, WordOf, BitOf, Label, GenerationOf, Name, Recent, Covered, Hits;
      for n := 0 to funcs
        invariant forall m: nat :: m < n ==> Covered(h(m, tweak, key))
      {
        var x := h(n, tweak, key);
        WordFits(x, data.Length);
        var w, bit := WordOf(x, data.Length), BitOf(x);
        CoveredExact(key, n);
        assert CellAt(data[..], w, bit) == Wanted(P(), log, Now(), w, bit);
        UnsetCell(data[2 * w], data[2 * w + 1], bit);
        if !Or(data[2 * w], data[2 * w + 1])[bit] {
          assert !Covered(h(n, tweak, key));
          CoveredRecent(key);
          return false;
        }
      }
      found := true;
    }

    lemma CoveredRecent(key: Key)
      requires perGeneration > 0
      ensures forall i: nat, n: nat :: Recent(i) && log[i] == key && n < funcs ==> Covered(h(n, tweak, key))
    {
      forall i: nat, n: nat | Recent(i) && log[i] == key && n < funcs ensures Covered(h(n, tweak, key)) {
        assert SameCell(h(n, tweak, log[i]), h(n, tweak, log[i]), data.Length);
      }
    }

    /** A cell holds a generation exactly if it was written recently. */
    lemma CoveredExact(key: Key, n: nat)
      requires Valid() && n < funcs
      ensures var x := h(n, tweak, key); var w, b := WordOf(x, data.Length), BitOf(x);
        && 2 * w + 1 < data.Length && b < 64 && Hits(P(), key, w, b)
        && (Wanted(P(), log, Now(), w, b) != 0 <==> Covered(x))
    {
      hide Wanted, WordOf, BitOf, CellsOk, SameCell;
      var x := h(n, tweak, key);
      var w, b := WordOf(x, data.Length), BitOf(x);
      WordFits(x, data.Length);
      assert SelectsBy(h, tweak, data.Length, key, n, w, b);
      WantedExact(P(), log, Now(), w, b);
      forall m: nat, k: Key ensures SelectsBy(h, tweak, data.Length, k, m, w, b) <==> SameCell(h(m, tweak, k), x, data.Length) {
        SameCellIs(h(m, tweak, k), x, data.Length);
      }
      if Wanted(P(), log, Now(), w, b) != 0 {
        var i: nat :| i < |log| && GenerationOf(i, perGeneration) + 3 > Now() && Hits(P(), log[i], w, b);
        var m: nat :| m < funcs && SelectsBy(h, tweak, data.Length, log[i], m, w, b);
        assert Recent(i) && SameCell(h(m, tweak, log[i]), x, data.Length);
      }
      if Covered(x) {
        var i: nat, m: nat :| m < funcs && Recent(i) && SameCell(h(m, tweak, log[i]), x, data.Length);
        assert SelectsBy(h, tweak, data.Length, log[i], m, w, b);
        assert Hits(P(), log[i], w, b);
      }
    }

    /** The last 2 * perGeneration keys, and so the last `elements`, are always found. */
    lemma LastOnes(i: nat)
      requires Valid() && i < |log| <= i + 2 * perGeneration
      ensures Recent(i)
    {
      RecentGeneration(i, |log|, perGeneration);
    }
  }

  function WipedTo(cell: nat, g: nat): nat {
    if cell == g then 0 else cell
  }

  lemma ZeroCells(p: Params, data: Words)
    requires |data| == p.size && p.perGeneration > 0 && forall j :: 0 <= j < |data| ==> data[j] == Mask(false)
    ensures CellsOk(p, data, [], 1)
  {
  }

  lemma SelectsNext(h: Hasher, tweak: nat, size: nat, n: nat, key: Key, w: nat, b: nat)
    ensures Selects(h, tweak, size, n + 1, key, w, b) <==> Selects(h, tweak, size, n, key, w, b) || SelectsBy(h, tweak, size, key, n, w, b)
  {
    hide SelectsBy;
  }

  lemma UnsetCell(p1: Word, p2: Word, b: nat)
    requires b < 64
    ensures Or(p1, p2)[b] <==> Label(p1[b], p2[b]) != 0
  {
  }

  lemma NextName(now: nat)
    requires now >= 1
    ensures Name(now + 1) == if Name(now) + 1 == 4 then 1 else Name(now) + 1
    ensures 1 <= Name(now + 1) <= 3
  {
  }

  lemma NamesFit(now: nat)
    requires now >= 1
    ensures 1 <= Name(now) <= 3
  {
  }

  lemma GenerationIs(i: nat, per: nat, g: nat, r: nat)
    requires per > 0 && i == r + g * per && r < per
    ensures GenerationOf(i, per) == g + 1
  {
    Powers.DivModIs(i, per, g, r);
  }

  /** Generations do not decrease, and the next entry starts one when this one is full. */
  lemma GenerationBounds(n: nat, now: nat, entries: nat, per: nat)
    requires per > 0 && now >= 1 && entries <= per && entries + (now - 1) * per == n
    requires n > 0 ==> now == GenerationOf(n - 1, per)
    ensures GenerationOf(n, per) == if entries == per then now + 1 else now
    ensures forall i :: 0 <= i < n ==> GenerationOf(i, per) <= now
  {
    if entries == per {
      Powers.MulDistrib(now - 1, 1, per);
      GenerationIs(n, per, now, 0);
    } else {
      GenerationIs(n, per, now - 1, entries);
    }
    forall i | 0 <= i < n ensures GenerationOf(i, per) <= now {
      Powers.DivMono(i, n - 1, per);
    }
  }

  lemma RecentGeneration(i: nat, n: nat, per: nat)
    requires per > 0 && i < n <= i + 2 * per
    ensures GenerationOf(i, per) + 3 > GenerationOf(n - 1, per)
  {
    Powers.ModAddMultiple(i, per, 2);
    Powers.DivMono(n - 1, i + 2 * per, per);
  }

  lemma WipedCells(p: Params, before: Words, after: Words, log: seq<Key>, now: nat)
    requires |before| == |after| == p.size && p.perGeneration > 0 && now >= 1 && CellsOk(p, before, log, now)
    requires forall i :: 0 <= i < |log| ==> GenerationOf(i, p.perGeneration) <= now
    requires forall w: nat, b: nat :: 2 * w + 1 < |after| && b < 64 ==>
      CellAt(after, w, b) == WipedTo(CellAt(before, w, b), Name(now + 1))
    ensures CellsOk(p, after, log, now + 1)
  {
    hide Wanted, CellAt, GenerationOf, Name;
    forall w: nat, b: nat | 2 * w + 1 < |after| && b < 64 ensures CellAt(after, w, b) == Wanted(p, log, now + 1, w, b) {
      WipeRight(p, log, now, w, b);
      assert CellAt(before, w, b) == Wanted(p, log, now, w, b);
    }
  }

  lemma MarkedCells(p: Params, before: Words, after: Words, log: seq<Key>, key: Key, now: nat)
    requires |before| == |after| == p.size && p.perGeneration > 0 && CellsOk(p, before, log, now)
    requires now >= 1 && GenerationOf(|log|, p.perGeneration) == now
    requires forall w: nat, b: nat :: 2 * w + 1 < |after| && b < 64 ==>
      CellAt(after, w, b) == if Hits(p, key, w, b) then Name(now) else CellAt(before, w, b)
    ensures CellsOk(p, after, log + [key], now)
  {
    hide Wanted, CellAt, GenerationOf, Name, Hits;
    forall w: nat, b: nat | 2 * w + 1 < |after| && b < 64 ensures CellAt(after, w, b) == Wanted(p, log + [key], now, w, b) {
      WriteRight(p, log, key, now, w, b);
      assert CellAt(before, w, b) == Wanted(p, log, now, w, b);
    }
  }
}
