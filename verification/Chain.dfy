/** The block index with its skip pointers, and the active chain (src/chain.h, src/chain.cpp). */
module Chain {
  import opened Powers

  // ----- Skip heights -----

  /** The bitwise and of two numbers. */
  function And(a: nat, b: nat): nat {
    if a == 0 || b == 0 then 0 else
    (if a % 2 == 1 && b % 2 == 1 then 1 else 0) + 2 * And(a / 2, b / 2)
  }

  /** `n & (n - 1)`; for 0 that is 0 & -1. */
  function InvertLowestOne(n: nat): nat {
    if n == 0 then 0 else And(n, n - 1)
  }

  lemma {:induction false} AndSelf(n: nat)
    ensures And(n, n) == n
  {
    if n > 0 {
      AndSelf(n / 2);
    }
  }

  /** The lowest 1 bit, and only it, is turned off. */
  lemma {:induction false} InvertLowestOneIs(n: nat, m: nat, k: nat)
    requires n == m * Pow(2, k + 1) + Pow(2, k)
    ensures InvertLowestOne(n) == m * Pow(2, k + 1)
    decreases k
  {
    hide Pow, InvertLowestOne;
    PowNext(2, k);
    if k == 0 {
      PowNone(2);
      OddStep(m);
    } else {
      PowNext(2, k - 1);
      var p, q := Pow(2, k), Pow(2, k - 1);
      var h := m * p + q;
      MulAssoc(m, p, 2);
      InvertLowestOneIs(h, m, k - 1);
      EvenStep(h);
    }
  }

  lemma OddStep(m: nat)
    ensures InvertLowestOne(2 * m + 1) == 2 * m
  {
    AndSelf(m);
  }

  lemma EvenStep(h: nat)
    requires h > 0
    ensures InvertLowestOne(2 * h) == 2 * InvertLowestOne(h)
  {
    assert (2 * h - 1) / 2 == h - 1;
  }

  lemma {:induction false} AndLess(a: nat, b: nat)
    ensures And(a, b) <= b
  {
    if a != 0 && b != 0 {
      AndLess(a / 2, b / 2);
    }
  }

  lemma InvertLowestOneLower(n: nat)
    ensures n > 0 ==> InvertLowestOne(n) < n
  {
    if n > 0 {
      AndLess(n, n - 1);
    }
  }

  /** The height a skip pointer goes to: strictly lower. */
  function GetSkipHeight(height: nat): (h: nat)
    ensures height > 0 ==> h < height
    ensures h <= height
  {
    if height < 2 then 0
    else if height % 2 == 1 then
      InvertLowestOneLower(height - 1);
      InvertLowestOneLower(InvertLowestOne(height - 1));
      InvertLowestOne(InvertLowestOne(height - 1)) + 1
    else
      InvertLowestOneLower(height);
      InvertLowestOne(height)
  }

  /** From an even height the lowest 1 bit is turned off. */
  lemma SkipFromEven(m: nat, k: nat)
    requires k > 0
    ensures GetSkipHeight(m * Pow(2, k + 1) + Pow(2, k)) == m * Pow(2, k + 1)
  {
    hide Pow, InvertLowestOne;
    var n := m * Pow(2, k + 1) + Pow(2, k);
    EvenPower(m, k);
    InvertLowestOneIs(n, m, k);
  }

  lemma EvenPower(m: nat, k: nat)
    requires k > 0
    ensures var n := m * Pow(2, k + 1) + Pow(2, k); n >= 2 && n % 2 == 0
  {
    hide Pow;
    PowNext(2, k);
    PowNext(2, k - 1);
    PowPositive(2, k - 1);
    var q := Pow(2, k - 1);
    assert m * Pow(2, k + 1) + Pow(2, k) == 2 * (m * (2 * q) + q) by {
      MulAssoc(m, 2, 2 * q);
    }
    MulMono(0, m, 2 * q);
  }

  /** From an odd height the two lowest 1 bits above the last one are turned off. */
  lemma SkipFromOdd(m: nat, j: nat, k: nat)
    requires 0 < k < j
    ensures GetSkipHeight(m * Pow(2, j + 1) + Pow(2, j) + Pow(2, k) + 1) == m * Pow(2, j + 1) + 1
    ensures GetSkipHeight(Pow(2, k) + 1) == 1
  {
    hide Pow, InvertLowestOne, GetSkipHeight;
    var high := m * Pow(2, j + 1) + Pow(2, j);
    var h := LowerBits(m, j, k);
    EvenPower(h, k);
    InvertLowestOneIs(high + Pow(2, k), h, k);
    InvertLowestOneIs(high, m, j);
    OddSkip(high + Pow(2, k));
    EvenPower(0, k);
    InvertLowestOneIs(Pow(2, k), 0, k);
    NoLowestOne();
    OddSkip(Pow(2, k));
  }

  lemma OddSkip(n: nat)
    requires n >= 2 && n % 2 == 0
    ensures GetSkipHeight(n + 1) == InvertLowestOne(InvertLowestOne(n)) + 1
  {
    hide InvertLowestOne;
  }

  /** A number whose bits are all above place `k` is a multiple of 2^(k + 1). */
  lemma LowerBits(m: nat, j: nat, k: nat) returns (h: nat)
    requires k < j
    ensures m * Pow(2, j + 1) + Pow(2, j) == h * Pow(2, k + 1)
  {
    hide Pow;
    var rest := j - k - 1;
    var p, q, r := Pow(2, k + 1), Pow(2, rest), Pow(2, rest + 1);
    PowAdd(2, k + 1, rest);
    PowAdd(2, k + 1, rest + 1);
    assert k + 1 + rest == j && k + 1 + (rest + 1) == j + 1;
    h := m * r + q;
    MulAssoc(m, r, p);
    MulDistrib(m * r, q, p);
  }

  lemma NoLowestOne()
    ensures InvertLowestOne(0) == 0
  {
  }

  // ----- Blocks -----

  /** An entry of the block index. Its parent and height never change once it is in the index. */
  class Block {
    const hash: nat
    const pprev: Block?
    const nHeight: nat
    var pskip: Block?
    /** The block and everything below it. */
    ghost const line: set<Block>

    ghost predicate Valid()
      decreases nHeight
    {
      if pprev == null then nHeight == 0 && line == {this}
      else nHeight == pprev.nHeight + 1 && line == pprev.line + {this} && pprev.Valid()
    }

    constructor (hash: nat, prev: Block?)
      requires prev != null ==> prev.Valid()
      ensures Valid() && this.hash == hash && pprev == prev && pskip == null
    {
      this.hash, pprev, pskip := hash, prev, null;
      nHeight := if prev == null then 0 else prev.nHeight + 1;
      line := (if prev == null then {} else prev.line) + {this};
    }

    /** The block reached by following `pprev` down to height `h`. */
    function Ancestor(h: nat): (a: Block)
      requires Valid() && h <= nHeight
      ensures a.Valid() && a.nHeight == h
      decreases nHeight
    {
      if h == nHeight then this else pprev.Ancestor(h)
    }

    /** The skip pointer is unset or goes to the ancestor at the skip height. */
    ghost predicate SkipOk()
      requires Valid()
      reads this
    {
      pskip != null ==> pskip == Ancestor(GetSkipHeight(nHeight))
    }

    /** The skip pointers of the block and of everything below it are right. */
    ghost predicate Linked()
      requires Valid()
      reads line
      decreases nHeight
    {
      SkipOk() && (pprev != null ==> pprev.Linked())
    }

    /** Whatever mix of skip and parent pointers is followed, the answer is the block that
        nHeight - height steps along `pprev` reach. */
    method GetAncestor(height: int) returns (r: Block?)
      requires Valid() && Linked()
      ensures r == if 0 <= height <= nHeight then Ancestor(height) else null
    {
      hide GetSkipHeight;
      if height > nHeight || height < 0 {
        return null;
      }
      var walk: Block := this;
      var heightWalk := nHeight;
      while heightWalk > height
        invariant height <= heightWalk <= nHeight && walk == Ancestor(heightWalk)
        invariant Linked()
      {
        LinkedBelow(this, heightWalk);
        var heightSkip := GetSkipHeight(heightWalk);
        var heightSkipPrev := GetSkipHeight(heightWalk - 1);
        if walk.pskip != null && (heightSkip == height ||
          (heightSkip > height && !(heightSkipPrev < heightSkip - 2 && heightSkipPrev >= height)))
        {
          AncestorOfAncestor(this, heightWalk, heightSkip);
          walk := walk.pskip;
          heightWalk := heightSkip;
        } else {
          AncestorOfAncestor(this, heightWalk, heightWalk - 1);
          walk := walk.pprev;
          heightWalk := heightWalk - 1;
        }
      }
      r := walk;
    }

    /** A block is linked once its parent is and its own skip pointer is built. */
    method BuildSkip()
      requires Valid() && (if pprev == null then pskip == null else pprev.Linked())
      modifies this
      ensures Linked()
      ensures pprev != null ==> pskip == Ancestor(GetSkipHeight(nHeight))
    {
      hide GetSkipHeight;
      if pprev != null {
        var skip := pprev.GetAncestor(GetSkipHeight(nHeight));
        NotBelow(pprev, this);
        pskip := skip;
      }
    }
  }

  // ----- Ancestors -----

  lemma {:induction false} AncestorOfAncestor(b: Block, h: nat, g: nat)
    requires b.Valid() && g <= h <= b.nHeight
    ensures b.Ancestor(h).Ancestor(g) == b.Ancestor(g)
    decreases b.nHeight
  {
    if h < b.nHeight {
      AncestorOfAncestor(b.pprev, h, g);
    }
  }

  /** The line of a block is its ancestors, one for each height. */
  lemma {:induction false} LineIs(b: Block, x: Block)
    requires b.Valid()
    ensures x in b.line <==> x.nHeight <= b.nHeight && x == b.Ancestor(x.nHeight)
    decreases b.nHeight
  {
    if b.pprev != null {
      LineIs(b.pprev, x);
      if x == b {
        assert x in b.line;
      }
    }
  }

  lemma NotBelow(p: Block, b: Block)
    requires p.Valid() && b.nHeight > p.nHeight
    ensures b !in p.line
  {
    LineIs(p, b);
  }

  /** The skip pointers below a linked block are right as well. */
  lemma {:induction false} LinkedBelow(b: Block, h: nat)
    requires b.Valid() && b.Linked() && h <= b.nHeight
    ensures b.Ancestor(h).Linked()
    decreases b.nHeight
  {
    if h < b.nHeight {
      LinkedBelow(b.pprev, h);
    }
  }

  // ----- The highest common ancestor -----

  /** The two lines share their block of height `h`. */
  predicate CommonAt(a: Block, b: Block, h: nat)
    requires a.Valid() && b.Valid()
  {
    h <= a.nHeight && h <= b.nHeight && a.Ancestor(h) == b.Ancestor(h)
  }

  /** `r` is the highest block on both lines, and null when there is none. */
  ghost predicate HighestCommon(r: Block?, a: Block, b: Block)
    requires a.Valid() && b.Valid()
  {
    if r == null then forall h: nat :: !CommonAt(a, b, h)
    else
      && CommonAt(a, b, r.nHeight) && r == a.Ancestor(r.nHeight)
      && forall h: nat :: CommonAt(a, b, h) ==> h <= r.nHeight
  }

  /** The answer is null for blocks over different genesis blocks; the final assert holds then too. */
  method LastCommonAncestor(a: Block, b: Block) returns (r: Block?)
    requires a.Valid() && a.Linked() && b.Valid() && b.Linked()
    ensures HighestCommon(r, a, b)
  {
    hide Block.Linked;
    var pa: Block?, pb: Block? := a, b;
    if a.nHeight > b.nHeight {
      pa := a.GetAncestor(b.nHeight);
    } else if b.nHeight > a.nHeight {
      pb := b.GetAncestor(a.nHeight);
    }
    ghost var h: int := pa.nHeight;
    while pa != pb && pa != null && pb != null
      invariant -1 <= h <= a.nHeight && h <= b.nHeight
      invariant if h == -1 then pa == null && pb == null else pa == a.Ancestor(h) && pb == b.Ancestor(h)
      invariant forall k: nat :: k > h ==> !CommonAt(a, b, k)
      decreases h
    {
      if h > 0 {
        AncestorOfAncestor(a, h, h - 1);
        AncestorOfAncestor(b, h, h - 1);
      }
      pa := pa.pprev;
      pb := pb.pprev;
      h := h - 1;
    }
    assert pa == pb;
    r := pa;
  }

  // ----- Locators -----

  /** How far below the start the entry at place `i` of a locator lies. */
  function Offset(i: nat): nat {
    if i <= 11 then i else 9 + Pow(2, i - 10)
  }

  function StepAt(i: nat): nat {
    if i <= 10 then 1 else Pow(2, i - 10)
  }

  lemma OffsetNext(i: nat)
    ensures Offset(i + 1) == Offset(i) + StepAt(i)
    ensures StepAt(i + 1) == if i + 1 > 10 then 2 * StepAt(i) else StepAt(i)
    ensures StepAt(i) >= 1
  {
    assert Pow(2, 0) == 1 && Pow(2, 1) == 2;
  }

  /** The first distances: ten times one, then one more for each doubling step. */
  lemma Offsets(i: nat)
    ensures i <= 11 ==> Offset(i) == i
    ensures Offset(12) == 13 && Offset(13) == 17 && Offset(14) == 25
    ensures i >= 11 ==> Offset(i + 1) - Offset(i) == 2 * (Offset(i) - Offset(i - 1))
  {
    assert Pow(2, 2) == 4 && Pow(2, 3) == 8 && Pow(2, 4) == 16;
    OffsetNext(i);
    if i >= 11 {
      OffsetNext(i - 1);
    }
  }

  function HeightAt(top: nat, i: nat): (h: nat)
    ensures h <= top
  {
    if Offset(i) >= top then 0 else top - Offset(i)
  }

  lemma {:induction false} OffsetMono(i: nat, j: nat)
    requires i <= j
    ensures Offset(i) <= Offset(j)
  {
    if i < j {
      OffsetMono(i, j - 1);
      OffsetNext(j - 1);
    }
  }

  function BitLength(n: nat): nat {
    if n == 0 then 0 else 1 + BitLength(n / 2)
  }

  lemma {:induction false} BitLengthBound(n: nat)
    ensures n < Pow(2, BitLength(n))
  {
    if n > 0 {
      BitLengthBound(n / 2);
    }
  }

  /** A locator's length is logarithmic: place 10 + bitlength(height) is at genesis. */
  lemma LocatorShort(top: nat, i: nat)
    requires i > 0 && HeightAt(top, i - 1) > 0
    ensures i + 1 <= 11 + BitLength(top)
  {
    BitLengthBound(top);
    var n := BitLength(top);
    if i - 1 >= 10 + n {
      OffsetMono(10 + n, i - 1);
    }
  }

  /** The blocks whose hashes a locator lists: ancestors of `start` in strictly descending
      order, ten single steps and then doubling ones, down to genesis. */
  ghost predicate IsLocator(have: seq<Block>, start: Block)
    requires start.Valid()
  {
    && have != [] && have[0] == start
    && (forall i :: 0 <= i < |have| ==> have[i] == start.Ancestor(HeightAt(start.nHeight, i)))
    && (forall i, j :: 0 <= i < j < |have| ==> have[i].nHeight > have[j].nHeight)
    && have[|have| - 1].nHeight == 0
    && |have| <= 11 + BitLength(start.nHeight)
  }

  function HashesOf(blocks: seq<Block>): (hashes: seq<nat>)
    ensures |hashes| == |blocks| && forall i :: 0 <= i < |blocks| ==> hashes[i] == blocks[i].hash
  {
    seq(|blocks|, i requires 0 <= i < |blocks| => blocks[i].hash)
  }

  lemma HeightNext(top: nat, i: nat)
    requires HeightAt(top, i) > 0
    ensures var h := HeightAt(top, i);
      HeightAt(top, i + 1) == (if h - StepAt(i) < 0 then 0 else h - StepAt(i)) < h
  {
    OffsetNext(i);
  }

  // ----- The active chain -----

  /** A place holds a block of that height whose parent is one place below. */
  ghost predicate PlaceOk(v: seq<Block?>, i: nat)
    requires i < |v|
  {
    v[i] != null && v[i].Valid() && v[i].nHeight == i && v[i].pprev == if i == 0 then null else v[i - 1]
  }

  ghost predicate ChainOk(v: seq<Block?>) {
    forall i :: 0 <= i < |v| ==> PlaceOk(v, i)
  }

  /** Every place holds the ancestor of every place above it. */
  lemma {:induction false} PlaceLine(v: seq<Block?>, i: nat, h: nat)
    requires ChainOk(v) && h <= i < |v|
    ensures v[i] != null && v[i].Valid() && v[i].nHeight == i && v[h] == v[i].Ancestor(h)
    decreases i
  {
    assert PlaceOk(v, i);
    if h < i {
      PlaceLine(v, i - 1, h);
    }
  }

  lemma LinePlaces(v: seq<Block?>, tip: Block)
    requires tip.Valid() && |v| == tip.nHeight + 1 && forall i :: 0 <= i < |v| ==> v[i] == tip.Ancestor(i)
    ensures ChainOk(v)
  {
    forall i | 0 <= i < |v| ensures PlaceOk(v, i) {
      assert v[i] == tip.Ancestor(i);
      if i > 0 {
        AncestorOfAncestor(tip, i, i - 1);
      }
    }
  }

  lemma NoPlaces()
    ensures ChainOk([])
  {
  }

  /** `std::vector::resize` of a vector of pointers. */
  function Resized(v: seq<Block?>, n: nat): (r: seq<Block?>)
    ensures |r| == n && forall i :: 0 <= i < n ==> r[i] == if i < |v| then v[i] else null
  {
    if n <= |v| then v[..n] else v + seq(n - |v|, _ => null)
  }

  class ActiveChain {
    var vChain: seq<Block?>

    ghost predicate Valid()
      reads this
    {
      ChainOk(vChain)
    }

    constructor ()
      ensures Valid() && vChain == []
    {
      vChain := [];
    }

    function Tip(): (b: Block?)
      reads this
    {
      if |vChain| > 0 then vChain[|vChain| - 1] else null
    }

    function At(h: int): Block?
      reads this
    {
      if h < 0 || h >= |vChain| then null else vChain[h]
    }

    predicate Contains(b: Block)
      reads this
    {
      At(b.nHeight) == b
    }

    function Height(): int
      reads this
    {
      |vChain| - 1
    }

    /** A block is in the chain exactly when it is on the tip's line. */
    lemma ContainsLine(b: Block)
      requires Valid() && b.Valid()
      ensures Contains(b) <==> vChain != [] && Tip() != null && Tip().Valid() && b in Tip().line
    {
      if vChain != [] {
        PlaceLine(vChain, |vChain| - 1, 0);
        LineIs(Tip(), b);
        if b.nHeight < |vChain| {
          PlaceLine(vChain, |vChain| - 1, b.nHeight);
        }
      }
    }

    /** After any call the chain is the tip's line, although the loop stops at the first place
        that is already right. */
    method SetTip(tip: Block?)
      requires Valid() && (tip != null ==> tip.Valid())
      modifies this
      ensures Valid() && Tip() == tip
      ensures tip != null ==> |vChain| == tip.nHeight + 1 && forall h :: 0 <= h <= tip.nHeight ==> vChain[h] == tip.Ancestor(h)
    {
      hide ChainOk;
      if tip == null {
        vChain := [];
        NoPlaces();
        return;
      }
      var n := tip.nHeight + 1;
      ghost var before := vChain;
      vChain := Resized(vChain, n);
      var b: Block? := tip;
      ghost var h: int := tip.nHeight;
      while b != null && vChain[b.nHeight] != b
        invariant -1 <= h < n == |vChain|
        invariant if b == null then h == -1 else h >= 0 && b == tip.Ancestor(h)
        invariant forall i :: h < i < n ==> vChain[i] == tip.Ancestor(i)
        invariant forall i :: 0 <= i <= h ==> vChain[i] == if i < |before| then before[i] else null
        decreases h
      {
        vChain := vChain[b.nHeight := b];
        if h > 0 {
          AncestorOfAncestor(tip, h, h - 1);
        }
        b := b.pprev;
        h := h - 1;
      }
      forall i: nat | i <= h ensures vChain[i] == tip.Ancestor(i) {
        PlaceLine(before, h, i);
        AncestorOfAncestor(tip, h, i);
      }
      LinePlaces(vChain, tip);
    }

    /** The last block that the chain and `b`'s line have in common. */
    method FindFork(b: Block?) returns (r: Block?)
      requires Valid() && (b != null ==> b.Valid() && b.Linked())
      ensures b == null ==> r == null
      ensures b != null && r == null ==> forall h: nat :: h <= b.nHeight ==> !Contains(b.Ancestor(h))
      ensures r != null ==> b != null && r.nHeight <= b.nHeight && r == b.Ancestor(r.nHeight) && Contains(r)
      ensures r != null ==> forall h: nat :: h <= b.nHeight && Contains(b.Ancestor(h)) ==> h <= r.nHeight
    {
      hide ChainOk;
      if b == null {
        return null;
      }
      r := b;
      if b.nHeight > Height() {
        r := b.GetAncestor(Height());
      }
      ghost var h: int := if r == null then -1 else r.nHeight;
      while r != null && !Contains(r)
        invariant -1 <= h <= b.nHeight
        invariant if r == null then h == -1 else h >= 0 && r == b.Ancestor(h)
        invariant forall i :: h < i <= b.nHeight ==> !Contains(b.Ancestor(i))
        decreases h
      {
        if h > 0 {
          AncestorOfAncestor(b, h, h - 1);
        }
        r := r.pprev;
        h := h - 1;
      }
    }

    /** The locator of a block, by default the tip; an empty chain gives an empty one. */
    method GetLocator(b: Block?) returns (hashes: seq<nat>, ghost have: seq<Block>)
      requires Valid() && (b != null ==> b.Valid() && b.Linked())
      requires b == null && Tip() != null ==> Tip().Valid() && Tip().Linked()
      ensures hashes == HashesOf(have) && (hashes == [] <==> b == null && vChain == [])
      ensures b != null ==> IsLocator(have, b)
      ensures b == null && Tip() != null ==> IsLocator(have, Tip())
    {
      hide IsLocator, Block.Linked;
      TipPlace(vChain);
      var index: Block? := if b == null then Tip() else b;
      if index == null {
        return [], [];
      }
      hashes, have := LocatorFrom(index);
    }

    /** `have` are the blocks whose hashes are listed. */
    method LocatorFrom(start: Block) returns (hashes: seq<nat>, ghost have: seq<Block>)
      requires Valid() && start.Valid() && start.Linked()
      ensures IsLocator(have, start) && have != [] && hashes == HashesOf(have)
    {
      hide Offset, StepAt, BitLength, HeightAt, ChainOk;
      hashes, have := [], [];
      var nStep := 1;
      var index: Block := start;
      ghost var top := start.nHeight;
      FirstEntry(top);
      while true
        invariant index == start.Ancestor(HeightAt(top, |have|))
        invariant start.Linked() && Valid()
        invariant nStep == StepAt(|have|)
        invariant Entries(have, start) && hashes == HashesOf(have)
        invariant forall i :: 0 <= i < |have| ==> HeightAt(top, i) > 0
        decreases index.nHeight
      {
        hashes := hashes + [index.hash];
        have := have + [index];
        if index.nHeight == 0 {
          LocatorDone(have, start);
          return;
        }
        HeightNext(top, |have| - 1);
        OffsetNext(|have| - 1);
        var nHeight := if index.nHeight - nStep < 0 then 0 else index.nHeight - nStep;
        AncestorOfAncestor(start, index.nHeight, nHeight);
        if Contains(index) {
          PlaceLine(vChain, index.nHeight, nHeight);
          index := At(nHeight);
        } else {
          LinkedBelow(start, index.nHeight);
          index := index.GetAncestor(nHeight);
        }
        if |hashes| > 10 {
          nStep := nStep * 2;
        }
      }
    }
  }

  lemma TipPlace(v: seq<Block?>)
    requires ChainOk(v)
    ensures v != [] ==> v[|v| - 1] != null
  {
    if v != [] {
      assert PlaceOk(v, |v| - 1);
    }
  }

  /** The entries of a locator so far. */
  ghost predicate Entries(have: seq<Block>, start: Block)
    requires start.Valid()
  {
    forall i :: 0 <= i < |have| ==> have[i] == start.Ancestor(HeightAt(start.nHeight, i))
  }

  lemma {:induction false} HeightsDescend(top: nat, i: nat, j: nat)
    requires i < j && HeightAt(top, i) > 0
    ensures HeightAt(top, j) < HeightAt(top, i)
  {
    HeightNext(top, i);
    OffsetMono(i + 1, j);
  }

  lemma LocatorDone(have: seq<Block>, start: Block)
    requires start.Valid() && have != [] && Entries(have, start) && have[|have| - 1].nHeight == 0
    requires forall i :: 0 <= i < |have| - 1 ==> HeightAt(start.nHeight, i) > 0
    ensures IsLocator(have, start)
  {
    hide Offset, BitLength;
    var top := start.nHeight;
    FirstEntry(top);
    assert have[0] == start.Ancestor(HeightAt(top, 0));
    forall i, j | 0 <= i < j < |have| ensures have[i].nHeight > have[j].nHeight {
      HeightsDescend(top, i, j);
      assert have[i] == start.Ancestor(HeightAt(top, i));
      assert have[j] == start.Ancestor(HeightAt(top, j));
    }
    Shortness(top, |have|);
  }

  lemma FirstEntry(top: nat)
    ensures HeightAt(top, 0) == top && StepAt(0) == 1
  {
  }

  lemma Shortness(top: nat, n: nat)
    requires n >= 1 && forall i: nat :: i < n - 1 ==> HeightAt(top, i) > 0
    ensures n <= 11 + BitLength(top)
  {
    if n >= 2 {
      LocatorShort(top, n - 1);
    }
  }
}
