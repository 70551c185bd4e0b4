/** Every run over a stack of caches of any depth agrees with one plain map of unspent coins. */
module CoinsTheorems {
  import opened CoinsState
  import opened Wrappers

  /** What lies below a layer may change as long as it shows the same coins. */
  lemma SoundFrame(v: View, b: View)
    requires v.Cache? && Sound(v) && Sound(b) && SameCoins(v.base, b)
    ensures Sound(v.(base := b)) && SameCoins(v, v.(base := b))
  {
  }

  // ----- Reading -----

  lemma {:induction false} GetKeeps(v: View, o: OutPoint)
    requires Sound(v)
    ensures var (w, found, coin) := Get(v, o);
      Sound(w) && SameCoins(v, w) && Lookup(v, o) == if found then Unspent(coin) else None
    decreases v, 1
  {
    if v.Cache? {
      FetchKeeps(v, o);
    }
  }

  /** Filling the caches changes no view, and what was filled in is what the view has. */
  lemma {:induction false} FetchKeeps(v: View, o: OutPoint)
    requires v.Cache? && Sound(v)
    ensures var w := Fetch(v, o);
      && Sound(w) && SameCoins(v, w) && SameCoins(v.base, w.base)
      && Lookup(v, o) == if o in w.entries then Unspent(w.entries[o].coin) else None
    decreases v, 0
  {
    if o !in v.entries {
      GetKeeps(v.base, o);
      var (b, found, coin) := Get(v.base, o);
      SoundFrame(v, b);
      var w := Fetch(v, o);
      forall p | p in w.entries ensures EntrySound(w.entries[p], Lookup(w.base, p)) {
        if p in v.entries {
          assert EntrySound(v.entries[p], Lookup(v.base, p));
        }
      }
      forall p ensures Lookup(v, p) == Lookup(w, p) {
        assert Lookup(v.base, p) == Lookup(b, p);
      }
    }
  }

  lemma {:induction false} GetBestKeeps(v: View)
    requires Sound(v)
    ensures Sound(GetBest(v)) && SameCoins(v, GetBest(v)) && BestBlock(GetBest(v)) == BestBlock(v)
    ensures GetBest(v).Cache? ==> v.Cache? && GetBest(v).hash == BestBlock(v)
  {
    if v.Cache? && v.hash == NULL_HASH {
      GetBestKeeps(v.base);
      SoundFrame(v, GetBest(v.base));
    }
  }

  // ----- Writing -----

  /** The entries of the top layer changed at one outpoint only. */
  lemma OneEntryChanged(v: View, w: View, o: OutPoint)
    requires v.Cache? && w.Cache? && w.base == v.base && Sound(v)
    requires forall p :: p != o ==> EntryAt(w.entries, p) == EntryAt(v.entries, p)
    ensures Sound(w) <==> (o in w.entries ==> EntrySound(w.entries[o], Lookup(v.base, o)))
    ensures forall p :: p != o ==> Lookup(w, p) == Lookup(v, p)
  {
    if o in w.entries ==> EntrySound(w.entries[o], Lookup(v.base, o)) {
      forall p | p in w.entries ensures EntrySound(w.entries[p], Lookup(w.base, p)) {
        if p != o {
          assert EntryAt(w.entries, p) == EntryAt(v.entries, p);
          assert EntrySound(v.entries[p], Lookup(v.base, p));
        }
      }
    }
    forall p | p != o ensures Lookup(w, p) == Lookup(v, p) {
      assert EntryAt(w.entries, p) == EntryAt(v.entries, p);
    }
  }

  /** AddCoin throws exactly on a cached unspent coin that it may not overwrite. Otherwise the
      view shows the new coin, and the flags stay right except in one case: no overwrite was
      announced, the outpoint is not cached, and the parent has a coin for it. */
  lemma AddCoinKeeps(v: View, o: OutPoint, coin: Coin, overwrite: bool)
    requires v.Cache? && Sound(v) && !IsSpent(coin)
    ensures var r := AddCoin(v, o, coin, overwrite);
      && (r.Throws? <==> !IsUnspendable(coin.script) && !overwrite && o in v.entries && !IsSpent(v.entries[o].coin))
      && (r.Ok? ==>
            && (Sound(r.view) <==> IsUnspendable(coin.script) || overwrite || o in v.entries || Lookup(v, o) == None)
            && (forall p :: Lookup(r.view, p) == if p == o && !IsUnspendable(coin.script) then Some(coin) else Lookup(v, p)))
  {
    var r := AddCoin(v, o, coin, overwrite);
    if r.Ok? && !IsUnspendable(coin.script) {
      if o in v.entries {
        assert EntrySound(v.entries[o], Lookup(v.base, o));
      }
      OneEntryChanged(v, r.view, o);
    }
  }

  /** In that one case a later spend brings the parent's coin back to light. */
  lemma WrongFreshResurrects(v: View, o: OutPoint, coin: Coin)
    requires v.Cache? && Sound(v) && !IsSpent(coin) && !IsUnspendable(coin.script)
    requires o !in v.entries && Lookup(v, o).Some?
    ensures var r := AddCoin(v, o, coin, false);
      r.Ok? && Lookup(SpendCoin(r.view, o).0, o) == Lookup(v, o) != None
  {
    var w := AddCoin(v, o, coin, false).view;
    assert Fetch(w, o) == w;
  }

  /** Spending removes the coin from the view and nothing else. */
  lemma SpendCoinKeeps(v: View, o: OutPoint)
    requires v.Cache? && Sound(v)
    ensures var (w, ok, coin) := SpendCoin(v, o);
      && Sound(w)
      && (forall p :: Lookup(w, p) == if p == o then None else Lookup(v, p))
      && (Lookup(v, o).Some? ==> ok && coin == Lookup(v, o).value)
  {
    FetchKeeps(v, o);
    var w := Fetch(v, o);
    var u := SpendCoin(v, o).0;
    if o in w.entries {
      assert EntrySound(w.entries[o], Lookup(w.base, o));
      OneEntryChanged(w, u, o);
    }
  }

  /** The answer of SpendCoin is "there was an unspent coin" except where the cache, or a
      database below it, holds the outpoint as spent: then it answers true as well. */
  lemma SpendCoinAnswer(v: View, o: OutPoint)
    requires v.Cache? && Sound(v)
    ensures SpendCoin(v, o).1 <==> Lookup(v, o).Some? || HoldsSpent(v, o)
  {
    FetchKeeps(v, o);
    if o !in v.entries {
      GetKeeps(v.base, o);
    }
  }

  /** The outpoint is known as spent to this cache, or to the database directly below it. */
  predicate HoldsSpent(v: View, o: OutPoint) {
    v.Cache? &&
      if o in v.entries then IsSpent(v.entries[o].coin)
      else v.base.Db? && o in v.base.coins && IsSpent(v.base.coins[o])
  }

  /** Exactly an entry without flags is dropped, so no view changes. */
  lemma UncacheKeeps(v: View, o: OutPoint)
    requires v.Cache? && Sound(v)
    ensures Sound(Uncache(v, o)) && SameCoins(v, Uncache(v, o))
    ensures var w := Uncache(v, o);
      && (o in w.entries <==> o in v.entries && (v.entries[o].isDirty || v.entries[o].isFresh))
      && OthersSame(v.entries, w.entries, o) && w.base == v.base
  {
    if Uncache(v, o) != v {
      assert EntrySound(v.entries[o], Lookup(v.base, o));
      OneEntryChanged(v, Uncache(v, o), o);
    }
  }

  // ----- What is cached, and what is left to write -----

  ghost predicate OthersSame(entries: Entries, entries': Entries, o: OutPoint) {
    forall p :: p != o ==> EntryAt(entries', p) == EntryAt(entries, p)
  }

  /** Reading caches what the parent finds, unflagged, except that a coin found as spent is FRESH. */
  lemma FetchEntry(v: View, o: OutPoint)
    requires v.Cache?
    ensures var w, (_, found, coin) := Fetch(v, o), Get(v.base, o);
      && OthersSame(v.entries, w.entries, o) && w.hash == v.hash
      && EntryAt(w.entries, o) == if o in v.entries then Some(v.entries[o])
           else if found then Some(Entry(coin, false, IsSpent(coin))) else None
  {
    hide Get;
  }

  /** An added coin is left to write. It may be forgotten once spent if it was FRESH, or if no
      overwrite was announced and nothing else was left to write. */
  lemma AddCoinEntry(v: View, o: OutPoint, coin: Coin, overwrite: bool)
    requires v.Cache? && !IsSpent(coin) && !IsUnspendable(coin.script) && AddCoin(v, o, coin, overwrite).Ok?
    ensures var w, mine := AddCoin(v, o, coin, overwrite).view, EntryAt(v.entries, o);
      && OthersSame(v.entries, w.entries, o) && w.base == v.base && w.hash == v.hash
      && o in w.entries && w.entries[o].coin == coin && w.entries[o].isDirty
      && (w.entries[o].isFresh <==>
            (mine.Some? && mine.value.isFresh) || (!overwrite && (mine.None? || !mine.value.isDirty)))
  {
  }

  /** A spent coin is forgotten if the entry was FRESH, and left to write as spent otherwise. */
  lemma SpendCoinEntry(v: View, o: OutPoint)
    requires v.Cache?
    ensures var before, w := Fetch(v, o), SpendCoin(v, o).0;
      && OthersSame(v.entries, w.entries, o) && w.base == before.base && w.hash == v.hash
      && (o in w.entries <==> o in before.entries && !before.entries[o].isFresh)
      && (o in w.entries ==> w.entries[o] == Entry(NULL_COIN, true, false))
  {
    hide Fetch;
    FetchEntry(v, o);
  }

  /** Nothing of the top layer is left to write. */
  ghost predicate Clean(v: View) {
    v.Cache? && forall o :: o in v.entries ==> !v.entries[o].isDirty
  }

  predicate ReadOnly(op: Op) {
    op.Read? || op.ReadBest? || op.Drop?
  }

  /** Runs that only read or trim leave nothing to write. */
  lemma {:induction false} ReadsStayClean(v: View, ops: seq<Op>)
    requires Clean(v) && AllowedRun(v, ops) && forall i :: 0 <= i < |ops| ==> ReadOnly(ops[i])
    ensures Run(v, ops).Ok? && Clean(Run(v, ops).view)
    decreases |ops|
  {
    if ops != [] {
      assert ReadOnly(ops[0]);
      ReadStaysClean(v, ops[0]);
      ReadsStayClean(Step(v, ops[0]).view, ops[1..]);
    }
  }

  lemma ReadStaysClean(v: View, op: Op)
    requires Clean(v) && ReadOnly(op) && Allowed(v, op)
    ensures Step(v, op).Ok? && Clean(Step(v, op).view)
  {
    hide Fetch;
    match op
    case Read(o) =>
      FetchEntry(v, o);
      var w := Fetch(v, o);
      forall p | p in w.entries ensures !w.entries[p].isDirty {
        assert p != o ==> EntryAt(w.entries, p) == EntryAt(v.entries, p);
      }
    case ReadBest =>
    case Drop(_) =>
  }

  /** With nothing left to write, a flush hands down the block hash and nothing else. */
  lemma FlushNothing(v: View)
    requires Clean(v) && CanFlush(v)
    ensures Flush(v) == Ok(Cache(map[], v.hash, 0,
      if v.base.Db? then Db(v.base.coins, v.hash) else v.base.(hash := v.hash)))
  {
    if v.base.Db? {
      assert Written(v.base.coins, v.entries) == v.base.coins;
    } else {
      assert Merged(v.base.entries, v.entries) == v.base.entries;
    }
  }

  // ----- Flushing -----

  /** What a merge leaves in the parent: an entry that is not left to write changes nothing. A
      change makes the parent's entry one left to write, FRESH exactly if the parent's was, or, if
      the parent had none, if the child's was. It goes exactly if it is FRESH and spent. */
  lemma MergeFlags(mine: Option<Entry>, e: Entry)
    ensures var m, flag := Merge(mine, e), if mine.Some? then mine.value.isFresh else e.isFresh;
      && (!e.isDirty ==> m == mine)
      && (e.isDirty ==> (m.None? <==> flag && IsSpent(e.coin)))
      && (e.isDirty && m.Some? ==> m.value.coin == e.coin && m.value.isDirty && (m.value.isFresh <==> flag))
  {
  }

  /** A coin that is new to both caches, flushed into the parent and spent there leaves no trace:
      the parent has no entry, and a second spend answers false unless the database below holds
      the outpoint as spent. */
  lemma BornAndSpent(v: View, o: OutPoint, coin: Coin)
    requires v.Cache? && v.base.Cache? && Sound(v) && !IsSpent(coin) && !IsUnspendable(coin.script)
    requires o !in v.entries && o !in v.base.entries && Lookup(v, o) == None
    ensures var r := AddCoin(v, o, coin, false);
      && r.Ok? && Flush(r.view).Ok? && Flush(r.view).view.base.Cache?
      && (var (w, ok, moved) := SpendCoin(Flush(r.view).view.base, o);
          && ok && moved == coin && o !in w.entries
          && (SpendCoin(w, o).1 <==> v.base.base.Db? && o in v.base.base.coins))
  {
    hide Merged, Fetch;
    AddCoinKeeps(v, o, coin, false);
    AddCoinEntry(v, o, coin, false);
    var u := AddCoin(v, o, coin, false).view;
    FlushKeeps(u);
    var b := Flush(u).view.base;
    MergedAt(u.base.entries, u.entries, o);
    MergeFlags(None, u.entries[o]);
    FetchEntry(b, o);
    SpendCoinEntry(b, o);
    SpendCoinKeeps(b, o);
    var w := SpendCoin(b, o).0;
    FetchThere(b, o);
    SpendCoinAnswer(w, o);
  }

  lemma MergedAt(entries: Entries, child: Entries, o: OutPoint)
    ensures EntryAt(Merged(entries, child), o) == MergeAt(entries, child, o)
  {
  }

  lemma FetchThere(v: View, o: OutPoint)
    requires v.Cache? && o in v.entries
    ensures Fetch(v, o) == v
  {
  }

  /** Right flags are never reported as misapplied. */
  lemma NeverMisapplied(v: View)
    requires v.Cache? && v.base.Cache? && Sound(v)
    ensures !Misapplied(v.base.entries, v.entries)
  {
    forall o | o in v.entries ensures !MisappliedAt(v.base.entries, o, v.entries[o]) {
      assert EntrySound(v.entries[o], Lookup(v.base, o));
    }
  }

  /** One outpoint of a merge: the parent ends with the child's coin, and its flags stay right
      towards the grandparent. */
  lemma MergeSound(mine: Option<Entry>, e: Entry, grand: Option<Coin>)
    requires mine.Some? ==> EntrySound(mine.value, grand)
    requires EntrySound(e, if mine.Some? then Unspent(mine.value.coin) else grand)
    ensures var m := Merge(mine, e);
      && (m.Some? ==> EntrySound(m.value, grand))
      && (if m.Some? then Unspent(m.value.coin) else grand) == Unspent(e.coin)
  {
  }

  lemma BatchWriteKeeps(base: View, child: Entries, hash: Hash)
    requires Sound(base) && EntriesSound(child, base)
    requires base.Db? ==> hash != NULL_HASH
    requires base.Cache? ==> !Misapplied(base.entries, child)
    ensures var r := BatchWrite(base, child, hash);
      && r.Ok? && Sound(r.view)
      && forall o :: Lookup(r.view, o) == if o in child then Unspent(child[o].coin) else Lookup(base, o)
  {
    var w := BatchWrite(base, child, hash).view;
    forall o
      ensures Lookup(w, o) == if o in child then Unspent(child[o].coin) else Lookup(base, o)
      ensures w.Cache? && o in w.entries ==> EntrySound(w.entries[o], Lookup(w.base, o))
    {
      if o in child {
        assert EntrySound(child[o], Lookup(base, o));
      }
      if base.Cache? {
        assert EntryAt(w.entries, o) == MergeAt(base.entries, child, o);
        if o in base.entries {
          assert EntrySound(base.entries[o], Lookup(base.base, o));
        }
        if o in child {
          MergeSound(EntryAt(base.entries, o), child[o], Lookup(base.base, o));
        }
      }
    }
  }

  /** Flush never throws, the parent's view becomes the child's, and the child's stays. */
  lemma FlushKeeps(v: View)
    requires CanFlush(v) && Sound(v)
    ensures var r := Flush(v);
      && r.Ok? && r.view.Cache? && r.view.entries == map[]
      && Sound(r.view) && SameCoins(v, r.view) && SameCoins(v, r.view.base) && Sound(r.view.base)
  {
    if v.base.Cache? {
      NeverMisapplied(v);
    }
    BatchWriteKeeps(v.base, v.entries, v.hash);
  }

  /** A flush hands the block hash down as it is, so a cache that never learnt its block
      makes its parent forget: the parent's best block is the child's exactly when the child
      knew its hash, or the parent had none that differs from what lies below. */
  lemma FlushBestBlock(v: View)
    requires CanFlush(v) && Sound(v)
    ensures var w := Flush(v).view;
      BestBlock(w.base) == BestBlock(v) <==>
        v.hash != NULL_HASH || (v.base.Cache? && BestBlock(v.base) == BestBlock(v.base.base))
  {
    FlushKeeps(v);
  }

  // ----- A transaction's outputs -----

  function OutputAt(txid: Hash, outs: seq<Coin>, from: nat, o: OutPoint): Option<Coin> {
    if o.hash == txid && from <= o.n < |outs| && !IsUnspendable(outs[o.n].script) then Some(outs[o.n]) else None
  }

  /** AddCoins makes every spendable output an unspent coin and changes nothing else. With
      `check` it may overwrite; without, the outputs must be new. */
  lemma {:induction false} AddCoinsKeeps(v: View, txid: Hash, outs: seq<Coin>, check: bool, i: nat)
    requires v.Cache? && Sound(v) && i <= |outs| && forall c :: c in outs ==> !IsSpent(c)
    requires !check ==> forall k: nat :: i <= k < |outs| ==> Lookup(v, OutPoint(txid, k)) == None
    ensures var r := AddCoins(v, txid, outs, check, i);
      && r.Ok? && r.view.Cache? && Sound(r.view)
      && forall o :: Lookup(r.view, o) == if OutputAt(txid, outs, i, o).Some? then OutputAt(txid, outs, i, o) else Lookup(v, o)
    decreases |outs| - i
  {
    hide Sound, Fetch, Lookup, AddCoin;
    if i < |outs| {
      var o := OutPoint(txid, i);
      var w := if check then Fetch(v, o) else v;
      if check {
        FetchKeeps(v, o);
      }
      var overwrite := check && o in w.entries && !IsSpent(w.entries[o].coin);
      AddedOutput(w, o, outs[i], overwrite);
      var u := AddCoin(w, o, outs[i], overwrite).view;
      forall k: nat | !check && i + 1 <= k < |outs| ensures Lookup(u, OutPoint(txid, k)) == None {
        assert Lookup(v, OutPoint(txid, k)) == None;
      }
      AddCoinsKeeps(u, txid, outs, check, i + 1);
      var r := AddCoins(v, txid, outs, check, i).view;
      forall p
        ensures Lookup(r, p) == if OutputAt(txid, outs, i, p).Some? then OutputAt(txid, outs, i, p) else Lookup(v, p)
      {
        var OutPoint(hash, n) := p;
        assert Lookup(w, p) == Lookup(v, p);
      }
    }
  }

  lemma AddedOutput(w: View, o: OutPoint, coin: Coin, overwrite: bool)
    requires w.Cache? && Sound(w) && !IsSpent(coin)
    requires overwrite || Lookup(w, o) == None
    ensures var r := AddCoin(w, o, coin, overwrite);
      && r.Ok? && Sound(r.view)
      && forall p :: Lookup(r.view, p) == if p == o && !IsUnspendable(coin.script) then Some(coin) else Lookup(w, p)
  {
    AddCoinKeeps(w, o, coin, overwrite);
  }

  /** Outputs that the view does not have yet are FRESH, with or without `check`: nothing of them
      is left if they are spent again before the flush. */
  lemma {:induction false} AddCoinsFresh(v: View, txid: Hash, outs: seq<Coin>, check: bool, i: nat, k: nat)
    requires v.Cache? && Sound(v) && i <= k < |outs| && forall c :: c in outs ==> !IsSpent(c)
    requires !check ==> forall n: nat :: i <= n < |outs| ==> Lookup(v, OutPoint(txid, n)) == None
    requires !IsUnspendable(outs[k].script)
    requires var o := OutPoint(txid, k); Lookup(v, o) == None && (o in v.entries ==> !v.entries[o].isDirty)
    ensures var r := AddCoins(v, txid, outs, check, i);
      r.Ok? && r.view.Cache? && EntryAt(r.view.entries, OutPoint(txid, k)) == Some(Entry(outs[k], true, true))
    decreases |outs| - i
  {
    AddCoinsKeeps(v, txid, outs, check, i);
    hide Sound, Lookup, Fetch, AddCoin;
    var o := OutPoint(txid, i);
    var w := if check then Fetch(v, o) else v;
    OutputReady(v, txid, i, check);
    var overwrite := check && o in w.entries && !IsSpent(w.entries[o].coin);
    AddedOutput(w, o, outs[i], overwrite);
    var u := AddCoin(w, o, outs[i], overwrite).view;
    forall n: nat | !check && i + 1 <= n < |outs| ensures Lookup(u, OutPoint(txid, n)) == None {
      assert Lookup(v, OutPoint(txid, n)) == None;
    }
    if i == k {
      AddCoinEntry(w, o, outs[i], overwrite);
      LaterKeeps(u, txid, outs, check, i + 1, k);
    } else {
      assert Lookup(w, OutPoint(txid, k)) == Lookup(v, OutPoint(txid, k));
      OtherEntry(w, o, outs[i], overwrite, OutPoint(txid, k));
      AddCoinsFresh(u, txid, outs, check, i + 1, k);
    }
  }

  /** What the cache holds of an output when it is about to be added. */
  lemma OutputReady(v: View, txid: Hash, i: nat, check: bool)
    requires v.Cache? && Sound(v)
    ensures var o := OutPoint(txid, i); var w := if check then Fetch(v, o) else v;
      && Sound(w) && SameCoins(v, w) && OthersSame(v.entries, w.entries, o)
      && (Lookup(v, o) == None && o in w.entries ==> IsSpent(w.entries[o].coin))
      && (check && !(o in w.entries && !IsSpent(w.entries[o].coin)) ==> Lookup(w, o) == None)
      && (o in w.entries && w.entries[o].isDirty ==> o in v.entries && v.entries[o].isDirty)
  {
    hide Fetch;
    var o := OutPoint(txid, i);
    if check {
      FetchKeeps(v, o);
      FetchEntry(v, o);
    }
  }

  lemma OtherEntry(w: View, o: OutPoint, coin: Coin, overwrite: bool, p: OutPoint)
    requires w.Cache? && !IsSpent(coin) && AddCoin(w, o, coin, overwrite).Ok? && p != o
    ensures EntryAt(AddCoin(w, o, coin, overwrite).view.entries, p) == EntryAt(w.entries, p)
  {
  }

  /** Adding the later outputs leaves the entry of an earlier one alone. */
  lemma {:induction false} LaterKeeps(v: View, txid: Hash, outs: seq<Coin>, check: bool, i: nat, k: nat)
    requires v.Cache? && k < i <= |outs| && (forall c :: c in outs ==> !IsSpent(c)) && AddCoins(v, txid, outs, check, i).Ok?
    ensures var r := AddCoins(v, txid, outs, check, i).view;
      r.Cache? && EntryAt(r.entries, OutPoint(txid, k)) == EntryAt(v.entries, OutPoint(txid, k))
    decreases |outs| - i
  {
    hide Fetch, AddCoin;
    if i < |outs| {
      var o := OutPoint(txid, i);
      var w := if check then Fetch(v, o) else v;
      FetchEntry(v, o);
      var overwrite := check && o in w.entries && !IsSpent(w.entries[o].coin);
      OtherEntry(w, o, outs[i], overwrite, OutPoint(txid, k));
      LaterKeeps(AddCoin(w, o, outs[i], overwrite).view, txid, outs, check, i + 1, k);
    }
  }

  // ----- Whole runs -----

  /** What can be done to a stack of caches. Coins are added and spent at the top only; caches
      further down can be read, trimmed and flushed while others stand on them. */
  datatype Op =
    | Read(o: OutPoint)
    | ReadBest
    | Drop(o: OutPoint)
    | Push
    | FlushOp
    | Pop
    | Below(op: Op)
    | SetBest(hash: Hash)
    | Add(o: OutPoint, coin: Coin, overwrite: bool)
    | AddAll(txid: Hash, outs: seq<Coin>, check: bool)
    | Spend(o: OutPoint)

  predicate TopOnly(op: Op) {
    op.Pop? || op.SetBest? || op.Add? || op.AddAll? || op.Spend? || op.Push?
  }

  /** What the source demands of its callers. */
  ghost predicate Allowed(v: View, op: Op)
    decreases op
  {
    match op
    case Push => true
    case Read(_) => true
    case ReadBest => true
    case Drop(_) => v.Cache?
    case FlushOp => CanFlush(v)
    case Pop => CanFlush(v)
    case Below(sub) => v.Cache? && !TopOnly(sub) && Allowed(v.base, sub)
    case SetBest(_) => v.Cache?
    case Add(o, coin, overwrite) => v.Cache? && !IsSpent(coin) && (overwrite || Lookup(v, o) == None)
    case AddAll(txid, outs, check) =>
      && v.Cache?
      && (forall c :: c in outs ==> !IsSpent(c))
      && (!check ==> forall k: nat :: k < |outs| ==> Lookup(v, OutPoint(txid, k)) == None)
    case Spend(o) => v.Cache?
  }

  ghost function Step(v: View, op: Op): Outcome
    requires Allowed(v, op)
    decreases op
  {
    match op
    case Push => Ok(Cache(map[], NULL_HASH, 0, v))
    case Read(o) => Ok(Get(v, o).0)
    case ReadBest => Ok(GetBest(v))
    case Drop(o) => Ok(Uncache(v, o))
    case FlushOp => Flush(v)
    case Pop => (match Flush(v) case Throws => Throws case Ok(w) => Ok(w.base))
    case Below(sub) => (match Step(v.base, sub) case Throws => Throws case Ok(b) => Ok(v.(base := b)))
    case SetBest(h) => Ok(v.(hash := h))
    case Add(o, coin, overwrite) => AddCoin(v, o, coin, overwrite)
    case AddAll(txid, outs, check) => AddCoins(v, txid, outs, check, 0)
    case Spend(o) => Ok(SpendCoin(v, o).0)
  }

  type Coins = map<OutPoint, Coin>

  function Outputs(txid: Hash, outs: seq<Coin>): (m: Coins)
    ensures forall o :: o in m <==> OutputAt(txid, outs, 0, o).Some?
    ensures forall o :: o in m ==> m[o] == OutputAt(txid, outs, 0, o).value
  {
    var m := map n: nat | n < |outs| && !IsUnspendable(outs[n].script) :: OutPoint(txid, n) := outs[n];
    assert forall o :: OutputAt(txid, outs, 0, o).Some? ==> o == OutPoint(txid, o.n);
    m
  }

  /** The same step on a plain map. */
  function PlainStep(m: Coins, op: Op): Coins {
    match op
    case Add(o, coin, _) => if IsUnspendable(coin.script) then m else m[o := coin]
    case AddAll(txid, outs, _) =>
      m + Outputs(txid, outs)
    case Spend(o) => m - {o}
    case _ => m
  }

  ghost predicate Agrees(v: View, m: Coins) {
    forall o :: Lookup(v, o) == if o in m then Some(m[o]) else None
  }

  lemma {:induction false} QuietStep(v: View, op: Op)
    requires Sound(v) && Allowed(v, op) && !TopOnly(op)
    ensures var r := Step(v, op);
      r.Ok? && Sound(r.view) && SameCoins(v, r.view)
    decreases op
  {
    hide Sound, Fetch, Lookup, Get, Uncache, Flush, GetBest, SameCoins;
    match op
    case Read(o) => GetKeeps(v, o);
    case ReadBest => GetBestKeeps(v);
    case Drop(o) => UncacheKeeps(v, o);
    case FlushOp => FlushKeeps(v);
    case Below(sub) =>
      BaseSound(v);
      QuietStep(v.base, sub);
      SoundFrame(v, Step(v.base, sub).view);
  }

  lemma BaseSound(v: View)
    requires v.Cache? && Sound(v)
    ensures Sound(v.base)
  {
  }

  /** Every allowed step succeeds, keeps the flags right and does to the view what the plain
      step does to the map. */
  lemma StepAgrees(v: View, m: Coins, op: Op)
    requires Sound(v) && Agrees(v, m) && Allowed(v, op)
    ensures var r := Step(v, op);
      r.Ok? && Sound(r.view) && Agrees(r.view, PlainStep(m, op))
  {
    hide Sound, Fetch, Lookup, Get, Uncache, Flush, GetBest, AddCoin, AddCoins, SpendCoin;
    if !TopOnly(op) {
      QuietStep(v, op);
    } else {
      match op
      case Pop => FlushKeeps(v);
      case SetBest(h) => SetBestKeeps(v, h);
      case Push => PushKeeps(v);
      case Add(o, coin, overwrite) => AddedOutput(v, o, coin, overwrite);
      case AddAll(txid, outs, check) => AddAllAgrees(v, m, txid, outs, check);
      case Spend(o) => SpendCoinKeeps(v, o);
    }
  }

  lemma PushKeeps(v: View)
    requires Sound(v)
    ensures var w := Cache(map[], NULL_HASH, 0, v); Sound(w) && SameCoins(v, w)
  {
  }

  lemma SetBestKeeps(v: View, h: Hash)
    requires v.Cache? && Sound(v)
    ensures Sound(v.(hash := h)) && SameCoins(v, v.(hash := h))
  {
  }

  lemma AddAllAgrees(v: View, m: Coins, txid: Hash, outs: seq<Coin>, check: bool)
    requires Sound(v) && Agrees(v, m) && Allowed(v, AddAll(txid, outs, check))
    ensures var r := AddCoins(v, txid, outs, check, 0);
      r.Ok? && Sound(r.view) && Agrees(r.view, PlainStep(m, AddAll(txid, outs, check)))
  {
    hide Sound, Lookup, AddCoins, OutputAt, Outputs;
    AddCoinsKeeps(v, txid, outs, check, 0);
    var w := AddCoins(v, txid, outs, check, 0).view;
    var t := PlainStep(m, AddAll(txid, outs, check));
    forall o ensures Lookup(w, o) == if o in t then Some(t[o]) else None {
      assert Lookup(v, o) == if o in m then Some(m[o]) else None;
    }
  }

  ghost predicate AllowedRun(v: View, ops: seq<Op>)
    decreases |ops|
  {
    ops != [] ==> Allowed(v, ops[0]) && var r := Step(v, ops[0]); r.Ok? ==> AllowedRun(r.view, ops[1..])
  }

  ghost function Run(v: View, ops: seq<Op>): Outcome
    requires AllowedRun(v, ops)
    decreases |ops|
  {
    if ops == [] then Ok(v) else
    match Step(v, ops[0])
    case Throws => Throws
    case Ok(w) => Run(w, ops[1..])
  }

  function PlainRun(m: Coins, ops: seq<Op>): Coins
    decreases |ops|
  {
    if ops == [] then m else PlainRun(PlainStep(m, ops[0]), ops[1..])
  }

  /** No exception is ever thrown, and the stack shows exactly the coins of the plain map. */
  lemma {:induction false} RunAgrees(v: View, m: Coins, ops: seq<Op>)
    requires Sound(v) && Agrees(v, m) && AllowedRun(v, ops)
    ensures var r := Run(v, ops);
      r.Ok? && Sound(r.view) && Agrees(r.view, PlainRun(m, ops))
    decreases |ops|
  {
    hide Sound, Agrees, Step, PlainStep, Allowed;
    if ops != [] {
      StepAgrees(v, m, ops[0]);
      RunAgrees(Step(v, ops[0]).view, PlainStep(m, ops[0]), ops[1..]);
    }
  }

  /** The database stores no spent coins. */
  ghost predicate StoresUnspent(v: View) {
    match v
    case Db(coins, _) => forall o :: o in coins ==> !IsSpent(coins[o])
    case Cache(_, _, _, base) => StoresUnspent(base)
  }

  lemma {:induction false} StepStoresUnspent(v: View, op: Op)
    requires StoresUnspent(v) && Allowed(v, op)
    ensures Step(v, op).Ok? ==> StoresUnspent(Step(v, op).view)
    decreases op
  {
    hide Merged;
    match op
    case Read(o) => GetStores(v, o);
    case ReadBest => GetBestStores(v);
    case Below(sub) => StepStoresUnspent(v.base, sub);
    case AddAll(txid, outs, check) => AddCoinsStores(v, txid, outs, check, 0);
    case Spend(o) => GetStores(v, o);
    case _ =>
  }

  lemma {:induction false} GetStores(v: View, o: OutPoint)
    requires StoresUnspent(v)
    ensures StoresUnspent(Get(v, o).0)
    ensures v.Cache? ==> StoresUnspent(Fetch(v, o))
  {
    if v.Cache? {
      GetStores(v.base, o);
    }
  }

  lemma {:induction false} GetBestStores(v: View)
    requires StoresUnspent(v)
    ensures StoresUnspent(GetBest(v))
  {
    if v.Cache? {
      GetBestStores(v.base);
    }
  }

  lemma {:induction false} AddCoinsStores(v: View, txid: Hash, outs: seq<Coin>, check: bool, i: nat)
    requires v.Cache? && StoresUnspent(v) && i <= |outs| && forall c :: c in outs ==> !IsSpent(c)
    ensures var r := AddCoins(v, txid, outs, check, i); r.Ok? ==> StoresUnspent(r.view)
    decreases |outs| - i
  {
    if i < |outs| {
      var o := OutPoint(txid, i);
      GetStores(v, o);
      var w := if check then Fetch(v, o) else v;
      var overwrite := check && o in w.entries && !IsSpent(w.entries[o].coin);
      var r := AddCoin(w, o, outs[i], overwrite);
      if r.Ok? {
        AddCoinsStores(r.view, txid, outs, check, i + 1);
      }
    }
  }

  /** No run makes a database store a spent coin. */
  lemma {:induction false} RunStoresUnspent(v: View, ops: seq<Op>)
    requires StoresUnspent(v) && AllowedRun(v, ops)
    ensures Run(v, ops).Ok? ==> StoresUnspent(Run(v, ops).view)
    decreases |ops|
  {
    hide Step, Allowed;
    if ops != [] {
      StepStoresUnspent(v, ops[0]);
      var r := Step(v, ops[0]);
      if r.Ok? {
        RunStoresUnspent(r.view, ops[1..]);
      }
    }
  }

  // ----- Runs on which a promise fails -----

  /** A fresh cache on a database. */
  function FreshCache(coins: Coins, best: Hash): View {
    Cache(map[], NULL_HASH, 0, Db(coins, best))
  }

  /** Spending a coin of the database twice: no coin is left, and the second spend answers true. */
  lemma SpentTwice(coins: Coins, best: Hash, o: OutPoint)
    requires o in coins && !IsSpent(coins[o])
    ensures var v, ops := FreshCache(coins, best), [Spend(o)];
      && AllowedRun(v, ops) && Run(v, ops).Ok? && Run(v, ops).view.Cache?
      && Lookup(Run(v, ops).view, o) == None && SpendCoin(Run(v, ops).view, o).1
  {
    var v, ops := FreshCache(coins, best), [Spend(o)];
    var w := Fetch(v, o);
    assert Get(v.base, o) == (v.base, true, coins[o]);
    assert o in w.entries && !w.entries[o].isFresh;
    var u := SpendCoin(v, o).0;
    assert u.entries[o] == Entry(NULL_COIN, true, false);
    assert Step(v, ops[0]) == Ok(u) && ops[1..] == [];
    assert Run(v, ops) == Ok(u);
    assert Fetch(u, o) == u;
  }

  /** A cache on a cache that has moved on from the database's block: the flush makes its parent
      fall back to that block. */
  lemma FlushForgets(coins: Coins, best: Hash, hash: Hash)
    requires hash != NULL_HASH && hash != best
    ensures var v, ops := FreshCache(coins, best), [SetBest(hash), Push];
      && AllowedRun(v, ops) && Run(v, ops).Ok? && CanFlush(Run(v, ops).view)
      && BestBlock(Run(v, ops).view) == hash && Flush(Run(v, ops).view).Ok?
      && BestBlock(Flush(Run(v, ops).view).view.base) == best
  {
    var v, ops := FreshCache(coins, best), [SetBest(hash), Push];
    var w := v.(hash := hash);
    var u := Cache(map[], NULL_HASH, 0, w);
    assert Step(v, ops[0]) == Ok(w) && ops[1..] == [Push];
    assert Step(w, [Push][0]) == Ok(u) && [Push][1..] == [];
    assert AllowedRun(w, [Push]) && Run(w, [Push]) == Ok(u);
    assert Run(v, ops) == Ok(u);
    FlushKeeps(u);
  }

  // ----- Memory accounting -----

  lemma {:induction false} GetAccounted(v: View, o: OutPoint)
    requires Accounted(v)
    ensures Accounted(Get(v, o).0)
    ensures v.Cache? ==> Accounted(Fetch(v, o))
  {
    if v.Cache? {
      GetAccounted(v.base, o);
    }
  }

  lemma {:induction false} GetBestAccounted(v: View)
    requires Accounted(v)
    ensures Accounted(GetBest(v))
  {
    if v.Cache? {
      GetBestAccounted(v.base);
    }
  }

  lemma {:induction false} AddCoinsAccounted(v: View, txid: Hash, outs: seq<Coin>, check: bool, i: nat)
    requires v.Cache? && Accounted(v) && i <= |outs| && forall c :: c in outs ==> !IsSpent(c)
    ensures var r := AddCoins(v, txid, outs, check, i); r.Ok? ==> Accounted(r.view)
    decreases |outs| - i
  {
    if i < |outs| {
      var o := OutPoint(txid, i);
      GetAccounted(v, o);
      var w := if check then Fetch(v, o) else v;
      var overwrite := check && o in w.entries && !IsSpent(w.entries[o].coin);
      var r := AddCoin(w, o, outs[i], overwrite);
      if r.Ok? {
        AddCoinsAccounted(r.view, txid, outs, check, i + 1);
      }
    }
  }

  lemma {:induction false} StepAccounted(v: View, op: Op)
    requires Accounted(v) && Allowed(v, op)
    ensures var r := Step(v, op); r.Ok? ==> Accounted(r.view)
    decreases op
  {
    match op
    case Read(o) => GetAccounted(v, o);
    case ReadBest => GetBestAccounted(v);
    case Below(sub) => StepAccounted(v.base, sub);
    case AddAll(txid, outs, check) => AddCoinsAccounted(v, txid, outs, check, 0);
    case Spend(o) => GetAccounted(v, o);
    case _ =>
  }

  /** Over every run, each layer's usage counter is the memory of the coins it holds. */
  lemma {:induction false} RunAccounted(v: View, ops: seq<Op>)
    requires Accounted(v) && AllowedRun(v, ops)
    ensures var r := Run(v, ops); r.Ok? ==> Accounted(r.view)
    decreases |ops|
  {
    hide Accounted, Step, Allowed;
    if ops != [] {
      StepAccounted(v, ops[0]);
      var r := Step(v, ops[0]);
      if r.Ok? {
        RunAccounted(r.view, ops[1..]);
      }
    }
  }
}
