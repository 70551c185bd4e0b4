/** The coin caches as the source runs them: objects that point at the view below them and
    change their entries, flags, block hash and usage counter in place. */
module Coins {
  import opened CoinsState
  import Theorems = CoinsTheorems
  import opened Wrappers

  /** The bottom of every stack (src/txdb.cpp). */
  class CoinsDb {
    var coins: map<OutPoint, Coin>
    var best: Hash

    constructor (coins: map<OutPoint, Coin>, best: Hash)
      ensures this.coins == coins && this.best == best
    {
      this.coins, this.best := coins, best;
    }

    ghost function V(): View
      reads this
    {
      Db(coins, best)
    }

    method BatchWrite(child: Entries, hash: Hash)
      requires hash != NULL_HASH
      modifies this
      ensures Ok(V()) == CoinsState.BatchWrite(old(V()), child, hash)
    {
      hide Written;
      var todo := child.Keys;
      WrittenNone(coins, child - todo);
      while todo != {}
        invariant todo <= child.Keys
        invariant coins == Written(old(coins), child - todo)
        modifies `coins
        decreases |todo|
      {
        var o :| o in todo;
        var e := child[o];
        WrittenNext(old(coins), child, todo, o);
        if e.isDirty {
          if IsSpent(e.coin) {
            coins := coins - {o};
          } else {
            coins := coins[o := e.coin];
          }
        }
        todo := todo - {o};
      }
      assert child - todo == child;
      best := hash;
    }
  }

  class CoinsCache {
    var cacheCoins: Entries
    var hashBlock: Hash
    var cachedCoinsUsage: int
    const base: CoinsCache?
    const db: CoinsDb
    /** This layer and all that lies below it. */
    ghost const repr: set<object>

    ghost predicate Valid()
      decreases repr
    {
      && this in repr && db in repr
      && (base != null ==> base in repr && base.repr == repr - {this} && base.db == db && base.Valid())
      && (base == null ==> repr == {this, db})
    }

    ghost function Under(): View
      requires Valid()
      reads repr
      decreases repr, 0
    {
      if base != null then base.V() else db.V()
    }

    /** The stack from this layer down, as a value. */
    ghost function V(): (v: View)
      requires Valid()
      reads repr
      ensures v.Cache?
      decreases repr, 1
    {
      Cache(cacheCoins, hashBlock, cachedCoinsUsage, Under())
    }

    constructor OnDb(db: CoinsDb)
      ensures Valid() && fresh(this) && this.db == db && base == null
      ensures V() == Cache(map[], NULL_HASH, 0, db.V())
    {
      this.db, base := db, null;
      cacheCoins, hashBlock, cachedCoinsUsage := map[], NULL_HASH, 0;
      repr := {this, db};
    }

    constructor OnCache(base: CoinsCache)
      requires base.Valid()
      ensures Valid() && fresh(this) && this.base == base
      ensures V() == Cache(map[], NULL_HASH, 0, base.V())
    {
      this.db, this.base := base.db, base;
      cacheCoins, hashBlock, cachedCoinsUsage := map[], NULL_HASH, 0;
      repr := {this} + base.repr;
    }

    method FetchCoin(o: OutPoint) returns (found: bool)
      requires Valid()
      modifies repr
      ensures V() == Fetch(old(V()), o)
      ensures found == (o in cacheCoins)
      decreases repr, 0
    {
      if o in cacheCoins {
        return true;
      }
      var got, tmp;
      if base != null {
        got, tmp := base.GetCoin(o);
      } else {
        got := o in db.coins;
        tmp := if got then db.coins[o] else NULL_COIN;
      }
      if !got {
        return false;
      }
      TotalUpdate(cacheCoins, o, Entry(tmp, false, IsSpent(tmp)));
      cacheCoins := cacheCoins[o := Entry(tmp, false, IsSpent(tmp))];
      cachedCoinsUsage := cachedCoinsUsage + tmp.script.memory;
      found := true;
    }

    method GetCoin(o: OutPoint) returns (found: bool, coin: Coin)
      requires Valid()
      modifies repr
      ensures (V(), found, coin) == Get(old(V()), o)
      decreases repr, 1
    {
      var cached := FetchCoin(o);
      if cached {
        coin := cacheCoins[o].coin;
        found := !IsSpent(coin);
      } else {
        found, coin := false, NULL_COIN;
      }
    }

    /** The coin of the view, or a spent one. */
    method AccessCoin(o: OutPoint) returns (coin: Coin)
      requires Valid() && Sound(V())
      modifies repr
      ensures V() == Fetch(old(V()), o)
      ensures Unspent(coin) == Lookup(old(V()), o)
    {
      Theorems.FetchKeeps(V(), o);
      var cached := FetchCoin(o);
      coin := if cached then cacheCoins[o].coin else NULL_COIN;
    }

    method HaveCoin(o: OutPoint) returns (have: bool)
      requires Valid() && Sound(V())
      modifies repr
      ensures V() == Fetch(old(V()), o)
      ensures have <==> Lookup(old(V()), o).Some?
    {
      Theorems.FetchKeeps(V(), o);
      var cached := FetchCoin(o);
      have := cached && !IsSpent(cacheCoins[o].coin);
    }

    /** A throw leaves the entries alone but has already taken the old coin off the usage. */
    method AddCoin(o: OutPoint, coin: Coin, overwrite: bool) returns (thrown: bool)
      requires Valid() && !IsSpent(coin)
      modifies this
      ensures thrown <==> CoinsState.AddCoin(old(V()), o, coin, overwrite).Throws?
      ensures !thrown ==> Ok(V()) == CoinsState.AddCoin(old(V()), o, coin, overwrite)
      ensures thrown ==> o in cacheCoins && V() == old(V()).(usage := old(cachedCoinsUsage) - Memory(cacheCoins[o]))
    {
      hide Total, IsSpent, IsUnspendable;
      NullSpent();
      if IsUnspendable(coin.script) {
        return false;
      }
      var inserted := o !in cacheCoins;
      var e := if inserted then Entry(NULL_COIN, false, false) else cacheCoins[o];
      if !inserted {
        cachedCoinsUsage := cachedCoinsUsage - Memory(e);
      }
      var isFresh := false;
      if !overwrite {
        if !IsSpent(e.coin) {
          return true;
        }
        isFresh := !e.isDirty;
      }
      TotalUpdate(cacheCoins, o, Entry(coin, true, e.isFresh || isFresh));
      cacheCoins := cacheCoins[o := Entry(coin, true, e.isFresh || isFresh)];
      cachedCoinsUsage := cachedCoinsUsage + coin.script.memory;
      thrown := false;
    }

    method SpendCoin(o: OutPoint) returns (ok: bool, moved: Coin)
      requires Valid()
      modifies repr
      ensures (V(), ok, moved) == CoinsState.SpendCoin(old(V()), o)
    {
      hide Total, Fetch;
      var cached := FetchCoin(o);
      if !cached {
        return false, NULL_COIN;
      }
      var e := cacheCoins[o];
      cachedCoinsUsage := cachedCoinsUsage - Memory(e);
      moved := e.coin;
      if e.isFresh {
        TotalRemove(cacheCoins, o);
        cacheCoins := cacheCoins - {o};
      } else {
        TotalUpdate(cacheCoins, o, Entry(NULL_COIN, true, false));
        cacheCoins := cacheCoins[o := Entry(NULL_COIN, true, false)];
      }
      ok := true;
    }

    method Uncache(o: OutPoint)
      requires Valid()
      modifies this
      ensures V() == CoinsState.Uncache(old(V()), o)
    {
      if o in cacheCoins && !cacheCoins[o].isDirty && !cacheCoins[o].isFresh {
        TotalRemove(cacheCoins, o);
        cachedCoinsUsage := cachedCoinsUsage - Memory(cacheCoins[o]);
        cacheCoins := cacheCoins - {o};
      }
    }

    method GetBestBlock() returns (hash: Hash)
      requires Valid()
      modifies repr
      ensures V() == GetBest(old(V())) && hash == BestBlock(old(V()))
      decreases repr
    {
      BestSame(V());
      if hashBlock == NULL_HASH {
        if base != null {
          hashBlock := base.GetBestBlock();
        } else {
          hashBlock := db.best;
        }
      }
      hash := hashBlock;
    }

    method SetBestBlock(hash: Hash)
      requires Valid()
      modifies this
      ensures V() == Cache(old(cacheCoins), hash, old(cachedCoinsUsage), old(Under()))
    {
      hashBlock := hash;
    }

    /** One round of BatchWrite's loop. */
    method MergeEntry(o: OutPoint, e: Entry) returns (thrown: bool)
      requires Valid()
      modifies this
      ensures hashBlock == old(hashBlock)
      ensures thrown <==> MisappliedAt(old(cacheCoins), o, e)
      ensures thrown ==> cacheCoins == old(cacheCoins) && cachedCoinsUsage == old(cachedCoinsUsage)
      ensures !thrown ==> EntryAt(cacheCoins, o) == Merge(old(EntryAt(cacheCoins, o)), e)
      ensures !thrown ==> forall p :: p != o ==> EntryAt(cacheCoins, p) == old(EntryAt(cacheCoins, p))
      ensures !thrown ==> cachedCoinsUsage - Total(cacheCoins) == old(cachedCoinsUsage - Total(cacheCoins))
    {
      thrown := false;
      if !e.isDirty {
        return;
      }
      if o !in cacheCoins {
        if !(e.isFresh && IsSpent(e.coin)) {
          TotalUpdate(cacheCoins, o, Entry(e.coin, true, e.isFresh));
          cacheCoins := cacheCoins[o := Entry(e.coin, true, e.isFresh)];
          cachedCoinsUsage := cachedCoinsUsage + Memory(e);
        }
      } else {
        var us := cacheCoins[o];
        if e.isFresh && !IsSpent(us.coin) {
          return true;
        }
        if us.isFresh && IsSpent(e.coin) {
          TotalRemove(cacheCoins, o);
          cachedCoinsUsage := cachedCoinsUsage - Memory(us);
          cacheCoins := cacheCoins - {o};
        } else {
          TotalUpdate(cacheCoins, o, Entry(e.coin, true, us.isFresh));
          cachedCoinsUsage := cachedCoinsUsage - Memory(us) + Memory(e);
          cacheCoins := cacheCoins[o := Entry(e.coin, true, us.isFresh)];
        }
      }
    }

    /** The child's entries arrive in no particular order, and each is erased from the child once
        it is dealt with. A throw stops half way: `left` is what the child still has, and the
        entries it has no more are merged. */
    method BatchWrite(child: Entries, hash: Hash) returns (thrown: bool, left: Entries)
      requires Valid()
      modifies this
      ensures thrown <==> CoinsState.BatchWrite(old(V()), child, hash).Throws?
      ensures !thrown ==> left == map[] && Ok(V()) == CoinsState.BatchWrite(old(V()), child, hash)
      ensures thrown ==> PartOf(left, child) && Misapplied(old(cacheCoins), left) && !Misapplied(old(cacheCoins), child - left.Keys)
      ensures thrown ==> V() == WithEntries(old(V()), Merged(old(cacheCoins), child - left.Keys))
    {
      hide Total, Misapplied, Merged, PartOf;
      thrown, left := MergeAll(child);
      if !thrown {
        hashBlock := hash;
      }
    }

    /** The loop of BatchWrite. */
    method MergeAll(child: Entries) returns (thrown: bool, left: Entries)
      requires Valid()
      modifies this
      ensures hashBlock == old(hashBlock)
      ensures cachedCoinsUsage - Total(cacheCoins) == old(cachedCoinsUsage - Total(cacheCoins))
      ensures PartOf(left, child) && cacheCoins == Merged(old(cacheCoins), child - left.Keys)
      ensures !Misapplied(old(cacheCoins), child - left.Keys)
      ensures if thrown then Misapplied(old(cacheCoins), left) && Misapplied(old(cacheCoins), child)
        else left == map[] && child - left.Keys == child
    {
      hide Merge, MisappliedAt, Total, Below, NoneYet, Misapplied, EntryAt, MergeAt, Merged, PartOf;
      ghost var start := cacheCoins;
      left := child;
      BelowStart(start, child);
      while left != map[]
        invariant PartOf(left, child)
        invariant Below(start, cacheCoins, child, left.Keys)
        invariant NoneYet(start, child, left.Keys)
        invariant cachedCoinsUsage - Total(cacheCoins) == old(cachedCoinsUsage - Total(cacheCoins))
        invariant hashBlock == old(hashBlock)
        modifies this
        decreases |left.Keys|
      {
        var o :| o in left.Keys;
        PartAt(left, child, o);
        SameTest(start, cacheCoins, o, child[o], child, left.Keys);
        ghost var before := cacheCoins;
        thrown := MergeEntry(o, left[o]);
        if thrown {
          assert cacheCoins == before;
          StoppedAt(start, cacheCoins, child, left, o);
          return;
        }
        NoneYetNext(start, child, left.Keys, o);
        BelowNext(start, before, cacheCoins, child, left.Keys, o);
        PartNext(left, child, o);
        left := left - {o};
      }
      AllMerged(start, cacheCoins, child);
      NoneAtAll(start, child);
      assert child - left.Keys == child;
      thrown := false;
    }

    /** After a throw the layer below has taken over what it had merged, and this one keeps the
        rest; its usage counter still counts what is gone. */
    method Flush() returns (thrown: bool)
      requires Valid() && CanFlush(V())
      modifies repr
      ensures thrown <==> CoinsState.Flush(old(V())).Throws?
      ensures !thrown ==> Ok(V()) == CoinsState.Flush(old(V()))
      ensures thrown ==> var was, gone := old(V()), old(cacheCoins) - cacheCoins.Keys;
        && PartOf(cacheCoins, was.entries) && was.base.Cache? && Misapplied(was.base.entries, cacheCoins)
        && V() == was.(entries := cacheCoins, base := WithEntries(was.base, Merged(was.base.entries, gone)))
    {
      assert V().base == Under();
      thrown := false;
      if base != null {
        thrown, cacheCoins := base.BatchWrite(cacheCoins, hashBlock);
        if thrown {
          return;
        }
      } else {
        db.BatchWrite(cacheCoins, hashBlock);
      }
      cacheCoins := map[];
      cachedCoinsUsage := 0;
    }

    /** Whether every input is an unspent coin of the view. */
    method HaveInputs(prevouts: seq<OutPoint>, coinBase: bool) returns (have: bool)
      requires Valid() && Sound(V())
      modifies repr
      ensures Sound(V()) && SameCoins(old(V()), V())
      ensures have <==> coinBase || forall o :: o in prevouts ==> Lookup(old(V()), o).Some?
    {
      hide Sound, Lookup, Fetch;
      if !coinBase {
        for i := 0 to |prevouts|
          invariant Sound(V()) && SameCoins(old(V()), V())
          invariant forall k :: 0 <= k < i ==> Lookup(old(V()), prevouts[k]).Some?
        {
          Theorems.FetchKeeps(V(), prevouts[i]);
          var one := HaveCoin(prevouts[i]);
          if !one {
            assert prevouts[i] in prevouts;
            return false;
          }
        }
      }
      have := true;
    }

    /** The sum of the inputs' values; an input that is not there counts as the null output. */
    method GetValueIn(prevouts: seq<OutPoint>, coinBase: bool) returns (sum: int)
      requires Valid() && Sound(V())
      modifies repr
      ensures Sound(V()) && SameCoins(old(V()), V())
      ensures sum == if coinBase then 0 else ValueOf(old(V()), prevouts)
    {
      hide Sound, Lookup, Fetch;
      sum := 0;
      if !coinBase {
        for i := 0 to |prevouts|
          invariant Sound(V()) && SameCoins(old(V()), V())
          invariant sum == ValueOf(old(V()), prevouts[..i])
        {
          Theorems.FetchKeeps(V(), prevouts[i]);
          var coin := AccessCoin(prevouts[i]);
          assert prevouts[..i + 1][..i] == prevouts[..i];
          sum := sum + coin.value;
        }
        assert prevouts[..|prevouts|] == prevouts;
      }
    }
  }

  lemma NullSpent()
    ensures IsSpent(NULL_COIN)
  {
  }

  /** Reading through the stack leaves every block where it was. */
  lemma {:induction false} BestSame(v: View)
    ensures BestBlock(GetBest(v)) == BestBlock(v)
  {
    if v.Cache? {
      BestSame(v.base);
    }
  }

  function ValueOf(v: View, prevouts: seq<OutPoint>): int {
    if prevouts == [] then 0 else
    var last := |prevouts| - 1;
    var c := Lookup(v, prevouts[last]);
    ValueOf(v, prevouts[..last]) + if c.Some? then c.value.value else -1
  }

  // ----- Steps of BatchWrite -----

  lemma WrittenNone(coins: map<OutPoint, Coin>, child: Entries)
    requires child == map[]
    ensures Written(coins, child) == coins
  {
    assert forall o :: o !in child;
  }

  lemma WrittenNext(coins: map<OutPoint, Coin>, child: Entries, todo: set<OutPoint>, o: OutPoint)
    requires todo <= child.Keys && o in todo
    ensures var was, e := Written(coins, child - todo), child[o];
      Written(coins, child - (todo - {o}))
        == if !e.isDirty then was else if IsSpent(e.coin) then was - {o} else was[o := e.coin]
  {
    var was, e := Written(coins, child - todo), child[o];
    var want := if !e.isDirty then was else if IsSpent(e.coin) then was - {o} else was[o := e.coin];
    var done := child - (todo - {o});
    forall p | p != o ensures EntryAt(done, p) == EntryAt(child - todo, p) {
    }
    assert done[o] == e && o !in child - todo;
    var now := Written(coins, done);
    forall p ensures (p in now <==> p in want) && (p in now ==> now[p] == want[p]) {
      if p != o {
        assert EntryAt(done, p) == EntryAt(child - todo, p);
      }
    }
  }

  /** The entries while the child's entries in `todo` are still to be merged. */
  ghost predicate Below(start: Entries, now: Entries, child: Entries, todo: set<OutPoint>) {
    forall o :: EntryAt(now, o) == if o in todo then EntryAt(start, o) else MergeAt(start, child, o)
  }

  /** No entry merged so far was misapplied. */
  ghost predicate NoneYet(start: Entries, child: Entries, todo: set<OutPoint>) {
    forall o :: o in child && o !in todo ==> !MisappliedAt(start, o, child[o])
  }

  lemma BelowStart(start: Entries, child: Entries)
    ensures Below(start, start, child, child.Keys) && NoneYet(start, child, child.Keys) && PartOf(child, child)
  {
  }

  lemma NoneYetNext(start: Entries, child: Entries, todo: set<OutPoint>, o: OutPoint)
    requires NoneYet(start, child, todo) && o in child && !MisappliedAt(start, o, child[o])
    ensures NoneYet(start, child, todo - {o})
  {
  }

  lemma NoneAtAll(start: Entries, child: Entries)
    requires NoneYet(start, child, {})
    ensures !Misapplied(start, child)
  {
  }

  /** `left` is what is left of `child` after some of its entries were erased. */
  ghost predicate PartOf(left: Entries, child: Entries) {
    left.Keys <= child.Keys && forall o :: o in left ==> left[o] == child[o]
  }

  lemma PartAt(left: Entries, child: Entries, o: OutPoint)
    requires PartOf(left, child) && o in left
    ensures o in child && left[o] == child[o] && left.Keys <= child.Keys
  {
  }

  lemma PartNext(left: Entries, child: Entries, o: OutPoint)
    requires PartOf(left, child) && o in left
    ensures PartOf(left - {o}, child) && (left - {o}).Keys == left.Keys - {o}
    ensures left - {o} == map[] ==> (left - {o}).Keys == {}
  {
  }

  /** A misapplied entry stops the merging with everything outside `left` merged. */
  lemma StoppedAt(start: Entries, now: Entries, child: Entries, left: Entries, o: OutPoint)
    requires Below(start, now, child, left.Keys) && NoneYet(start, child, left.Keys) && PartOf(left, child)
    requires o in left && MisappliedAt(start, o, left[o])
    ensures Misapplied(start, left) && Misapplied(start, child)
    ensures var done := child - left.Keys; !Misapplied(start, done) && now == Merged(start, done)
  {
    hide MisappliedAt, Merge;
    assert o in child && child[o] == left[o];
    var done := child - left.Keys;
    forall p ensures EntryAt(now, p) == MergeAt(start, done, p) {
      if p !in left.Keys {
        assert p in done <==> p in child;
      }
    }
    AllMerged(start, now, done);
  }

  lemma SameTest(start: Entries, now: Entries, o: OutPoint, e: Entry, child: Entries, todo: set<OutPoint>)
    requires Below(start, now, child, todo) && o in todo
    ensures MisappliedAt(now, o, e) <==> MisappliedAt(start, o, e)
  {
    assert EntryAt(now, o) == EntryAt(start, o);
  }

  lemma BelowNext(start: Entries, before: Entries, now: Entries, child: Entries, todo: set<OutPoint>, o: OutPoint)
    requires Below(start, before, child, todo) && todo <= child.Keys && o in todo
    requires EntryAt(now, o) == Merge(EntryAt(before, o), child[o])
    requires forall p :: p != o ==> EntryAt(now, p) == EntryAt(before, p)
    ensures Below(start, now, child, todo - {o})
  {
    hide Merge;
    assert EntryAt(before, o) == EntryAt(start, o);
    forall p ensures EntryAt(now, p) == if p in todo - {o} then EntryAt(start, p) else MergeAt(start, child, p) {
      assert EntryAt(before, p) == if p in todo then EntryAt(start, p) else MergeAt(start, child, p);
    }
  }

  lemma AllMerged(start: Entries, now: Entries, child: Entries)
    requires Below(start, now, child, {})
    ensures now == Merged(start, child)
  {
    hide MergeAt, Merge;
    var m := Merged(start, child);
    forall o ensures (o in now <==> o in m) && (o in now ==> now[o] == m[o]) {
      assert EntryAt(now, o) == MergeAt(start, child, o);
      Absent(start, child, o);
    }
  }

  lemma Absent(start: Entries, child: Entries, o: OutPoint)
    ensures MergeAt(start, child, o).Some? ==> o in start.Keys + child.Keys
  {
  }

  // ----- A transaction's outputs -----

  /** AddCoins: with `check` the view is asked whether each output overwrites a coin. */
  method AddCoins(cache: CoinsCache, txid: Hash, outs: seq<Coin>, check: bool) returns (thrown: bool)
    requires cache.Valid() && Sound(cache.V())
    requires forall c :: c in outs ==> !IsSpent(c)
    modifies cache.repr
    ensures thrown <==> CoinsState.AddCoins(old(cache.V()), txid, outs, check, 0).Throws?
    ensures !thrown ==> Ok(cache.V()) == CoinsState.AddCoins(old(cache.V()), txid, outs, check, 0)
  {
    hide Sound, Lookup, Fetch, CoinsState.AddCoin;
    ghost var want := CoinsState.AddCoins(cache.V(), txid, outs, check, 0);
    for i := 0 to |outs|
      invariant CoinsState.AddCoins(cache.V(), txid, outs, check, i) == want
    {
      assert outs[i] in outs;
      var o := OutPoint(txid, i);
      var overwrite := false;
      if check {
        var cached := cache.FetchCoin(o);
        overwrite := cached && !IsSpent(cache.cacheCoins[o].coin);
      }
      thrown := cache.AddCoin(o, outs[i], overwrite);
      if thrown {
        return;
      }
    }
    thrown := false;
  }
}
