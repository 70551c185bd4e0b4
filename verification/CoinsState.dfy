/** The coin views as values: a database at the bottom and any number of write-back caches
    stacked on it (src/coins.h, src/coins.cpp, src/txdb.cpp). */
module CoinsState {
  import opened Wrappers

  const OP_RETURN := 0x6a
  const MAX_SCRIPT_SIZE := 10000
  const NULL_HASH: nat := 0

  type Hash = nat

  datatype OutPoint = OutPoint(hash: Hash, n: nat)

  /** `memory` is the heap memory the script's bytes occupy. */
  datatype Script = Script(bytes: seq<int>, memory: nat)

  datatype Coin = Coin(value: int, script: Script, height: nat, coinBase: bool)

  const NULL_COIN := Coin(-1, Script([], 0), 0, false)

  datatype Entry = Entry(coin: Coin, isDirty: bool, isFresh: bool)

  type Entries = map<OutPoint, Entry>

  datatype View =
    | Db(coins: map<OutPoint, Coin>, best: Hash)
    | Cache(entries: Entries, hash: Hash, usage: int, base: View)

  /** How a call ends that may throw `std::logic_error`. */
  datatype Outcome = Ok(view: View) | Throws

  predicate IsSpent(c: Coin) {
    c.value == -1
  }

  predicate IsUnspendable(s: Script) {
    (|s.bytes| > 0 && s.bytes[0] == OP_RETURN) || |s.bytes| > MAX_SCRIPT_SIZE
  }

  // ----- What a view means -----

  /** A spent coin and a missing coin are the same thing. */
  function Unspent(c: Coin): Option<Coin> {
    if IsSpent(c) then None else Some(c)
  }

  /** The unspent coin a view has for an outpoint: the nearest layer that knows it decides. */
  function Lookup(v: View, o: OutPoint): Option<Coin> {
    match v
    case Db(coins, _) => if o in coins then Unspent(coins[o]) else None
    case Cache(entries, _, _, base) => if o in entries then Unspent(entries[o].coin) else Lookup(base, o)
  }

  ghost predicate SameCoins(v: View, w: View) {
    forall o :: Lookup(v, o) == Lookup(w, o)
  }

  /** What the flags of an entry promise about the parent view's coin. */
  predicate EntrySound(e: Entry, parent: Option<Coin>) {
    && (e.isFresh ==> parent == None)
    && (!e.isDirty ==> parent == Unspent(e.coin))
  }

  ghost predicate EntriesSound(entries: Entries, base: View) {
    forall o :: o in entries ==> EntrySound(entries[o], Lookup(base, o))
  }

  /** The flags of every layer are right. */
  ghost predicate Sound(v: View) {
    v.Cache? ==> EntriesSound(v.entries, v.base) && Sound(v.base)
  }

  /** The block a view stands at: a cache that has no hash of its own asks its parent. */
  function BestBlock(v: View): Hash {
    match v
    case Db(_, best) => best
    case Cache(_, hash, _, base) => if hash == NULL_HASH then BestBlock(base) else hash
  }

  // ----- Memory accounting -----

  function Memory(e: Entry): nat {
    e.coin.script.memory
  }

  /** The memory of all cached coins. */
  ghost function Total(entries: Entries): nat {
    if entries == map[] then 0 else
    var o :| o in entries;
    Memory(entries[o]) + Total(entries - {o})
  }

  lemma {:induction false} TotalRemove(entries: Entries, o: OutPoint)
    requires o in entries
    ensures Total(entries) == Memory(entries[o]) + Total(entries - {o})
    decreases |entries|
  {
    var p :| p in entries && Total(entries) == Memory(entries[p]) + Total(entries - {p});
    if p != o {
      TotalRemove(entries - {p}, o);
      TotalRemove(entries - {o}, p);
      assert entries - {p} - {o} == entries - {o} - {p};
    }
  }

  lemma TotalUpdate(entries: Entries, o: OutPoint, e: Entry)
    ensures Total(entries[o := e]) == Memory(e) + Total(entries) - (if o in entries then Memory(entries[o]) else 0)
  {
    TotalRemove(entries[o := e], o);
    if o in entries {
      TotalRemove(entries, o);
      assert entries[o := e] - {o} == entries - {o};
    } else {
      assert entries[o := e] - {o} == entries;
    }
  }

  /** What every layer's `cachedCoinsUsage` should be. */
  ghost predicate Accounted(v: View) {
    v.Cache? ==> v.usage == Total(v.entries) && Accounted(v.base)
  }

  /** `v` with other entries, and the usage changed by as much as the entries' memory. */
  ghost function WithEntries(v: View, entries: Entries): View
    requires v.Cache?
  {
    v.(entries := entries, usage := v.usage + Total(entries) - Total(v.entries))
  }

  // ----- Reading -----

  /** CCoinsView::GetCoin: the view after the caches have been filled, whether a coin was
      found, and the coin. A database may find a spent coin; a cache does not. */
  ghost function Get(v: View, o: OutPoint): (r: (View, bool, Coin))
    decreases v, 1
  {
    match v
    case Db(coins, _) => if o in coins then (v, true, coins[o]) else (v, false, NULL_COIN)
    case Cache(_, _, _, _) =>
      var w := Fetch(v, o);
      if o in w.entries then (w, !IsSpent(w.entries[o].coin), w.entries[o].coin) else (w, false, NULL_COIN)
  }

  /** CCoinsViewCache::FetchCoin. */
  ghost function Fetch(v: View, o: OutPoint): (w: View)
    requires v.Cache?
    ensures w.Cache?
    decreases v, 0
  {
    if o in v.entries then v else
    var (b, found, coin) := Get(v.base, o);
    var w := v.(base := b);
    if found then WithEntries(w, w.entries[o := Entry(coin, false, IsSpent(coin))]) else w
  }

  ghost function GetBest(v: View): (r: View) {
    if v.Db? || v.hash != NULL_HASH then v else
    var b := GetBest(v.base);
    v.(base := b, hash := BestBlock(b))
  }

  // ----- Writing -----

  /** CCoinsViewCache::AddCoin. */
  ghost function AddCoin(v: View, o: OutPoint, coin: Coin, overwrite: bool): (r: Outcome)
    requires v.Cache? && !IsSpent(coin)
    ensures r.Ok? ==> r.view.Cache?
  {
    if IsUnspendable(coin.script) then Ok(v) else
    var e := if o in v.entries then v.entries[o] else Entry(NULL_COIN, false, false);
    if !overwrite && !IsSpent(e.coin) then Throws else
    Ok(WithEntries(v, v.entries[o := Entry(coin, true, e.isFresh || (!overwrite && !e.isDirty))]))
  }

  /** CCoinsViewCache::SpendCoin: the view after, the answer, and the coin moved out. */
  ghost function SpendCoin(v: View, o: OutPoint): (r: (View, bool, Coin))
    requires v.Cache?
    ensures r.0.Cache?
  {
    var w := Fetch(v, o);
    if o !in w.entries then (w, false, NULL_COIN) else
    var e := w.entries[o];
    if e.isFresh then (WithEntries(w, w.entries - {o}), true, e.coin)
    else (WithEntries(w, w.entries[o := Entry(NULL_COIN, true, false)]), true, e.coin)
  }

  /** CCoinsViewCache::Uncache. */
  ghost function Uncache(v: View, o: OutPoint): (w: View)
    requires v.Cache?
    ensures w.Cache?
  {
    if o in v.entries && !v.entries[o].isDirty && !v.entries[o].isFresh then WithEntries(v, v.entries - {o}) else v
  }

  // ----- Flushing -----

  function EntryAt(entries: Entries, o: OutPoint): Option<Entry> {
    if o in entries then Some(entries[o]) else None
  }

  /** What BatchWrite leaves of a parent's entry, given the child's entry. */
  function Merge(mine: Option<Entry>, e: Entry): Option<Entry> {
    if !e.isDirty then mine
    else match mine
      case None => if e.isFresh && IsSpent(e.coin) then None else Some(Entry(e.coin, true, e.isFresh))
      case Some(m) => if m.isFresh && IsSpent(e.coin) then None else Some(Entry(e.coin, true, m.isFresh))
  }

  function MergeAt(entries: Entries, child: Entries, o: OutPoint): Option<Entry> {
    if o in child then Merge(EntryAt(entries, o), child[o]) else EntryAt(entries, o)
  }

  function Merged(entries: Entries, child: Entries): Entries {
    map o | o in entries.Keys + child.Keys && MergeAt(entries, child, o).Some? :: MergeAt(entries, child, o).value
  }

  /** The child's entry claims that the parent has no coin, but it has one cached. */
  predicate MisappliedAt(entries: Entries, o: OutPoint, e: Entry) {
    e.isDirty && e.isFresh && o in entries && !IsSpent(entries[o].coin)
  }

  predicate Misapplied(entries: Entries, child: Entries) {
    exists o :: o in child && MisappliedAt(entries, o, child[o])
  }

  /** CCoinsViewDB::BatchWrite on the coins. */
  function Written(coins: map<OutPoint, Coin>, child: Entries): map<OutPoint, Coin> {
    map o | o in coins.Keys + child.Keys && (if o in child && child[o].isDirty then !IsSpent(child[o].coin) else o in coins)
      :: if o in child && child[o].isDirty then child[o].coin else coins[o]
  }

  /** BatchWrite of either kind of view. The database asserts that the block hash is not null. */
  ghost function BatchWrite(v: View, child: Entries, hash: Hash): Outcome
    requires v.Db? ==> hash != NULL_HASH
  {
    match v
    case Db(coins, _) => Ok(Db(Written(coins, child), hash))
    case Cache(entries, _, _, _) =>
      if Misapplied(entries, child) then Throws
      else Ok(WithEntries(v, Merged(entries, child)).(hash := hash))
  }

  predicate CanFlush(v: View) {
    v.Cache? && (v.base.Db? ==> v.hash != NULL_HASH)
  }

  /** CCoinsViewCache::Flush. */
  ghost function Flush(v: View): (r: Outcome)
    requires CanFlush(v)
    ensures r.Ok? ==> r.view.Cache?
  {
    match BatchWrite(v.base, v.entries, v.hash)
    case Throws => Throws
    case Ok(base) => Ok(Cache(map[], v.hash, 0, base))
  }

  // ----- A transaction's outputs -----

  /** AddCoins, from output `i` on. */
  ghost function AddCoins(v: View, txid: Hash, outs: seq<Coin>, check: bool, i: nat): Outcome
    requires v.Cache? && i <= |outs| && forall c :: c in outs ==> !IsSpent(c)
    decreases |outs| - i
  {
    if i == |outs| then Ok(v) else
    var o := OutPoint(txid, i);
    var w := if check then Fetch(v, o) else v;
    var overwrite := check && o in w.entries && !IsSpent(w.entries[o].coin);
    match AddCoin(w, o, outs[i], overwrite)
    case Throws => Throws
    case Ok(u) => AddCoins(u, txid, outs, check, i + 1)
  }
}
