/** The on-disk form of the address manager (src/addrman.h:300-454): the fields written by
    Serialize, one token per field, and the tables Unserialize rebuilds from them. */
module AddrManSave {
  import opened AddrManState
  import Ops = AddrManOps
  import opened SortedSets

  /** The part of an entry that is written. */
  datatype Saved = Saved(service: Service, services: bv64, nTime: nat, source: NetAddr, lastSuccess: int, attempts: int)

  datatype Token = TByte(byte: nat) | TKey(key: nat) | TInt(value: int) | TEntry(entry: Saved)

  const BIT_30: int := 0x4000_0000

  /** `x ^ (1 << 30)` on a two's complement integer. */
  function FlipBit30(x: int): int {
    if (x / BIT_30) % 2 == 0 then x + BIT_30 else x - BIT_30
  }

  function Save(i: Info): Saved {
    Saved(i.service, i.services, i.nTime, i.source, i.lastSuccess, i.attempts)
  }

  /** A read entry; what is memory only starts from its defaults. */
  function Load(e: Saved): Info {
    Info(e.service, e.services, e.nTime, e.source, 0, 0, e.lastSuccess, e.attempts, 0, false, -1)
  }

  // ----- Serialize -----

  /** The referenced ids among `ids`, in order. */
  function Listed(info: Infos, ids: seq<int>): seq<int> {
    if ids == [] then [] else
    var id := ids[|ids| - 1];
    Listed(info, ids[..|ids| - 1]) + if id in info && info[id].refCount != 0 then [id] else []
  }

  /** The tried ids among `ids`, in order. */
  function Tried(info: Infos, ids: seq<int>): seq<int> {
    if ids == [] then [] else
    var id := ids[|ids| - 1];
    Tried(info, ids[..|ids| - 1]) + if id in info && info[id].inTried then [id] else []
  }

  function Entries(info: Infos, ids: seq<int>): seq<Token> {
    if ids == [] then [] else
    var id := ids[|ids| - 1];
    Entries(info, ids[..|ids| - 1]) + if id in info then [TEntry(Save(info[id]))] else []
  }

  /** The number under which the entry of `id` is written: how many referenced ids are smaller. */
  function Index(info: Infos, ids: seq<int>, id: int): nat {
    if ids == [] then 0 else
    var last := ids[|ids| - 1];
    if last >= id then Index(info, ids[..|ids| - 1], id) else |Listed(info, ids)|
  }

  /** How many slots of `bucket` are occupied from position `p` on. */
  function Occupied(table: Table, bucket: nat, p: nat): nat
    decreases BUCKET_SIZE - p
  {
    if p >= BUCKET_SIZE then 0
    else (if Slot(bucket, p) in table then 1 else 0) + Occupied(table, bucket, p + 1)
  }

  function SlotTokens(info: Infos, ids: seq<int>, table: Table, bucket: nat, p: nat): seq<Token>
    decreases BUCKET_SIZE - p
  {
    if p >= BUCKET_SIZE then [] else
    var here := if Slot(bucket, p) in table then [TInt(Index(info, ids, table[Slot(bucket, p)]))] else [];
    here + SlotTokens(info, ids, table, bucket, p + 1)
  }

  function BucketTokens(info: Infos, ids: seq<int>, table: Table, bucket: nat): seq<Token>
    decreases NEW_BUCKET_COUNT - bucket
  {
    if bucket >= NEW_BUCKET_COUNT then []
    else [TInt(Occupied(table, bucket, 0))] + SlotTokens(info, ids, table, bucket, 0) + BucketTokens(info, ids, table, bucket + 1)
  }

  function Header(s: State): seq<Token> {
    [TByte(1), TByte(32), TKey(s.key), TInt(s.nNew), TInt(s.nTried), TInt(FlipBit30(NEW_BUCKET_COUNT))]
  }

  function Serialize(s: State): seq<Token> {
    var ids := Ascending(s.info.Keys);
    Header(s) + Entries(s.info, Listed(s.info, ids)) + Entries(s.info, Tried(s.info, ids)) + BucketTokens(s.info, ids, s.newTable, 0)
  }

  // ----- Unserialize -----

  datatype Parsed = Failed | Parsed(state: State, rest: seq<Token>)

  /** Reads the new entries from number `n` on. Without usable bucket data each entry gets one
      reference from its own source. */
  function LoadNew(net: Net, t: State, rest: seq<Token>, n: int, usable: bool): Parsed
    decreases t.nNew - n
  {
    if n >= t.nNew then Parsed(t, rest)
    else if rest == [] || !rest[0].TEntry? then Failed
    else LoadNew(net, WithNew(net, t, rest[0].entry, n, usable), rest[1..], n + 1, usable)
  }

  function WithNew(net: Net, t: State, e: Saved, n: int, usable: bool): (r: State)
    ensures r.nNew == t.nNew
  {
    var i := Load(e).(randomPos := |t.random|);
    var t1 := t.(info := t.info[n := i], addrs := t.addrs[e.service.net := n], random := t.random + [n]);
    var u := NewSlot(net, t.key, i.service, i.source);
    if !usable && u !in t.newTable then Ops.List(t1, u, n) else t1
  }

  /** Reads the tried entries from number `n` on; an entry whose slot is taken is lost. */
  function LoadTried(net: Net, t: State, rest: seq<Token>, n: int, lost: nat): Parsed
    decreases t.nTried - n
  {
    if n >= t.nTried then Parsed(t.(nTried := t.nTried - lost), rest)
    else if rest == [] || !rest[0].TEntry? then Failed
    else if TriedSlot(net, t.key, rest[0].entry.service) in t.triedTable then LoadTried(net, t, rest[1..], n + 1, lost + 1)
    else LoadTried(net, WithTried(net, t, rest[0].entry), rest[1..], n + 1, lost)
  }

  function WithTried(net: Net, t: State, e: Saved): (r: State)
    ensures r.nTried == t.nTried
  {
    var id := t.idCount;
    var i := Load(e).(randomPos := |t.random|, inTried := true);
    var k := TriedSlot(net, t.key, e.service);
    t.(info := t.info[id := i], addrs := t.addrs[e.service.net := id], random := t.random + [id],
       triedTable := if id == -1 then t.triedTable - {k} else t.triedTable[k := id], idCount := id + 1)
  }

  function LoadBuckets(net: Net, t: State, rest: seq<Token>, bucket: nat, count: int, usable: bool): Parsed
    decreases count - bucket
  {
    if bucket >= count then Parsed(t, rest)
    else if rest == [] || !rest[0].TInt? then Failed
    else match LoadSlots(net, t, rest[1..], bucket, 0, rest[0].value, usable)
      case Failed => Failed
      case Parsed(t', rest') => LoadBuckets(net, t', rest', bucket + 1, count, usable)
  }

  function LoadSlots(net: Net, t: State, rest: seq<Token>, bucket: nat, n: int, size: int, usable: bool): Parsed
    decreases size - n
  {
    if n >= size then Parsed(t, rest)
    else if rest == [] || !rest[0].TInt? then Failed
    else LoadSlots(net, WithSlot(net, t, bucket, rest[0].value, usable), rest[1..], bucket, n + 1, size, usable)
  }

  function WithSlot(net: Net, t: State, bucket: nat, index: int, usable: bool): State {
    if 0 <= index < t.nNew && index in t.info then
      var u := NewSlotIn(net, t.key, bucket, t.info[index].service);
      if usable && u !in t.newTable && t.info[index].refCount < NEW_BUCKETS_PER_ADDRESS then Ops.List(t, u, index) else t
    else t
  }

  /** Deletes the entries that ended up in no table. */
  function Prune(t: State, ids: seq<int>): State
    decreases |ids|
  {
    if ids == [] then t else
    var id := ids[0];
    Prune(if id in t.info && !t.info[id].inTried && t.info[id].refCount == 0 then Ops.Delete(t, id) else t, ids[1..])
  }

  predicate WellFramed(stream: seq<Token>) {
    && |stream| >= 6
    && stream[0].TByte? && stream[1] == TByte(32) && stream[2].TKey?
    && stream[3].TInt? && stream[4].TInt? && stream[5].TInt?
    && stream[3].value <= NEW_BUCKET_COUNT * BUCKET_SIZE
    && stream[4].value <= TRIED_BUCKET_COUNT * BUCKET_SIZE
  }

  function BucketCount(stream: seq<Token>): int
    requires WellFramed(stream)
  {
    if stream[0].byte != 0 then FlipBit30(stream[5].value) else stream[5].value
  }

  predicate Usable(stream: seq<Token>)
    requires WellFramed(stream)
  {
    stream[0].byte == 1 && BucketCount(stream) == NEW_BUCKET_COUNT
  }

  /** Reads a stream into a cleared manager; `collisions` are those it still had. */
  function Unserialize(net: Net, stream: seq<Token>, collisions: set<int>): Parsed {
    if !WellFramed(stream) then Failed else
    var t0 := Empty(stream[2].key).(nNew := stream[3].value, nTried := stream[4].value, collisions := collisions);
    LoadAll(net, t0, stream[6..], BucketCount(stream), Usable(stream))
  }

  /** Everything after the header. */
  function LoadAll(net: Net, t0: State, rest: seq<Token>, count: int, usable: bool): Parsed {
    match LoadNew(net, t0, rest, 0, usable)
    case Failed => Failed
    case Parsed(t1, rest1) =>
      match LoadTried(net, t1.(idCount := t1.nNew), rest1, 0, 0)
      case Failed => Failed
      case Parsed(t2, rest2) =>
        match LoadBuckets(net, t2, rest2, 0, count, usable)
        case Failed => Failed
        case Parsed(t3, rest3) => Parsed(Prune(t3, Ascending(t3.info.Keys)), rest3)
  }

  // ----- One step of each reader -----

  lemma LoadNewUnfold(net: Net, t: State, rest: seq<Token>, n: int, usable: bool)
    ensures LoadNew(net, t, rest, n, usable) ==
      if n >= t.nNew then Parsed(t, rest)
      else if rest == [] || !rest[0].TEntry? then Failed
      else LoadNew(net, WithNew(net, t, rest[0].entry, n, usable), rest[1..], n + 1, usable)
  {
    hide WithNew;
  }

  lemma LoadTriedUnfold(net: Net, t: State, rest: seq<Token>, n: int, lost: nat)
    ensures LoadTried(net, t, rest, n, lost) ==
      if n >= t.nTried then Parsed(t.(nTried := t.nTried - lost), rest)
      else if rest == [] || !rest[0].TEntry? then Failed
      else if TriedSlot(net, t.key, rest[0].entry.service) in t.triedTable then LoadTried(net, t, rest[1..], n + 1, lost + 1)
      else LoadTried(net, WithTried(net, t, rest[0].entry), rest[1..], n + 1, lost)
  {
    hide WithTried, TriedSlot;
  }

  lemma LoadSlotsUnfold(net: Net, t: State, rest: seq<Token>, bucket: nat, n: int, size: int, usable: bool)
    ensures LoadSlots(net, t, rest, bucket, n, size, usable) ==
      if n >= size then Parsed(t, rest)
      else if rest == [] || !rest[0].TInt? then Failed
      else LoadSlots(net, WithSlot(net, t, bucket, rest[0].value, usable), rest[1..], bucket, n + 1, size, usable)
  {
    hide WithSlot;
  }

  lemma PruneUnfold(t: State, ids: seq<int>)
    ensures Prune(t, ids) == if ids == [] then t else
      var id := ids[0];
      Prune(if id in t.info && !t.info[id].inTried && t.info[id].refCount == 0 then Ops.Delete(t, id) else t, ids[1..])
  {
    hide Ops.Delete;
  }

  lemma OccupiedUnfold(table: Table, bucket: nat, p: nat)
    ensures Occupied(table, bucket, p) ==
      if p >= BUCKET_SIZE then 0 else (if Slot(bucket, p) in table then 1 else 0) + Occupied(table, bucket, p + 1)
  {
  }

  lemma SlotTokensUnfold(info: Infos, ids: seq<int>, table: Table, bucket: nat, p: nat)
    ensures SlotTokens(info, ids, table, bucket, p) ==
      if p >= BUCKET_SIZE then []
      else if Slot(bucket, p) in table then [TInt(Index(info, ids, table[Slot(bucket, p)]))] + SlotTokens(info, ids, table, bucket, p + 1)
      else SlotTokens(info, ids, table, bucket, p + 1)
  {
    hide Index;
    var more := SlotTokens(info, ids, table, bucket, p + 1);
    assert [] + more == more;
  }

  lemma BucketTokensUnfold(info: Infos, ids: seq<int>, table: Table, bucket: nat)
    ensures BucketTokens(info, ids, table, bucket) ==
      if bucket >= NEW_BUCKET_COUNT then []
      else ([TInt(Occupied(table, bucket, 0))] + SlotTokens(info, ids, table, bucket, 0)) + BucketTokens(info, ids, table, bucket + 1)
  {
    hide Index, Occupied, SlotTokens;
  }
}
