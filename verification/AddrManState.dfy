/** The state of the stochastic address manager (src/addrman.h): the five redundant
    indexes, the counters, and the consistency every operation has to keep.

    Cheap hashes, address groups and the routability test are function values, so every
    theorem holds for every hash function; only the reductions modulo the bucket counts
    are fixed. */
module AddrManState {

  const TRIED_BUCKETS_PER_GROUP := 8
  const NEW_BUCKETS_PER_SOURCE_GROUP := 64
  const TRIED_BUCKET_COUNT := 256
  const NEW_BUCKET_COUNT := 1024
  const BUCKET_SIZE := 64
  const NEW_BUCKETS_PER_ADDRESS := 8
  const HORIZON_DAYS := 30
  const RETRIES := 3
  const MAX_FAILURES := 10
  const MIN_FAIL_DAYS := 7
  const REPLACEMENT_HOURS := 4
  const GETADDR_MAX_PCT := 23
  const GETADDR_MAX := 2500
  const SET_TRIED_COLLISION_SIZE := 10
  const TEST_WINDOW := 40 * 60

  /** An IP address without a port, read as one 128-bit number: the key of `mapAddr`. */
  type NetAddr = nat

  datatype Service = Service(net: NetAddr, port: nat)

  datatype Address = Address(service: Service, services: bv64, nTime: nat)

  /** The range of an address, the keyed bucket hashes as functions of everything the source feeds
      into them, and the two address tests. */
  datatype Net = Net(
    group: NetAddr -> nat,
    addressHash: (nat, Service) -> nat,
    triedHash: (nat, nat, nat) -> nat,
    groupsHash: (nat, nat, nat) -> nat,
    newHash: (nat, nat, nat) -> nat,
    positionHash: (nat, bool, nat, Service) -> nat,
    routable: NetAddr -> bool,
    valid: NetAddr -> bool)

  datatype Info = Info(
    service: Service,
    services: bv64,
    nTime: nat,
    source: NetAddr,
    lastTry: int,
    lastCountAttempt: int,
    lastSuccess: int,
    attempts: int,
    refCount: int,
    inTried: bool,
    randomPos: int)

  datatype Slot = Slot(bucket: nat, pos: nat)

  /** A bucket table maps its occupied slots to ids; a slot holding -1 is not in the map. */
  datatype State = State(
    key: nat,
    idCount: int,
    info: map<int, Info>,
    addrs: map<NetAddr, int>,
    random: seq<int>,
    nTried: int,
    triedTable: map<Slot, int>,
    nNew: int,
    newTable: map<Slot, int>,
    lastGood: int,
    collisions: set<int>)

  function Empty(key: nat): State {
    State(key, 0, map[], map[], [], 0, map[], 0, map[], 1, {})
  }

  // ----- Bucket placement (src/addrman.cpp:12-31) -----

  function TriedBucket(net: Net, key: nat, a: Service): (b: nat)
    ensures b < TRIED_BUCKET_COUNT
  {
    net.triedHash(key, net.group(a.net), net.addressHash(key, a) % TRIED_BUCKETS_PER_GROUP) % TRIED_BUCKET_COUNT
  }

  function NewBucket(net: Net, key: nat, a: Service, source: NetAddr): (b: nat)
    ensures b < NEW_BUCKET_COUNT
  {
    var g := net.group(source);
    net.newHash(key, g, net.groupsHash(key, net.group(a.net), g) % NEW_BUCKETS_PER_SOURCE_GROUP) % NEW_BUCKET_COUNT
  }

  function BucketPosition(net: Net, key: nat, isNew: bool, bucket: nat, a: Service): (p: nat)
    ensures p < BUCKET_SIZE
  {
    net.positionHash(key, isNew, bucket, a) % BUCKET_SIZE
  }

  /** The one slot of the tried table that an address may occupy. */
  function TriedSlot(net: Net, key: nat, a: Service): Slot {
    var b := TriedBucket(net, key, a);
    Slot(b, BucketPosition(net, key, false, b, a))
  }

  /** The one slot of new bucket `bucket` that an address may occupy. */
  function NewSlotIn(net: Net, key: nat, bucket: nat, a: Service): Slot {
    Slot(bucket, BucketPosition(net, key, true, bucket, a))
  }

  function NewSlot(net: Net, key: nat, a: Service, source: NetAddr): Slot {
    NewSlotIn(net, key, NewBucket(net, key, a, source), a)
  }

  function SlotNumber(slot: Slot): nat {
    slot.bucket * BUCKET_SIZE + slot.pos
  }

  lemma SlotNumberInjective(x: Slot, y: Slot)
    requires x.pos < BUCKET_SIZE && y.pos < BUCKET_SIZE && SlotNumber(x) == SlotNumber(y)
    ensures x == y
  {
  }

  // ----- Entry statistics -----

  predicate IsTerrible(i: Info, now: int) {
    if i.lastTry != 0 && i.lastTry >= now - 60 then false
    else if i.nTime > now + 10 * 60 then true
    else if i.nTime == 0 || now - i.nTime > HORIZON_DAYS * 24 * 60 * 60 then true
    else if i.lastSuccess == 0 && i.attempts >= RETRIES then true
    else now - i.lastSuccess > MIN_FAIL_DAYS * 24 * 60 * 60 && i.attempts >= MAX_FAILURES
  }

  /** An entry is worth keeping if it was tried in the last minute; or if it was seen in the last
      thirty days and not more than ten minutes ahead, and has not failed too often: three times if
      it never succeeded, ten times if that was more than a week ago. */
  lemma WorthKeeping(i: Info, now: int)
    ensures !IsTerrible(i, now) <==>
      || (i.lastTry != 0 && now - i.lastTry <= 60)
      || (i.nTime != 0 && -600 <= now - i.nTime <= 2592000
          && (i.lastSuccess == 0 ==> i.attempts < 3) && (now - i.lastSuccess > 604800 ==> i.attempts < 10))
  {
  }

  function NewInfo(a: Address, source: NetAddr): Info {
    Info(a.service, a.services, a.nTime, source, 0, 0, 0, 0, 0, false, -1)
  }

  // ----- Consistency -----

  type Infos = map<int, Info>
  type Table = map<Slot, int>

  /** The slots of a table that hold `id`. */
  function Slots(table: Table, id: int): set<Slot> {
    set slot | slot in table && table[slot] == id
  }

  function NewIds(info: Infos): set<int> {
    set id | id in info && !info[id].inTried
  }

  function TriedIds(info: Infos): set<int> {
    set id | id in info && info[id].inTried
  }

  ghost predicate IdsAllocated(info: Infos, idCount: int) {
    idCount >= 0 && forall id :: id in info ==> 0 <= id < idCount
  }

  /** `mapAddr` and `mapInfo` are inverse to each other on addresses. */
  ghost predicate AddrIndex(info: Infos, addrs: map<NetAddr, int>) {
    && (forall id :: id in info ==> info[id].service.net in addrs && addrs[info[id].service.net] == id)
    && (forall a :: a in addrs ==> var id := addrs[a]; id in info && info[id].service.net == a)
  }

  /** `vRandom` lists every id once, and every entry points back at its place. */
  ghost predicate RandomIndex(info: Infos, random: seq<int>) {
    && (forall id :: id in info ==> 0 <= info[id].randomPos < |random| && random[info[id].randomPos] == id)
    && (forall i :: 0 <= i < |random| ==> var id := random[i]; id in info && info[id].randomPos == i)
  }

  /** Tried entries sit in exactly their own slot. */
  ghost predicate TriedIndex(net: Net, key: nat, info: Infos, table: Table) {
    && (forall slot :: slot in table ==> var id := table[slot];
          id in info && info[id].inTried && slot == TriedSlot(net, key, info[id].service))
    && (forall id :: id in info && info[id].inTried ==>
          TriedSlot(net, key, info[id].service) in table && table[TriedSlot(net, key, info[id].service)] == id)
  }

  /** New slots hold untried entries at their own position of that bucket. */
  ghost predicate NewSlotsOk(net: Net, key: nat, info: Infos, table: Table) {
    forall slot :: slot in table ==> var id := table[slot];
      && slot.bucket < NEW_BUCKET_COUNT
      && id in info && !info[id].inTried
      && slot == NewSlotIn(net, key, slot.bucket, info[id].service)
  }

  /** Reference counts are exact, and every entry outside `loose` is in some table. */
  ghost predicate RefCounts(info: Infos, table: Table, loose: set<int>) {
    forall id :: id in info ==>
      && info[id].refCount == |Slots(table, id)|
      && info[id].refCount <= NEW_BUCKETS_PER_ADDRESS
      && (id !in loose && !info[id].inTried ==> info[id].refCount >= 1)
  }

  ghost predicate Indexed(s: State) {
    IdsAllocated(s.info, s.idCount) && AddrIndex(s.info, s.addrs) && RandomIndex(s.info, s.random)
  }

  ghost predicate Tabled(net: Net, s: State, loose: set<int>) {
    && TriedIndex(net, s.key, s.info, s.triedTable)
    && NewSlotsOk(net, s.key, s.info, s.newTable)
    && RefCounts(s.info, s.newTable, loose)
  }

  /** All the indexes agree, except that ids in `loose` may be in no table. The private
      helpers of the source work on states with up to two loose ids. */
  ghost predicate Shape(net: Net, s: State, loose: set<int>) {
    Indexed(s) && Tabled(net, s, loose)
  }

  /** The counters are off by exactly the given amounts. */
  ghost predicate Counted(s: State, extraNew: int, extraTried: int) {
    && s.nNew == |NewIds(s.info)| + extraNew
    && s.nTried == |TriedIds(s.info)| + extraTried
  }

  ghost predicate CollisionsPending(net: Net, s: State) {
    && |s.collisions| <= SET_TRIED_COLLISION_SIZE
    && (forall id :: id in s.collisions ==> 0 <= id < s.idCount)
    && (forall id :: id in s.collisions && id in s.info ==> TriedSlot(net, s.key, s.info[id].service) in s.triedTable)
  }

  /** The consistency of a state between two public operations. */
  ghost predicate Consistent(net: Net, s: State) {
    Shape(net, s, {}) && Counted(s, 0, 0) && CollisionsPending(net, s)
  }

  /** The clauses of the source's self-check that speak of times. */
  ghost predicate TimesOk(s: State) {
    forall id :: id in s.info ==>
      && s.info[id].lastTry >= 0
      && s.info[id].lastSuccess >= 0
      && (s.info[id].inTried ==> s.info[id].lastSuccess != 0)
  }

  /** `mapAddr[a]` of the source: a missing address reads as id 0. */
  function AddrLookup(addrs: map<NetAddr, int>, a: NetAddr): int {
    if a in addrs then addrs[a] else 0
  }

  /** What the source's self-check demands of one entry. */
  predicate EntryPasses(id: int, i: Info, addrs: map<NetAddr, int>, random: seq<int>) {
    && (if i.inTried then i.lastSuccess != 0 && i.refCount == 0 else 1 <= i.refCount <= NEW_BUCKETS_PER_ADDRESS)
    && AddrLookup(addrs, i.service.net) == id
    && 0 <= i.randomPos < |random| && random[i.randomPos] == id
    && i.lastTry >= 0 && i.lastSuccess >= 0
  }

  ghost predicate NewTablePasses(net: Net, key: nat, info: Infos, table: Table) {
    && (forall slot :: slot in table ==> var id := table[slot];
          id in info && !info[id].inTried && slot.pos == BucketPosition(net, key, true, slot.bucket, info[id].service))
    && (forall id :: id in info && !info[id].inTried ==> |Slots(table, id)| == info[id].refCount)
  }

  /** Everything the source's self-check demands (src/addrman.cpp:399-473). */
  ghost predicate PassesCheck(net: Net, s: State) {
    && |s.random| == s.nTried + s.nNew
    && (forall id :: id in s.info ==> EntryPasses(id, s.info[id], s.addrs, s.random))
    && |TriedIds(s.info)| == s.nTried
    && |NewIds(s.info)| == s.nNew
    && TriedIndex(net, s.key, s.info, s.triedTable)
    && NewTablePasses(net, s.key, s.info, s.newTable)
    && s.key != 0
  }

  // ----- Elementary facts -----

  lemma SlotsInsert(table: Table, slot: Slot, id: int)
    requires slot !in table
    ensures Slots(table[slot := id], id) == Slots(table, id) + {slot}
    ensures |Slots(table[slot := id], id)| == |Slots(table, id)| + 1
    ensures forall x :: x != id ==> Slots(table[slot := id], x) == Slots(table, x)
  {
    assert Slots(table[slot := id], id) == Slots(table, id) + {slot};
    forall x | x != id ensures Slots(table[slot := id], x) == Slots(table, x) {
      assert forall y :: y in Slots(table[slot := id], x) <==> y in Slots(table, x);
    }
  }

  lemma SlotsRemove(table: Table, slot: Slot)
    requires slot in table
    ensures Slots(table - {slot}, table[slot]) == Slots(table, table[slot]) - {slot}
    ensures |Slots(table - {slot}, table[slot])| == |Slots(table, table[slot])| - 1
    ensures forall x :: x != table[slot] ==> Slots(table - {slot}, x) == Slots(table, x)
  {
    assert Slots(table - {slot}, table[slot]) == Slots(table, table[slot]) - {slot};
    forall x | x != table[slot] ensures Slots(table - {slot}, x) == Slots(table, x) {
      assert forall y :: y in Slots(table - {slot}, x) <==> y in Slots(table, x);
    }
  }

  /** The new and tried ids split the ids. */
  lemma IdsSplit(info: Infos)
    ensures |NewIds(info)| + |TriedIds(info)| == |info|
  {
    assert NewIds(info) + TriedIds(info) == info.Keys;
    assert NewIds(info) !! TriedIds(info);
  }

  /** A `vRandom` with exact back-pointers is as long as the id table is large. */
  lemma {:induction false} RandomCounts(random: seq<int>, ids: set<int>)
    requires forall i :: 0 <= i < |random| ==> random[i] in ids
    requires forall i, j :: 0 <= i < j < |random| ==> random[i] != random[j]
    requires forall id :: id in ids ==> id in random
    ensures |random| == |ids|
  {
    if random == [] {
      assert forall id :: id in ids ==> id in random;
      assert ids == {};
    } else {
      var n := |random| - 1;
      var last := random[n];
      var rest := random[..n];
      forall id | id in ids - {last} ensures id in rest {
        var i :| 0 <= i < |random| && random[i] == id;
        assert rest[i] == id;
      }
      RandomCounts(rest, ids - {last});
    }
  }

  lemma RandomSize(s: State)
    requires RandomIndex(s.info, s.random)
    ensures |s.random| == |s.info|
  {
    forall i, j | 0 <= i < j < |s.random| ensures s.random[i] != s.random[j] {
      var a, b := s.random[i], s.random[j];
      assert s.info[a].randomPos == i && s.info[b].randomPos == j;
    }
    RandomCounts(s.random, s.info.Keys);
  }

  /** The kept invariant implies everything the source's self-check asks for. */
  lemma ConsistentPassesCheck(net: Net, s: State)
    requires Consistent(net, s) && TimesOk(s) && s.key != 0
    ensures PassesCheck(net, s)
  {
    hide Indexed, Tabled, CollisionsPending, NewTablePasses, EntryPasses, TriedIndex, RandomIndex, NewIds, TriedIds;
    IdsSplit(s.info);
    EntriesPass(net, s);
    NewPasses(net, s);
  }

  lemma EntriesPass(net: Net, s: State)
    requires Indexed(s) && Tabled(net, s, {}) && TimesOk(s)
    ensures |s.random| == |s.info|
    ensures forall id :: id in s.info ==> EntryPasses(id, s.info[id], s.addrs, s.random)
  {
    hide TriedIndex, NewSlotsOk, Slots;
    RandomSize(s);
    forall id | id in s.info ensures EntryPasses(id, s.info[id], s.addrs, s.random) {
      if s.info[id].inTried {
        NoneReferenced(net, s, id);
      }
    }
  }

  lemma NoneReferenced(net: Net, s: State, id: int)
    requires NewSlotsOk(net, s.key, s.info, s.newTable) && id in s.info && s.info[id].inTried
    ensures |Slots(s.newTable, id)| == 0
  {
    forall slot | slot in s.newTable ensures s.newTable[slot] != id {
      var x := s.newTable[slot];
      assert !s.info[x].inTried;
    }
    assert Slots(s.newTable, id) == {};
  }

  lemma NewPasses(net: Net, s: State)
    requires Tabled(net, s, {})
    ensures NewTablePasses(net, s.key, s.info, s.newTable) && TriedIndex(net, s.key, s.info, s.triedTable)
  {
    hide TriedIndex, Slots;
  }

  /** Conversely, entries with bad times fail it. */
  lemma PassesCheckTimes(net: Net, s: State)
    requires PassesCheck(net, s)
    ensures TimesOk(s)
  {
    hide TriedIndex, NewTablePasses;
    forall id | id in s.info
      ensures s.info[id].lastTry >= 0 && s.info[id].lastSuccess >= 0 && (s.info[id].inTried ==> s.info[id].lastSuccess != 0)
    {
      assert EntryPasses(id, s.info[id], s.addrs, s.random);
    }
  }

  lemma EmptyConsistent(net: Net, key: nat)
    ensures Consistent(net, Empty(key)) && TimesOk(Empty(key))
  {
  }
}
