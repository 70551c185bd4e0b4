/** The address manager as the source runs it (src/addrman.cpp, src/addrman.h): an object whose
    methods update its maps, its random order, its counters and its two bucket arrays in place.
    Every method is proved to do to the state what the function of the same name says. */
module AddrMan {
  import opened AddrManState
  import Ops = AddrManOps
  import Run = AddrManRun
  import Theorems = AddrManTheorems
  import RoundTrip = AddrManRoundTrip
  import opened AddrManSave
  import opened Powers
  import opened SortedSets

  /** The occupied slots of a bucket array. */
  ghost function TableOf(a: array2<int>): (table: Table)
    reads a
    ensures forall b: nat, p: nat :: Slot(b, p) in table <==> b < a.Length0 && p < a.Length1 && a[b, p] != -1
    ensures forall b: nat, p: nat :: Slot(b, p) in table ==> table[Slot(b, p)] == a[b, p]
  {
    map b: nat, p: nat | b < a.Length0 && p < a.Length1 && a[b, p] != -1 :: Slot(b, p) := a[b, p]
  }

  method Store(a: array2<int>, slot: Slot, id: int)
    requires slot.bucket < a.Length0 && slot.pos < a.Length1
    modifies a
    ensures TableOf(a) == if id == -1 then old(TableOf(a)) - {slot} else old(TableOf(a))[slot := id]
  {
    a[slot.bucket, slot.pos] := id;
    ghost var want := if id == -1 then old(TableOf(a)) - {slot} else old(TableOf(a))[slot := id];
    forall s: Slot
      ensures s in TableOf(a) <==> s in want
      ensures s in want ==> TableOf(a)[s] == want[s]
    {
      var Slot(b, p) := s;
    }
  }

  lemma EmptyTable(a: array2<int>)
    requires forall b, p :: 0 <= b < a.Length0 && 0 <= p < a.Length1 ==> a[b, p] == -1
    ensures TableOf(a) == map[]
  {
    forall s: Slot ensures s !in TableOf(a) {
      var Slot(b, p) := s;
    }
  }

  method Wipe(a: array2<int>)
    modifies a
    ensures TableOf(a) == map[]
  {
    for b := 0 to a.Length0
      invariant forall x, p :: 0 <= x < b && 0 <= p < a.Length1 ==> a[x, p] == -1
    {
      for i := 0 to a.Length1
        invariant forall x, p :: 0 <= x < b && 0 <= p < a.Length1 ==> a[x, p] == -1
        invariant forall p :: 0 <= p < i ==> a[b, p] == -1
      {
        a[b, i] := -1;
      }
    }
    EmptyTable(a);
  }

  lemma Regroup(a: seq<Token>, b: seq<Token>, c: seq<Token>)
    ensures a + (b + c) == a + b + c
  {
  }

  lemma NewSlotBounds(net: Net, key: nat, a: Service, source: NetAddr)
    ensures var u := NewSlot(net, key, a, source); u.bucket < NEW_BUCKET_COUNT && u.pos < BUCKET_SIZE
  {
  }

  lemma UnlistShape(net: Net, s: State, id: int)
    requires Consistent(net, s) && id in s.info
    ensures var t := Ops.Unlist(s, id);
      && Shape(net, t, {id}) && id in t.info && t.info[id].refCount == 0 && t.key == s.key
      && t.info[id].inTried == s.info[id].inTried && t.info[id].service == s.info[id].service
  {
    hide Indexed, Tabled, CollisionsPending, Slots;
    Ops.UnlistIndexed(s, id);
    Ops.UnlistTabled(net, s, id);
  }

  lemma FindReady(net: Net, s: State, id: int)
    requires Consistent(net, s) && id in s.info
    ensures id >= 0 && NewSlotsOk(net, s.key, s.info, s.newTable)
  {
    hide AddrIndex, RandomIndex, TriedIndex, RefCounts, CollisionsPending, NewSlotsOk;
  }

  lemma WithNewIs(net: Net, s: State, t: State, e: Saved, n: int, usable: bool)
    requires var i := Load(e).(randomPos := |s.random|);
      t == s.(info := s.info[n := i], addrs := s.addrs[e.service.net := n], random := s.random + [n])
    ensures var u := NewSlot(net, s.key, e.service, e.source);
      WithNew(net, s, e, n, usable) == if !usable && u !in s.newTable then Ops.List(t, u, n) else t
  {
    hide NewSlot, Ops.List;
  }

  /** The tests of Add_ on a known entry. Every reference halves the chance of another one. */
  method TestReference(i: Info, addr: Address, draw: nat) returns (more: bool)
    ensures more == Run.MayReference(i, addr, draw)
  {
    if addr.nTime == 0 || (i.nTime != 0 && addr.nTime <= i.nTime) {
      return false;
    }
    if i.inTried {
      return false;
    }
    if i.refCount == NEW_BUCKETS_PER_ADDRESS {
      return false;
    }
    var factor := 1;
    var n := 0;
    while n < i.refCount
      invariant 0 <= n <= Run.NonNegative(i.refCount) && factor == Pow(2, n)
    {
      factor := factor * 2;
      n := n + 1;
    }
    more := !(factor > 1 && draw % factor != 0);
  }

  lemma ReferenceReady(net: Net, s: State, id: int, i: Info, addr: Address, draw: nat)
    requires Consistent(net, s) && id in s.info && s.info[id] == i && Run.MayReference(i, addr, draw)
    ensures Shape(net, s, {id}) && id >= 0 && !i.inTried && i.refCount < NEW_BUCKETS_PER_ADDRESS
  {
    hide AddrIndex, RandomIndex, TriedIndex, NewSlotsOk, CollisionsPending, Slots, Pow;
    Ops.Tighten(net, s, {}, {id});
  }

  /** The asserts that the counter matches what is written are the source's. */
  method WriteNew(info: Infos, ids: seq<int>, nNew: int) returns (out: seq<Token>, unkIds: map<int, int>)
    requires ids == Ascending(info.Keys) && |Listed(info, ids)| == nNew
    ensures out == Entries(info, Listed(info, ids))
    ensures forall id :: id in info ==> id in unkIds && unkIds[id] == Index(info, ids, id)
  {
    hide Listed, Entries, Index, Tried, IsAscending, Save, Ascending, NumberedTo;
    out, unkIds := [], map[];
    var nIds := 0;
    NothingListed(info, ids);
    NumberedToNone(info, ids);
    for k := 0 to |ids|
      invariant nIds == |Listed(info, ids[..k])| && out == Entries(info, Listed(info, ids[..k]))
      invariant NumberedTo(info, ids, unkIds, k)
    {
      var id := ids[k];
      NewStep(info, ids, k);
      NumberedToNext(info, ids, unkIds, k);
      unkIds := unkIds[id := nIds];
      if info[id].refCount != 0 {
        assert nIds != nNew;
        out := out + [TEntry(Save(info[id]))];
        nIds := nIds + 1;
      }
    }
    assert ids[..|ids|] == ids;
    AllNumbered(info, ids, unkIds);
  }

  method WriteTried(info: Infos, ids: seq<int>, nTried: int) returns (out: seq<Token>)
    requires ids == Ascending(info.Keys) && |Tried(info, ids)| == nTried
    ensures out == Entries(info, Tried(info, ids))
  {
    hide Listed, Entries, Tried, IsAscending, Save;
    out := [];
    var nIds := 0;
    NothingListed(info, ids);
    for k := 0 to |ids|
      invariant nIds == |Tried(info, ids[..k])| && out == Entries(info, Tried(info, ids[..k]))
    {
      var id := ids[k];
      assert id in ids;
      ListedNext(info, ids, k);
      ListedGrows(info, ids, k + 1);
      EntriesNext(info, Tried(info, ids[..k]), id);
      if info[id].inTried {
        assert nIds != nTried;
        out := out + [TEntry(Save(info[id]))];
        nIds := nIds + 1;
      } else {
        assert Tried(info, ids[..k]) + [] == Tried(info, ids[..k]);
      }
    }
    assert ids[..|ids|] == ids;
  }

  class AddrMan {
    const net: Net
    var nKey: nat
    var nIdCount: int
    var mapInfo: map<int, Info>
    var mapAddr: map<NetAddr, int>
    var vRandom: seq<int>
    var nTried: int
    const vvTried: array2<int>
    var nNew: int
    const vvNew: array2<int>
    var nLastGood: int
    var triedCollisions: set<int>

    ghost predicate Layout() {
      && vvTried.Length0 == TRIED_BUCKET_COUNT && vvTried.Length1 == BUCKET_SIZE
      && vvNew.Length0 == NEW_BUCKET_COUNT && vvNew.Length1 == BUCKET_SIZE
      && vvNew != vvTried
    }

    ghost function S(): State
      reads this, vvTried, vvNew
    {
      State(nKey, nIdCount, mapInfo, mapAddr, vRandom, nTried, TableOf(vvTried), nNew, TableOf(vvNew), nLastGood, triedCollisions)
    }

    ghost predicate Valid()
      reads this, vvTried, vvNew
    {
      Layout() && Consistent(net, S())
    }

    constructor (net: Net, key: nat)
      ensures Valid() && S() == Empty(key) && this.net == net && fresh(vvTried) && fresh(vvNew)
    {
      this.net := net;
      nKey, nIdCount, mapInfo, mapAddr, vRandom := key, 0, map[], map[], [];
      nTried, nNew, nLastGood, triedCollisions := 0, 0, 1, {};
      vvTried := new int[TRIED_BUCKET_COUNT, BUCKET_SIZE]((_, _) => -1);
      vvNew := new int[NEW_BUCKET_COUNT, BUCKET_SIZE]((_, _) => -1);
      new;
      EmptyTable(vvTried);
      EmptyTable(vvNew);
      EmptyConsistent(net, key);
    }

    /** Forgets everything except the pending collisions. */
    method Clear(key: nat)
      requires Layout()
      modifies this, vvNew, vvTried
      ensures S() == Empty(key).(collisions := old(triedCollisions))
    {
      hide TableOf;
      vRandom := [];
      nKey := key;
      Wipe(vvNew);
      Wipe(vvTried);
      nIdCount, nTried, nNew, nLastGood := 0, 0, 0, 1;
      mapInfo, mapAddr := map[], map[];
    }

    method Create(addr: Address, source: NetAddr) returns (id: int)
      requires Layout()
      modifies this
      ensures S() == Ops.Create(old(S()), addr, source) && id == old(nIdCount)
    {
      id := nIdCount;
      nIdCount := nIdCount + 1;
      mapInfo := mapInfo[id := NewInfo(addr, source)];
      mapAddr := mapAddr[addr.service.net := id];
      mapInfo := mapInfo[id := mapInfo[id].(randomPos := |vRandom|)];
      vRandom := vRandom + [id];
    }

    method SwapRandom(pos1: nat, pos2: nat)
      requires Layout() && pos1 < |vRandom| && pos2 < |vRandom|
      requires var id1, id2 := vRandom[pos1], vRandom[pos2]; id1 in mapInfo && id2 in mapInfo
      modifies this
      ensures S() == Ops.SwapRandom(old(S()), pos1, pos2)
    {
      if pos1 == pos2 {
        return;
      }
      var id1, id2 := vRandom[pos1], vRandom[pos2];
      mapInfo := mapInfo[id1 := mapInfo[id1].(randomPos := pos2)];
      mapInfo := mapInfo[id2 := mapInfo[id2].(randomPos := pos1)];
      vRandom := vRandom[pos1 := id2];
      vRandom := vRandom[pos2 := id1];
    }

    /** The requires are the source's asserts. */
    method Delete(id: int)
      requires Layout() && RandomIndex(mapInfo, vRandom)
      requires id in mapInfo && !mapInfo[id].inTried && mapInfo[id].refCount == 0
      modifies this
      ensures S() == Ops.Delete(old(S()), id)
    {
      hide TableOf, RandomIndex, Ops.SwapRandom, Consistent;
      Ops.PlaceOf(mapInfo, vRandom, id);
      Ops.LastKnown(mapInfo, vRandom);
      Ops.SwappedLast(S(), id);
      var last := |vRandom| - 1;
      SwapRandom(mapInfo[id].randomPos, last);
      vRandom := vRandom[..|vRandom| - 1];
      mapAddr := mapAddr - {mapInfo[id].service.net};
      mapInfo := mapInfo - {id};
      nNew := nNew - 1;
    }

    method ClearNew(slot: Slot)
      requires Layout() && slot.bucket < NEW_BUCKET_COUNT && slot.pos < BUCKET_SIZE
      requires RandomIndex(mapInfo, vRandom)
      requires slot in TableOf(vvNew) ==>
        var id := TableOf(vvNew)[slot]; id in mapInfo && !mapInfo[id].inTried && mapInfo[id].refCount > 0
      modifies this, vvNew
      ensures S() == Ops.ClearNew(old(S()), slot)
    {
      hide TableOf, RandomIndex, Ops.Delete, Consistent;
      assert slot in TableOf(vvNew) <==> vvNew[slot.bucket, slot.pos] != -1;
      if vvNew[slot.bucket, slot.pos] != -1 {
        var id := vvNew[slot.bucket, slot.pos];
        assert TableOf(vvNew)[slot] == id;
        mapInfo := mapInfo[id := mapInfo[id].(refCount := mapInfo[id].refCount - 1)];
        Store(vvNew, slot, -1);
        if mapInfo[id].refCount == 0 {
          Ops.RandomFrame(old(mapInfo), mapInfo, vRandom);
          Delete(id);
        }
      }
    }

    /** The first loop of MakeTried: takes `id` out of every new bucket. */
    method Unlist(id: int)
      requires Layout() && id in mapInfo && id >= 0 && NewSlotsOk(net, nKey, mapInfo, TableOf(vvNew))
      modifies this, vvNew
      ensures S() == Ops.Unlist(old(S()), id)
    {
      hide NewSlotsOk, Slots, Below, TableOf, Consistent;
      ghost var table, info := TableOf(vvNew), mapInfo;
      ghost var slots := Slots(table, id);
      var a := mapInfo[id].service;
      BelowEnds(net, nKey, info, table, id);
      for bucket := 0 to NEW_BUCKET_COUNT
        modifies `mapInfo, vvNew
        invariant TableOf(vvNew) == table - Below(slots, bucket)
        invariant mapInfo == Unreferenced(info, id, |Below(slots, bucket)|)
      {
        var slot := NewSlotIn(net, nKey, bucket, a);
        BelowNext(net, nKey, info, table, id, bucket);
        if vvNew[bucket, slot.pos] == id {
          assert slot in TableOf(vvNew);
          mapInfo := mapInfo[id := mapInfo[id].(refCount := mapInfo[id].refCount - 1)];
          Store(vvNew, slot, -1);
        }
      }
      nNew := nNew - 1;
    }

    /** Takes the occupant of tried slot `k` out of the tried set. */
    method Untry(k: Slot) returns (e: int)
      requires Layout() && k in TableOf(vvTried) && (var x := TableOf(vvTried)[k]; x in mapInfo)
      modifies this, vvTried
      ensures S() == Ops.Untry(old(S()), k) && e == old(TableOf(vvTried)[k])
    {
      hide TableOf, Consistent;
      e := vvTried[k.bucket, k.pos];
      mapInfo := mapInfo[e := mapInfo[e].(inTried := false)];
      Store(vvTried, k, -1);
      nTried := nTried - 1;
    }

    /** Adds a reference to `e` from the free new slot `u`. */
    method List(u: Slot, e: int)
      requires Layout() && u.bucket < NEW_BUCKET_COUNT && u.pos < BUCKET_SIZE && e in mapInfo && e >= 0
      modifies this, vvNew
      ensures S() == Ops.List(old(S()), u, e)
    {
      hide TableOf, Consistent;
      mapInfo := mapInfo[e := mapInfo[e].(refCount := mapInfo[e].refCount + 1)];
      Store(vvNew, u, e);
    }

    /** The eviction step of MakeTried. */
    method Evict(k: Slot, ghost x: int)
      requires Layout() && k.bucket < TRIED_BUCKET_COUNT && k.pos < BUCKET_SIZE
      requires Shape(net, S(), {x}) && x in mapInfo && mapInfo[x].refCount == 0 && !mapInfo[x].inTried
      modifies this, vvNew, vvTried
      ensures S() == Ops.Evict(net, old(S()), k)
      ensures k !in TableOf(vvTried)
    {
      hide TableOf, Shape, Ops.ClearNew, Ops.ClearedFrom, Ops.Untry, Ops.List;
      ghost var s := S();
      if vvTried[k.bucket, k.pos] != -1 {
        EvictionFacts(net, s, k, x);
        var e := Untry(k);
        var u := NewSlot(net, nKey, mapInfo[e].service, mapInfo[e].source);
        ClearNew(u);
        assert vvNew[u.bucket, u.pos] == -1;
        // The source sets the count to one here; adding one to zero is the same.
        assert mapInfo[e].refCount == 0;
        List(u, e);
        nNew := nNew + 1;
      }
    }

    /** Moves `id` from the new to the tried table. */
    method MakeTried(id: int)
      requires Valid() && id in mapInfo && !mapInfo[id].inTried
      modifies this, vvNew, vvTried
      ensures S() == Ops.MakeTried(net, old(S()), id)
      ensures Valid()
    {
      hide TableOf, Consistent, Shape, Ops.Evict, Ops.Unlist, Ops.EvictedFrom, TriedSlot, Theorems.Evolves;
      ghost var s := S();
      UnlistShape(net, s, id);
      Theorems.MakeTriedConsistent(net, s, id);
      FindReady(net, s, id);
      Unlist(id);
      ghost var s1 := S();
      var k := TriedSlot(net, nKey, mapInfo[id].service);
      TriedSlotBounds(net, nKey, mapInfo[id].service);
      Ops.EvictKeeps(net, s1, k, id);
      Evict(k, id);
      ghost var s2 := S();
      assert Ops.Moved(s1.info[id], s2.info[id]);
      assert k in TableOf(vvTried) <==> vvTried[k.bucket, k.pos] != -1;
      assert vvTried[k.bucket, k.pos] == -1;
      Store(vvTried, k, id);
      nTried := nTried + 1;
      mapInfo := mapInfo[id := mapInfo[id].(inTried := true)];
    }

    /** Looks for a new bucket that holds `id`, starting at a random one. */
    method FindBucket(id: int, rnd: nat) returns (bucket: int)
      requires Layout() && id in mapInfo && id >= 0 && NewSlotsOk(net, nKey, mapInfo, TableOf(vvNew))
      ensures bucket == -1 <==> Slots(TableOf(vvNew), id) == {}
      ensures bucket != -1 ==>
        0 <= bucket < NEW_BUCKET_COUNT && NewSlotIn(net, nKey, bucket, mapInfo[id].service) in Slots(TableOf(vvNew), id)
    {
      hide TableOf, NewSlotsOk;
      var a := mapInfo[id].service;
      bucket := -1;
      var n := 0;
      while n < NEW_BUCKET_COUNT && bucket == -1
        invariant 0 <= n <= NEW_BUCKET_COUNT
        invariant bucket == -1 ==> forall m :: 0 <= m < n ==> NewSlotIn(net, nKey, Around(m, rnd), a) !in Slots(TableOf(vvNew), id)
        invariant bucket != -1 ==> 0 <= bucket < NEW_BUCKET_COUNT && NewSlotIn(net, nKey, bucket, a) in Slots(TableOf(vvNew), id)
      {
        var b := Around(n, rnd);
        var slot := NewSlotIn(net, nKey, b, a);
        if vvNew[b, slot.pos] == id {
          assert slot in Slots(TableOf(vvNew), id);
          bucket := b;
        }
        n := n + 1;
      }
      if bucket == -1 {
        NotFound(net, nKey, mapInfo, TableOf(vvNew), id, rnd);
      }
    }

    method Good(addr: Service, testBeforeEvict: bool, time: int, rnd: nat)
      requires Valid()
      modifies this, vvNew, vvTried
      ensures S() == Run.Good(net, old(S()), addr, testBeforeEvict, time)
      ensures Valid()
    {
      hide TableOf, Consistent, Ops.MakeTried, Slots, Theorems.Evolves, TriedSlot;
      ghost var s := S();
      Theorems.GoodKeeps(net, s, addr, testBeforeEvict, time);
      nLastGood := time;
      if addr.net !in mapAddr || mapAddr[addr.net] !in mapInfo {
        return;
      }
      var id := mapAddr[addr.net];
      if mapInfo[id].service != addr {
        return;
      }
      mapInfo := mapInfo[id := mapInfo[id].(lastSuccess := time, lastTry := time, attempts := 0)];
      ghost var s0 := s.(lastGood := time);
      Theorems.LastGoodOnly(net, s, time);
      Theorems.StatsConsistent(net, s0, id, mapInfo[id]);
      if mapInfo[id].inTried {
        return;
      }
      FindReady(net, S(), id);
      var bucket := FindBucket(id, rnd);
      if bucket == -1 {
        return;
      }
      var k := TriedSlot(net, nKey, mapInfo[id].service);
      TriedSlotBounds(net, nKey, mapInfo[id].service);
      assert k in TableOf(vvTried) <==> vvTried[k.bucket, k.pos] != -1;
      if testBeforeEvict && vvTried[k.bucket, k.pos] != -1 {
        if |triedCollisions| < SET_TRIED_COLLISION_SIZE {
          triedCollisions := triedCollisions + {id};
        }
      } else {
        MakeTried(id);
      }
    }

    /** The placement step of Add_: into the slot chosen by `source`, or out again. */
    method Place(id: int, source: NetAddr, now: int)
      requires Layout() && Shape(net, S(), {id}) && id in mapInfo && id >= 0 && !mapInfo[id].inTried
      modifies this, vvNew
      ensures S() == Run.Place(net, old(S()), id, source, now)
    {
      hide TableOf, Shape, Ops.ClearNew, Ops.Delete, Ops.List, IsTerrible;
      var u := NewSlot(net, nKey, mapInfo[id].service, source);
      PlacementFacts(net, S(), u, id);
      if vvNew[u.bucket, u.pos] != id {
        var insert := vvNew[u.bucket, u.pos] == -1;
        if !insert {
          var x := vvNew[u.bucket, u.pos];
          if IsTerrible(mapInfo[x], now) || (mapInfo[x].refCount > 1 && mapInfo[id].refCount == 0) {
            insert := true;
          }
        }
        if insert {
          ClearNew(u);
          List(u, id);
        } else if mapInfo[id].refCount == 0 {
          Delete(id);
        }
      }
    }

    /** A new entry, counted but not yet in any table. */
    method Introduce(addr: Address, source: NetAddr, penalty: int) returns (id: int)
      requires Layout()
      modifies this
      ensures S() == Run.Introduce(old(S()), addr, source, penalty) && id == old(nIdCount)
    {
      id := Create(addr.(nTime := Run.AsUint32(Run.NonNegative(addr.nTime - penalty))), source);
      nNew := nNew + 1;
    }

    method Add(addr: Address, source: NetAddr, timePenalty: int, now: int, now2: int, draw: nat) returns (isNew: bool)
      requires Valid()
      modifies this, vvNew
      ensures (S(), isNew) == Run.Add(net, old(S()), addr, source, timePenalty, now, now2, draw)
      ensures Valid()
    {
      hide TableOf, AddrIndex, RandomIndex, RefCounts, TriedIndex, NewSlotsOk, CollisionsPending, Run.Place, IsTerrible, Run.Introduce,
        Theorems.Evolves, Run.MayReference;
      ghost var s := S();
      Theorems.KnownIs(s, addr.service.net);
      Theorems.AddKeeps(net, s, addr, source, timePenalty, now, now2, draw);
      if !net.routable(addr.service.net) {
        return false;
      }
      var penalty := if addr.service.net == source then 0 else timePenalty;
      var id: int;
      if addr.service.net in mapAddr && mapAddr[addr.service.net] in mapInfo {
        id := mapAddr[addr.service.net];
        var i := Run.Refreshed(mapInfo[id], addr, penalty, now);
        mapInfo := mapInfo[id := i];
        isNew := false;
        Theorems.StatsConsistent(net, s, id, i);
        var more := TestReference(i, addr, draw);
        if !more {
          return;
        }
        ReferenceReady(net, S(), id, i, addr, draw);
      } else {
        Theorems.IntroduceKeeps(net, s, addr, source, penalty);
        id := Introduce(addr, source, penalty);
        isNew := true;
      }
      Place(id, source, now2);
    }

    method Attempt(addr: Service, countFailure: bool, time: int)
      requires Valid()
      modifies this
      ensures S() == Run.Attempt(old(S()), addr, countFailure, time)
      ensures Valid()
    {
      hide TableOf, Consistent;
      Theorems.AttemptKeeps(net, S(), addr, countFailure, time);
      if addr.net !in mapAddr || mapAddr[addr.net] !in mapInfo {
        return;
      }
      var id := mapAddr[addr.net];
      if mapInfo[id].service != addr {
        return;
      }
      mapInfo := mapInfo[id := mapInfo[id].(lastTry := time)];
      if countFailure && mapInfo[id].lastCountAttempt < nLastGood {
        mapInfo := mapInfo[id := mapInfo[id].(lastCountAttempt := time, attempts := mapInfo[id].attempts + 1)];
      }
    }

    method Connected(addr: Service, time: int)
      requires Valid()
      modifies this
      ensures S() == Run.Connected(old(S()), addr, time)
      ensures Valid()
    {
      hide TableOf, Consistent;
      Theorems.ConnectedKeeps(net, S(), addr, time);
      if addr.net !in mapAddr || mapAddr[addr.net] !in mapInfo {
        return;
      }
      var id := mapAddr[addr.net];
      if mapInfo[id].service != addr {
        return;
      }
      var interval := 20 * 60;
      if time - mapInfo[id].nTime > interval {
        mapInfo := mapInfo[id := mapInfo[id].(nTime := Run.AsUint32(time))];
      }
    }

    method SetServices(addr: Service, services: bv64)
      requires Valid()
      modifies this
      ensures S() == Run.SetServices(old(S()), addr, services)
      ensures Valid()
    {
      hide TableOf, Consistent;
      Theorems.SetServicesKeeps(net, S(), addr, services);
      if addr.net !in mapAddr || mapAddr[addr.net] !in mapInfo {
        return;
      }
      var id := mapAddr[addr.net];
      if mapInfo[id].service != addr {
        return;
      }
      mapInfo := mapInfo[id := mapInfo[id].(services := services)];
    }

    /** One bucket: its size, then the number of each entry in it. */
    method SerializeBucket(bucket: nat, ids: seq<int>, unkIds: map<int, int>) returns (out: seq<Token>)
      requires Layout() && bucket < NEW_BUCKET_COUNT
      requires forall id :: id in mapInfo ==> id in unkIds && unkIds[id] == Index(mapInfo, ids, id)
      requires forall slot :: slot in TableOf(vvNew) ==> var id := TableOf(vvNew)[slot]; id in mapInfo
      ensures out == [TInt(Occupied(TableOf(vvNew), bucket, 0))] + SlotTokens(mapInfo, ids, TableOf(vvNew), bucket, 0)
    {
      hide TableOf, Index, Occupied, SlotTokens;
      ghost var table := TableOf(vvNew);
      var size := 0;
      for i := 0 to BUCKET_SIZE
        invariant size + Occupied(table, bucket, i) == Occupied(table, bucket, 0)
      {
        OccupiedUnfold(table, bucket, i);
        assert Slot(bucket, i) in table <==> vvNew[bucket, i] != -1;
        if vvNew[bucket, i] != -1 {
          size := size + 1;
        }
      }
      OccupiedUnfold(table, bucket, BUCKET_SIZE);
      ghost var total := SlotTokens(mapInfo, ids, table, bucket, 0);
      var slots: seq<Token> := [];
      for i := 0 to BUCKET_SIZE
        invariant slots + SlotTokens(mapInfo, ids, table, bucket, i) == total
      {
        var slot := Slot(bucket, i);
        SlotTokensUnfold(mapInfo, ids, table, bucket, i);
        assert slot in table <==> vvNew[bucket, i] != -1;
        if vvNew[bucket, i] != -1 {
          var id := vvNew[bucket, i];
          assert table[slot] == id && id in mapInfo;
          Regroup(slots, [TInt(unkIds[id])], SlotTokens(mapInfo, ids, table, bucket, i + 1));
          slots := slots + [TInt(unkIds[id])];
        }
      }
      SlotTokensUnfold(mapInfo, ids, table, bucket, BUCKET_SIZE);
      out := [TInt(size)] + slots;
    }

    method Serialize() returns (out: seq<Token>)
      requires Valid()
      ensures out == AddrManSave.Serialize(S())
    {
      hide TableOf, Listed, Tried, Entries, Index, Consistent, RoundTrip.Lists, IsAscending, Ascending, BucketTokens;
      var header := [TByte(1), TByte(32), TKey(nKey), TInt(nNew), TInt(nTried), TInt(FlipBit30(NEW_BUCKET_COUNT))];
      var ids := Ascending(mapInfo.Keys);
      RoundTrip.WrittenParts(net, S());
      NewOccupants(net, S());
      var news, unkIds := WriteNew(mapInfo, ids, nNew);
      var trieds := WriteTried(mapInfo, ids, nTried);
      var buckets := WriteBuckets(ids, unkIds);
      out := header + news + trieds + buckets;
    }

    method WriteBuckets(ids: seq<int>, unkIds: map<int, int>) returns (buckets: seq<Token>)
      requires Layout()
      requires forall id :: id in mapInfo ==> id in unkIds && unkIds[id] == Index(mapInfo, ids, id)
      requires forall slot :: slot in TableOf(vvNew) ==> var id := TableOf(vvNew)[slot]; id in mapInfo
      ensures buckets == BucketTokens(mapInfo, ids, TableOf(vvNew), 0)
    {
      hide TableOf, Index, Occupied, SlotTokens, BucketTokens;
      ghost var table := TableOf(vvNew);
      buckets := [];
      ghost var total := BucketTokens(mapInfo, ids, table, 0);
      for bucket := 0 to NEW_BUCKET_COUNT
        invariant buckets + BucketTokens(mapInfo, ids, table, bucket) == total
      {
        var tokens := SerializeBucket(bucket, ids, unkIds);
        BucketTokensUnfold(mapInfo, ids, table, bucket);
        Regroup(buckets, tokens, BucketTokens(mapInfo, ids, table, bucket + 1));
        buckets := buckets + tokens;
      }
      BucketTokensUnfold(mapInfo, ids, table, NEW_BUCKET_COUNT);
    }

    /** Enters one new entry under number `n`. */
    method EnterNew(e: Saved, n: nat, usable: bool)
      requires Layout()
      modifies this, vvNew
      ensures S() == WithNew(net, old(S()), e, n, usable)
    {
      hide TableOf, NewSlot, WithNew, Ops.List;
      ghost var s := S();
      var i := Load(e).(randomPos := |vRandom|);
      mapInfo := mapInfo[n := i];
      mapAddr := mapAddr[e.service.net := n];
      vRandom := vRandom + [n];
      WithNewIs(net, s, S(), e, n, usable);
      if !usable {
        var u := NewSlot(net, nKey, i.service, i.source);
        NewSlotBounds(net, nKey, i.service, i.source);
        assert u in TableOf(vvNew) <==> vvNew[u.bucket, u.pos] != -1;
        if vvNew[u.bucket, u.pos] == -1 {
          List(u, n);
        }
      }
    }

    /** Reads the new entries; `pos` is the place in the stream. */
    method ReadNew(stream: seq<Token>, pos: nat, usable: bool) returns (ok: bool, pos': nat)
      requires Layout() && pos <= |stream| && mapInfo == map[] && vRandom == []
      modifies this, vvNew
      ensures Numbered(mapInfo, vRandom, 0, if nNew < 0 then 0 else nNew) || !ok
      ensures Agrees(LoadNew(net, old(S()), stream[pos..], 0, usable), ok, S(), stream, pos')
    {
      hide TableOf, WithNew, LoadNew, Numbered;
      ok, pos' := true, pos;
      var n := 0;
      ghost var want := LoadNew(net, S(), stream[pos..], 0, usable);
      NumberedNone(0);
      while n < nNew
        invariant 0 <= n && (n <= nNew || (n == 0 && nNew < 0)) && pos' <= |stream|
        invariant want == LoadNew(net, S(), stream[pos'..], n, usable)
        invariant Numbered(mapInfo, vRandom, 0, n)
        decreases nNew - n
      {
        LoadNewUnfold(net, S(), stream[pos'..], n, usable);
        if pos' == |stream| || !stream[pos'].TEntry? {
          ok := false;
          return;
        }
        ghost var s := S();
        WithNewNumbered(net, s, stream[pos'].entry, n, usable);
        EnterNew(stream[pos'].entry, n, usable);
        assert stream[pos'..][1..] == stream[pos' + 1..];
        pos', n := pos' + 1, n + 1;
      }
      LoadNewUnfold(net, S(), stream[pos'..], n, usable);
    }

    method EnterTried(e: Saved)
      requires Layout()
      modifies this, vvTried
      ensures S() == WithTried(net, old(S()), e)
    {
      hide TableOf;
      var i := Load(e).(randomPos := |vRandom|, inTried := true);
      var k := TriedSlot(net, nKey, e.service);
      vRandom := vRandom + [nIdCount];
      mapInfo := mapInfo[nIdCount := i];
      mapAddr := mapAddr[e.service.net := nIdCount];
      Store(vvTried, k, nIdCount);
      nIdCount := nIdCount + 1;
    }

    method ReadTried(stream: seq<Token>, pos: nat) returns (ok: bool, pos': nat)
      requires Layout() && pos <= |stream| && Numbered(mapInfo, vRandom, if nIdCount < 0 then nIdCount else 0, nIdCount)
      modifies this, vvTried
      ensures nIdCount >= old(nIdCount) && nNew == old(nNew)
      ensures Numbered(mapInfo, vRandom, if old(nIdCount) < 0 then old(nIdCount) else 0, nIdCount) || !ok
      ensures Agrees(LoadTried(net, old(S()), stream[pos..], 0, 0), ok, S(), stream, pos')
    {
      hide TableOf, WithTried, LoadTried, Numbered, TriedSlot;
      ok, pos' := true, pos;
      ghost var low := if nIdCount < 0 then nIdCount else 0;
      var n, lost := 0, 0;
      ghost var want := LoadTried(net, S(), stream[pos..], 0, 0);
      while n < nTried
        invariant 0 <= n && 0 <= lost && pos' <= |stream|
        invariant want == LoadTried(net, S(), stream[pos'..], n, lost)
        invariant Numbered(mapInfo, vRandom, low, nIdCount) && nIdCount >= old(nIdCount) && nNew == old(nNew)
        decreases nTried - n
      {
        LoadTriedUnfold(net, S(), stream[pos'..], n, lost);
        if pos' == |stream| || !stream[pos'].TEntry? {
          ok := false;
          return;
        }
        var e := stream[pos'].entry;
        var k := TriedSlot(net, nKey, e.service);
        TriedSlotBounds(net, nKey, e.service);
        assert stream[pos'..][1..] == stream[pos' + 1..];
        if vvTried[k.bucket, k.pos] == -1 {
          WithTriedNumbered(net, S(), e, low);
          EnterTried(e);
        } else {
          lost := lost + 1;
        }
        pos', n := pos' + 1, n + 1;
      }
      LoadTriedUnfold(net, S(), stream[pos'..], n, lost);
      nTried := nTried - lost;
    }

    /** Enters entry number `index` into its slot of `bucket`, if there is room. */
    method EnterSlot(bucket: nat, index: int, usable: bool)
      requires Layout() && (usable ==> bucket < NEW_BUCKET_COUNT)
      requires forall id :: 0 <= id < nNew ==> id in mapInfo
      modifies this, vvNew
      ensures S() == WithSlot(net, old(S()), bucket, index, usable)
    {
      hide TableOf;
      if index >= 0 && index < nNew {
        var u := NewSlotIn(net, nKey, bucket, mapInfo[index].service);
        if usable && vvNew[u.bucket, u.pos] == -1 && mapInfo[index].refCount < NEW_BUCKETS_PER_ADDRESS {
          List(u, index);
        }
      }
    }

    method ReadSlots(stream: seq<Token>, pos: nat, bucket: nat, size: int, usable: bool) returns (ok: bool, pos': nat)
      requires Layout() && pos <= |stream| && (usable ==> bucket < NEW_BUCKET_COUNT) && Ready(S())
      modifies this, vvNew
      ensures Ready(S())
      ensures Agrees(LoadSlots(net, old(S()), stream[pos..], bucket, 0, size, usable), ok, S(), stream, pos')
    {
      hide TableOf, WithSlot, LoadSlots, RandomIndex;
      ok, pos' := true, pos;
      var n := 0;
      ghost var want := LoadSlots(net, S(), stream[pos..], bucket, 0, size, usable);
      while n < size
        invariant 0 <= n && pos' <= |stream|
        invariant want == LoadSlots(net, S(), stream[pos'..], bucket, n, size, usable)
        invariant Ready(S())
        decreases size - n
      {
        LoadSlotsUnfold(net, S(), stream[pos'..], bucket, n, size, usable);
        if pos' == |stream| || !stream[pos'].TInt? {
          ok := false;
          return;
        }
        WithSlotReady(net, S(), bucket, stream[pos'].value, usable);
        EnterSlot(bucket, stream[pos'].value, usable);
        assert stream[pos'..][1..] == stream[pos' + 1..];
        pos', n := pos' + 1, n + 1;
      }
      LoadSlotsUnfold(net, S(), stream[pos'..], bucket, n, size, usable);
    }

    method ReadBuckets(stream: seq<Token>, pos: nat, count: int, usable: bool) returns (ok: bool, pos': nat)
      requires Layout() && pos <= |stream| && (usable ==> count == NEW_BUCKET_COUNT) && Ready(S())
      modifies this, vvNew
      ensures Ready(S())
      ensures Agrees(LoadBuckets(net, old(S()), stream[pos..], 0, count, usable), ok, S(), stream, pos')
    {
      hide TableOf, LoadSlots, Ready;
      ok, pos' := true, pos;
      var bucket := 0;
      ghost var want := LoadBuckets(net, S(), stream[pos..], 0, count, usable);
      while bucket < count
        invariant 0 <= bucket && pos' <= |stream|
        invariant want == LoadBuckets(net, S(), stream[pos'..], bucket, count, usable)
        invariant Ready(S())
        decreases count - bucket
      {
        if pos' == |stream| || !stream[pos'].TInt? {
          ok := false;
          return;
        }
        assert stream[pos'..][1..] == stream[pos' + 1..];
        ok, pos' := ReadSlots(stream, pos' + 1, bucket, stream[pos'].value, usable);
        if !ok {
          return;
        }
        bucket := bucket + 1;
      }
    }

    /** Deletes the entries that no table refers to. */
    method PruneUnreferenced()
      requires Layout() && RandomIndex(mapInfo, vRandom)
      modifies this
      ensures S() == Prune(old(S()), Ascending(old(mapInfo).Keys))
    {
      hide TableOf, RandomIndex, Ops.Delete, IsAscending, Prune;
      var ids := Ascending(mapInfo.Keys);
      var i := 0;
      ghost var want := Prune(S(), ids);
      while i < |ids|
        invariant 0 <= i <= |ids| && RandomIndex(mapInfo, vRandom)
        invariant want == Prune(S(), ids[i..])
      {
        var id := ids[i];
        PruneUnfold(S(), ids[i..]);
        assert ids[i..][0] == id && ids[i..][1..] == ids[i + 1..];
        if id in mapInfo && !mapInfo[id].inTried && mapInfo[id].refCount == 0 {
          Ops.DeleteOrder(S(), id);
          Delete(id);
        }
        i := i + 1;
      }
      PruneUnfold(S(), ids[i..]);
    }

    /** Reads a manager from a stream; on failure what was read so far stays. */
    method Unserialize(stream: seq<Token>, key: nat) returns (ok: bool, pos: nat)
      requires Layout()
      modifies this, vvNew, vvTried
      ensures Agrees(AddrManSave.Unserialize(net, stream, old(triedCollisions)), ok, S(), stream, pos)
    {
      hide TableOf, LoadAll, BucketCount;
      pos, ok := 0, true;
      Clear(key);
      if !WellFramed(stream) {
        ok := false;
        return;
      }
      nKey, nNew, nTried := stream[2].key, stream[3].value, stream[4].value;
      var count := BucketCount(stream);
      var usable := stream[0].byte == 1 && count == NEW_BUCKET_COUNT;
      assert S() == Empty(nKey).(nNew := nNew, nTried := nTried, collisions := triedCollisions);
      ok, pos := ReadAll(stream, 6, count, usable);
    }

    method ReadAll(stream: seq<Token>, from: nat, count: int, usable: bool) returns (ok: bool, pos: nat)
      requires Layout() && from <= |stream| && (usable ==> count == NEW_BUCKET_COUNT) && mapInfo == map[] && vRandom == []
      modifies this, vvNew, vvTried
      ensures Agrees(LoadAll(net, old(S()), stream[from..], count, usable), ok, S(), stream, pos)
    {
      hide TableOf, LoadNew, LoadTried, LoadBuckets, Prune, Numbered, RandomIndex, IsAscending, Ready;
      ok, pos := ReadNew(stream, from, usable);
      if !ok {
        return;
      }
      nIdCount := nNew;
      NumberedLow(mapInfo, vRandom, nNew);
      ok, pos := ReadTried(stream, pos);
      if !ok {
        return;
      }
      NumberedReady(S(), if nNew < 0 then nNew else 0);
      ok, pos := ReadBuckets(stream, pos, count, usable);
      if !ok {
        return;
      }
      ReadyIndex(S());
      PruneUnreferenced();
    }

    /** `draws` and `clock` give the random numbers and the times read in each round. */
    method GetAddr(draws: nat -> nat, clock: nat -> int) returns (vAddr: seq<Address>)
      requires Valid()
      modifies this
      ensures var (t, ids) := Run.GetAddrFrom(old(S()), [], 0, Run.GetAddrLimit(old(S())), draws, clock);
        S() == t && vAddr == AddressesOf(mapInfo, ids)
      ensures Valid()
    {
      hide TableOf, Consistent, RandomIndex, Ops.SwapRandom, IsTerrible, Theorems.Evolves, Ops.Moved,
        Ops.KeepsEntries, Run.GetAddrFrom, Run.WithPick, AddressesOf;
      AddressesNone(mapInfo);
      var limit := GETADDR_MAX_PCT * |vRandom| / 100;
      if limit > GETADDR_MAX {
        limit := GETADDR_MAX;
      }
      ghost var ids: seq<int> := [];
      vAddr := [];
      var n := 0;
      while n < |vRandom| && |vAddr| < limit
        invariant 0 <= n <= |vRandom| && Valid()
        invariant Run.GetAddrFrom(S(), ids, n, limit, draws, clock) == Run.GetAddrFrom(old(S()), [], 0, limit, draws, clock)
        invariant vAddr == AddressesOf(mapInfo, ids) && |vAddr| == |ids|
        decreases |vRandom| - n
      {
        var pos := draws(n) % (|vRandom| - n) + n;
        Theorems.DrawFits(draws(n), n, |vRandom|);
        ghost var s := S();
        Run.GetAddrUnfold(s, ids, n, limit, draws, clock);
        Theorems.SwapConsistent(net, s, n, pos);
        Theorems.PlaceKnown(net, s, n);
        Theorems.PlaceKnown(net, s, pos);
        SwapRandom(n, pos);
        Theorems.PlaceKnown(net, S(), n);
        Run.PickIs(S(), ids, n, clock(n));
        AddressesMoved(s, S(), ids);
        AddressesMore(mapInfo, ids, vRandom[n]);
        var id := vRandom[n];
        if !IsTerrible(mapInfo[id], clock(n)) {
          vAddr := vAddr + [AddressOf(mapInfo[id])];
          ids := ids + [id];
        }
        n := n + 1;
      }
      Run.GetAddrUnfold(S(), ids, n, limit, draws, clock);
    }

    method ResolveCollisions(clock: (int, nat) -> int, rnd: nat)
      requires Valid()
      modifies this, vvNew, vvTried
      ensures S() == Run.Resolve(net, old(S()), Ascending(old(triedCollisions)), clock)
      ensures Valid()
    {
      hide TableOf, Consistent, Run.Good, Theorems.Evolves, IsAscending;
      var ids := Ascending(triedCollisions);
      var i := 0;
      while i < |ids|
        invariant 0 <= i <= |ids| && Valid()
        invariant Run.Resolve(net, S(), ids[i..], clock) == Run.Resolve(net, old(S()), ids, clock)
      {
        var id := ids[i];
        ghost var before := S();
        assert ids[i..][0] == id && ids[i..][1..] == ids[i + 1..];
        Theorems.ResolveOneKeeps(net, before, id, clock);
        var erase := ResolveOne(id, clock, rnd);
        Theorems.ForgetCollision(net, S(), id);
        if erase {
          triedCollisions := triedCollisions - {id};
        }
        i := i + 1;
      }
    }

    method ResolveOne(id: int, clock: (int, nat) -> int, rnd: nat) returns (erase: bool)
      requires Valid()
      modifies this, vvNew, vvTried
      ensures (S(), erase) == Run.ResolveOne(net, old(S()), id, clock)
      ensures Valid()
    {
      hide TableOf, Indexed, RefCounts, NewSlotsOk, CollisionsPending, Counted, Run.Good;
      erase := false;
      if id !in mapInfo {
        erase := true;
        return;
      }
      var a := mapInfo[id].service;
      var k := TriedSlot(net, nKey, a);
      if !net.valid(a.net) {
        erase := true;
      } else if vvTried[k.bucket, k.pos] != -1 {
        var idOld := vvTried[k.bucket, k.pos];
        assert k in TableOf(vvTried);
        var occupant := mapInfo[idOld];
        if clock(id, 0) - occupant.lastSuccess < REPLACEMENT_HOURS * (60 * 60) {
          erase := true;
        } else if clock(id, 1) - occupant.lastTry < REPLACEMENT_HOURS * (60 * 60) {
          if clock(id, 2) - occupant.lastTry > 60 {
            Good(a, false, clock(id, 3), rnd);
            erase := true;
          }
        } else if clock(id, 2) - mapInfo[id].lastSuccess > TEST_WINDOW {
          Good(a, false, clock(id, 3), rnd);
          erase := true;
        }
      } else {
        Good(a, false, clock(id, 0), rnd);
        erase := true;
      }
    }

    method SelectTriedCollision(draw: nat) returns (r: Run.Selection)
      requires Valid()
      modifies this
      ensures (S(), r) == Run.SelectTriedCollision(net, old(S()), draw)
      ensures r != Run.UnknownId
      ensures Valid()
    {
      hide TableOf, IsAscending, Indexed, RefCounts, NewSlotsOk, Counted, Theorems.Evolves, Theorems.Blocks;
      Theorems.SelectionKnown(net, S(), draw);
      if |triedCollisions| == 0 {
        return Run.Nothing;
      }
      var ids := Ascending(triedCollisions);
      var id := ids[draw % |ids|];
      if id !in mapInfo {
        triedCollisions := triedCollisions - {id};
        return Run.Nothing;
      }
      var k := TriedSlot(net, nKey, mapInfo[id].service);
      var idOld := vvTried[k.bucket, k.pos];
      assert idOld != -1;
      assert k in TableOf(vvTried);
      r := Run.Chosen(mapInfo[idOld]);
    }
  }

  lemma NothingListed(info: Infos, ids: seq<int>)
    ensures Listed(info, ids[..0]) == [] && Tried(info, ids[..0]) == [] && Entries(info, []) == []
  {
  }

  lemma NewOccupants(net: Net, s: State)
    requires Consistent(net, s)
    ensures forall slot :: slot in s.newTable ==> var id := s.newTable[slot]; id in s.info
  {
    hide Indexed, TriedIndex, RefCounts, CollisionsPending, Counted;
  }

  /** A reader that failed, or that reached `t` with `rest` still to read. */
  ghost predicate Agrees(r: Parsed, ok: bool, t: State, stream: seq<Token>, pos: nat) {
    match r
    case Failed => !ok
    case Parsed(state, rest) => ok && t == state && pos <= |stream| && rest == stream[pos..]
  }

  /** The entries bear the consecutive ids from `low` up to `high`, in the order of `random`. */
  ghost predicate Numbered(info: Infos, random: seq<int>, low: int, high: int) {
    && low <= high && |random| == high - low
    && (forall i :: 0 <= i < |random| ==> random[i] == low + i)
    && (forall id :: id in info <==> low <= id < high)
    && (forall id :: id in info ==> info[id].randomPos == id - low)
  }

  lemma NumberedNone(low: int)
    ensures Numbered(map[], [], low, low)
  {
  }

  lemma NumberedIndex(info: Infos, random: seq<int>, low: int, high: int)
    requires Numbered(info, random, low, high)
    ensures RandomIndex(info, random)
  {
  }

  lemma WithNewNumbered(net: Net, t: State, e: Saved, n: nat, usable: bool)
    requires Numbered(t.info, t.random, 0, n)
    ensures Numbered(WithNew(net, t, e, n, usable).info, WithNew(net, t, e, n, usable).random, 0, n + 1)
  {
    hide NewSlot;
  }

  lemma WithTriedNumbered(net: Net, t: State, e: Saved, low: int)
    requires Numbered(t.info, t.random, low, t.idCount)
    ensures Numbered(WithTried(net, t, e).info, WithTried(net, t, e).random, low, t.idCount + 1)
    ensures WithTried(net, t, e).idCount == t.idCount + 1 && WithTried(net, t, e).nNew == t.nNew
  {
    hide TriedSlot;
  }

  lemma NumberedLow(info: Infos, random: seq<int>, n: int)
    requires Numbered(info, random, 0, if n < 0 then 0 else n)
    ensures Numbered(info, random, if n < 0 then n else 0, n)
  {
  }

  /** The slots can be read: every number below the count has an entry. */
  ghost predicate Ready(t: State) {
    RandomIndex(t.info, t.random) && forall id :: 0 <= id < t.nNew ==> id in t.info
  }

  lemma NumberedReady(t: State, low: int)
    requires Numbered(t.info, t.random, low, t.idCount) && low <= 0 && t.nNew <= t.idCount
    ensures Ready(t)
  {
    NumberedIndex(t.info, t.random, low, t.idCount);
  }

  lemma ReadyIndex(t: State)
    requires Ready(t)
    ensures RandomIndex(t.info, t.random)
  {
  }

  lemma WithSlotReady(net: Net, t: State, bucket: nat, index: int, usable: bool)
    requires Ready(t)
    ensures Ready(WithSlot(net, t, bucket, index, usable))
  {
    hide NewSlotIn, RandomIndex;
    var t' := WithSlot(net, t, bucket, index, usable);
    Ops.RandomFrame(t.info, t'.info, t.random);
  }

  lemma TriedSlotBounds(net: Net, key: nat, a: Service)
    ensures TriedSlot(net, key, a).bucket < TRIED_BUCKET_COUNT && TriedSlot(net, key, a).pos < BUCKET_SIZE
  {
  }

  /** While the ids are walked, the running count is the number an entry is written under. */
  lemma {:induction false} IndexIs(info: Infos, ids: seq<int>, k: nat)
    requires IsAscending(ids) && k < |ids|
    ensures Index(info, ids, ids[k]) == |Listed(info, ids[..k])|
  {
    var front := ids[..|ids| - 1];
    if k == |ids| - 1 {
      if front != [] {
        assert front[|front| - 1] < ids[k];
      }
    } else {
      IndexIs(info, front, k);
      assert front[..k] == ids[..k];
    }
  }

  lemma ListedNext(info: Infos, ids: seq<int>, k: nat)
    requires k < |ids|
    ensures var id := ids[k];
      Listed(info, ids[..k + 1]) == Listed(info, ids[..k]) + if id in info && info[id].refCount != 0 then [id] else []
    ensures var id := ids[k];
      Tried(info, ids[..k + 1]) == Tried(info, ids[..k]) + if id in info && info[id].inTried then [id] else []
  {
    var front := ids[..k + 1];
    assert front[..|front| - 1] == ids[..k] && front[|front| - 1] == ids[k];
  }

  lemma EntriesNext(info: Infos, ids: seq<int>, id: int)
    ensures Entries(info, ids + [id]) == Entries(info, ids) + if id in info then [TEntry(Save(info[id]))] else []
  {
    assert (ids + [id])[..|ids|] == ids;
  }

  /** The first `k` ids have got their numbers. */
  ghost predicate NumberedTo(info: Infos, ids: seq<int>, unkIds: map<int, int>, k: nat)
    requires k <= |ids|
  {
    && (forall id :: id in unkIds ==> unkIds[id] == Index(info, ids, id))
    && (forall j :: 0 <= j < k ==> var id := ids[j]; id in unkIds)
  }

  lemma NumberedToNone(info: Infos, ids: seq<int>)
    ensures NumberedTo(info, ids, map[], 0)
  {
  }

  lemma NumberedToNext(info: Infos, ids: seq<int>, unkIds: map<int, int>, k: nat)
    requires k < |ids| && NumberedTo(info, ids, unkIds, k)
    ensures var id := ids[k]; NumberedTo(info, ids, unkIds[id := Index(info, ids, id)], k + 1)
  {
    hide Index;
  }

  lemma AllNumbered(info: Infos, ids: seq<int>, unkIds: map<int, int>)
    requires ids == Ascending(info.Keys) && NumberedTo(info, ids, unkIds, |ids|)
    ensures forall id :: id in info ==> id in unkIds && unkIds[id] == Index(info, ids, id)
  {
    hide Index;
    forall id | id in info ensures id in unkIds {
      assert id in ids;
    }
  }

  /** What writing the k-th entry relies on. */
  lemma NewStep(info: Infos, ids: seq<int>, k: nat)
    requires ids == Ascending(info.Keys) && k < |ids|
    ensures var id := ids[k]; id in info && Index(info, ids, id) == |Listed(info, ids[..k])|
    ensures var id, now, next := ids[k], Listed(info, ids[..k]), Listed(info, ids[..k + 1]);
      if info[id].refCount == 0 then next == now else
      |next| == |now| + 1 <= |Listed(info, ids)| && Entries(info, next) == Entries(info, now) + [TEntry(Save(info[id]))]
  {
    hide Listed, Entries, Index, Save, IsAscending;
    var id := ids[k];
    assert id in ids;
    IndexIs(info, ids, k);
    ListedNext(info, ids, k);
    ListedGrows(info, ids, k + 1);
    EntriesNext(info, Listed(info, ids[..k]), id);
  }

  lemma {:induction false} ListedGrows(info: Infos, ids: seq<int>, k: nat)
    requires k <= |ids|
    ensures |Listed(info, ids[..k])| <= |Listed(info, ids)| && |Tried(info, ids[..k])| <= |Tried(info, ids)|
    decreases |ids| - k
  {
    if k == |ids| {
      assert ids[..k] == ids;
    } else {
      ListedNext(info, ids, k);
      ListedGrows(info, ids, k + 1);
    }
  }

  function AddressOf(i: Info): Address {
    Address(i.service, i.services, i.nTime)
  }

  function AddressesOf(info: Infos, ids: seq<int>): seq<Address> {
    if ids == [] then [] else
    var id := ids[|ids| - 1];
    AddressesOf(info, ids[..|ids| - 1]) + if id in info then [AddressOf(info[id])] else []
  }

  /** The addresses returned are those of the selected entries, with their services and times. */
  lemma GetAddrAddresses(net: Net, s: State, draws: nat -> nat, clock: nat -> int)
    requires Consistent(net, s)
    ensures var (t, ids) := Run.GetAddrFrom(s, [], 0, Run.GetAddrLimit(s), draws, clock); var r := AddressesOf(t.info, ids);
      |r| == |ids| && forall k :: 0 <= k < |ids| ==> var id := ids[k];
        id in t.info && r[k] == Address(t.info[id].service, t.info[id].services, t.info[id].nTime)
  {
    hide Consistent, Run.GetAddrFrom, Run.GetAddrLimit, Theorems.Evolves, AddressesOf, IsTerrible;
    Theorems.GetAddrKeeps(net, s, [], 0, Run.GetAddrLimit(s), draws, clock);
    var (t, ids) := Run.GetAddrFrom(s, [], 0, Run.GetAddrLimit(s), draws, clock);
    AddressesAre(t.info, ids);
  }

  lemma {:induction false} AddressesAre(info: Infos, ids: seq<int>)
    requires forall k :: 0 <= k < |ids| ==> ids[k] in info
    ensures var r := AddressesOf(info, ids);
      |r| == |ids| && forall k :: 0 <= k < |ids| ==> r[k] == Address(info[ids[k]].service, info[ids[k]].services, info[ids[k]].nTime)
  {
    if ids != [] {
      AddressesAre(info, ids[..|ids| - 1]);
    }
  }

  lemma {:induction false} AddressesMoved(s: State, t: State, ids: seq<int>)
    requires Ops.KeepsEntries(s, t, {})
    ensures AddressesOf(t.info, ids) == AddressesOf(s.info, ids)
  {
    if ids != [] {
      AddressesMoved(s, t, ids[..|ids| - 1]);
      var id := ids[|ids| - 1];
      assert id in t.info.Keys <==> id in s.info.Keys;
      if id in t.info { assert Ops.Moved(s.info[id], t.info[id]); }
    }
  }

  lemma AddressesNone(info: Infos)
    ensures AddressesOf(info, []) == []
  {
  }

  lemma AddressesMore(info: Infos, ids: seq<int>, id: int)
    requires id in info
    ensures AddressesOf(info, ids + [id]) == AddressesOf(info, ids) + [AddressOf(info[id])]
  {
    assert (ids + [id])[..|ids|] == ids;
  }

  /** Whatever occupies the slot wanted by `id`, the helpers may be called on it. */
  lemma PlacementFacts(net: Net, s: State, u: Slot, id: int)
    requires Shape(net, s, {id}) && id in s.info
    ensures RandomIndex(s.info, s.random)
    ensures u in s.newTable ==> var x := s.newTable[u]; x in s.info && x >= 0 && !s.info[x].inTried && s.info[x].refCount > 0
    ensures (u in s.newTable ==> s.newTable[u] != id) ==> id in Ops.ClearNew(s, u).info
  {
    hide AddrIndex, TriedIndex, NewSlotsOk, RefCounts, Ops.ClearNew, RandomIndex;
    Clearable(net, s, u, {id});
    Ops.ClearNewKeeps(net, s, u, {id});
    if u in s.newTable {
      var x := s.newTable[u];
      assert x in s.info;
    }
  }

  /** The bucket looked at in round `n` of a search that starts at `rnd`. */
  function Around(n: int, rnd: nat): (b: nat)
    ensures b < NEW_BUCKET_COUNT
  {
    (n + rnd) % NEW_BUCKET_COUNT
  }

  lemma AroundReaches(b: nat, rnd: nat)
    requires b < NEW_BUCKET_COUNT
    ensures exists m :: 0 <= m < NEW_BUCKET_COUNT && Around(m, rnd) == b
  {
    var m := (b - rnd) % NEW_BUCKET_COUNT;
    assert Around(m, rnd) == b;
  }

  /** A search through all buckets misses no slot. */
  lemma NotFound(net: Net, key: nat, info: Infos, table: Table, id: int, rnd: nat)
    requires NewSlotsOk(net, key, info, table) && id in info
    requires forall m :: 0 <= m < NEW_BUCKET_COUNT ==> NewSlotIn(net, key, Around(m, rnd), info[id].service) !in Slots(table, id)
    ensures Slots(table, id) == {}
  {
    hide Around, NewSlotIn;
    if slot :| slot in Slots(table, id) {
      assert slot in table && table[slot] == id;
      AroundReaches(slot.bucket, rnd);
      assert false;
    }
  }

  /** What the steps of an eviction rely on, the source's asserts among it. */
  ghost predicate EvictionOk(net: Net, s: State, k: Slot)
    requires k in s.triedTable
  {
    var e := s.triedTable[k];
    && e in s.info && e >= 0
    && var s1 := Ops.Untry(s, k);
       var u := NewSlot(net, s.key, s.info[e].service, s.info[e].source);
       var s2 := Ops.ClearNew(s1, u);
       && e in s1.info && s1.info[e] == s.info[e].(inTried := false) && s1.key == s.key
       && RandomIndex(s1.info, s1.random)
       && (u in s1.newTable ==> var y := s1.newTable[u]; y in s1.info && !s1.info[y].inTried && s1.info[y].refCount > 0)
       && u !in s2.newTable && e in s2.info && s2.info[e].refCount == 0 && s2.key == s.key
       && s1.triedTable == s.triedTable - {k} && s2.triedTable == s1.triedTable
       && Ops.List(s2, u, e).triedTable == s2.triedTable && Ops.List(s2, u, e).nNew == s2.nNew
  }

  lemma EvictionFacts(net: Net, s: State, k: Slot, x: int)
    requires Shape(net, s, {x}) && k in s.triedTable
    requires x in s.info && s.info[x].refCount == 0 && !s.info[x].inTried
    ensures EvictionOk(net, s, k)
  {
    hide AddrIndex, RandomIndex, NewSlotsOk, RefCounts, Ops.ClearNew;
    var e := s.triedTable[k];
    assert e in s.info;
    Ops.UntryIndexed(s, k);
    Ops.UntryTabled(net, s, k, {x});
    var s1 := Ops.Untry(s, k);
    var u := NewSlot(net, s.key, s.info[e].service, s.info[e].source);
    Clearable(net, s1, u, {x} + {e});
    Ops.ClearNewKeeps(net, s1, u, {x} + {e});
    Ops.ClearedSpares(s1, u, Ops.ClearNew(s1, u), e, {x} + {e});
  }

  /** In a consistent state the occupant of a new slot can lose a reference. */
  lemma Clearable(net: Net, s: State, u: Slot, loose: set<int>)
    requires Shape(net, s, loose)
    ensures RandomIndex(s.info, s.random)
    ensures u in s.newTable ==> var id := s.newTable[u]; id in s.info && !s.info[id].inTried && s.info[id].refCount > 0
  {
    hide AddrIndex, IdsAllocated, TriedIndex;
    if u in s.newTable {
      Ops.UnrefRefs(s.info, s.newTable, u, s.newTable[u], loose);
    }
  }

  /** Those of `slots` in the first `n` buckets. */
  ghost function Below(slots: set<Slot>, n: int): set<Slot> {
    set slot | slot in slots && slot.bucket < n
  }

  ghost function Unreferenced(info: Infos, id: int, n: int): Infos
    requires id in info
  {
    info[id := info[id].(refCount := info[id].refCount - n)]
  }

  lemma BelowEnds(net: Net, key: nat, info: Infos, table: Table, id: int)
    requires NewSlotsOk(net, key, info, table) && id in info
    ensures Below(Slots(table, id), 0) == {} && Below(Slots(table, id), NEW_BUCKET_COUNT) == Slots(table, id)
    ensures table - Below(Slots(table, id), 0) == table && Unreferenced(info, id, 0) == info
  {
    var slots := Slots(table, id);
    forall x | x in slots ensures x.bucket < NEW_BUCKET_COUNT {
      assert x in table;
    }
    assert Below(slots, NEW_BUCKET_COUNT) == slots;
    assert Below(slots, 0) == {};
  }

  /** An entry can only be at one place of each bucket. */
  lemma BelowNext(net: Net, key: nat, info: Infos, table: Table, id: int, n: nat)
    requires NewSlotsOk(net, key, info, table) && id in info
    ensures var slots := Slots(table, id);
      var slot := NewSlotIn(net, key, n, info[id].service);
      var rest := table - Below(slots, n);
      if slot in rest && rest[slot] == id then
        && table - Below(slots, n + 1) == rest - {slot}
        && |Below(slots, n + 1)| == |Below(slots, n)| + 1
      else Below(slots, n + 1) == Below(slots, n)
  {
    hide BucketPosition;
    var slots := Slots(table, id);
    var slot := NewSlotIn(net, key, n, info[id].service);
    forall x | x in slots && x.bucket == n ensures x == slot {
      assert x in table && table[x] == id;
    }
    if slot in slots {
      assert Below(slots, n + 1) == Below(slots, n) + {slot};
      assert table - (Below(slots, n) + {slot}) == table - Below(slots, n) - {slot};
    } else {
      assert Below(slots, n + 1) == Below(slots, n);
    }
  }
}
