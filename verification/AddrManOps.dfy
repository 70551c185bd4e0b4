/** The private helpers of the address manager as functions from state to state, and what
    each keeps (src/addrman.cpp:81-188). */
module AddrManOps {
  import opened AddrManState

  function WithInfo(s: State, id: int, i: Info): State {
    s.(info := s.info[id := i])
  }

  function Create(s: State, a: Address, source: NetAddr): State {
    var id := s.idCount;
    s.(idCount := id + 1,
       info := s.info[id := NewInfo(a, source).(randomPos := |s.random|)],
       addrs := s.addrs[a.service.net := id],
       random := s.random + [id])
  }

  /** Where an index is out of step the source's asserts stop it; here such calls change nothing. */
  function SwapRandom(s: State, i: int, j: int): State {
    if i == j || !(0 <= i < |s.random| && 0 <= j < |s.random| && s.random[i] in s.info && s.random[j] in s.info) then s else
    var id1, id2 := s.random[i], s.random[j];
    var info1 := s.info[id1 := s.info[id1].(randomPos := j)];
    s.(info := info1[id2 := info1[id2].(randomPos := i)], random := s.random[i := id2][j := id1])
  }

  /** Forgets `id`, which stands last in `vRandom`. */
  function DropLast(t: State, id: int): State {
    if id !in t.info || t.random == [] then t else
    t.(random := t.random[..|t.random| - 1], addrs := t.addrs - {t.info[id].service.net},
       info := t.info - {id}, nNew := t.nNew - 1)
  }

  function Delete(s: State, id: int): State {
    if id !in s.info then s else DropLast(SwapRandom(s, s.info[id].randomPos, |s.random| - 1), id)
  }

  /** Drops one reference without deleting the entry. */
  function Unref(s: State, slot: Slot): State
    requires slot in s.newTable && s.newTable[slot] in s.info
  {
    var id := s.newTable[slot];
    WithInfo(s, id, s.info[id].(refCount := s.info[id].refCount - 1)).(newTable := s.newTable - {slot})
  }

  function ClearNew(s: State, slot: Slot): State {
    if slot !in s.newTable || s.newTable[slot] !in s.info then s else
    var id := s.newTable[slot];
    var t := Unref(s, slot);
    if t.info[id].refCount == 0 then Delete(t, id) else t
  }

  /** Takes `id` out of every new bucket; the counter already stops counting it. */
  function Unlist(s: State, id: int): State
    requires id in s.info
  {
    var slots := Slots(s.newTable, id);
    WithInfo(s, id, s.info[id].(refCount := s.info[id].refCount - |slots|))
      .(newTable := s.newTable - slots, nNew := s.nNew - 1)
  }

  /** Adds a reference from new slot `u`. */
  function List(s: State, u: Slot, e: int): State {
    if e !in s.info then s else
    WithInfo(s, e, s.info[e].(refCount := s.info[e].refCount + 1)).(newTable := s.newTable[u := e])
  }

  /** Takes the occupant of a tried slot out of the tried set. */
  function Untry(s: State, k: Slot): State
    requires k in s.triedTable && s.triedTable[k] in s.info
  {
    var e := s.triedTable[k];
    WithInfo(s, e, s.info[e].(inTried := false)).(triedTable := s.triedTable - {k}, nTried := s.nTried - 1)
  }

  /** Puts an unlisted entry into its free tried slot. */
  function Try(s: State, k: Slot, id: int): State {
    if id !in s.info then s else
    WithInfo(s, id, s.info[id].(inTried := true)).(triedTable := s.triedTable[k := id], nTried := s.nTried + 1)
  }

  /** Moves the occupant of tried slot `k` back to the new table, clearing the slot it lands on. */
  function Evict(net: Net, s: State, k: Slot): State {
    if k !in s.triedTable || s.triedTable[k] !in s.info then s else
    var e := s.triedTable[k];
    var u := NewSlot(net, s.key, s.info[e].service, s.info[e].source);
    var s2 := ClearNew(Untry(s, k), u);
    List(s2, u, e).(nNew := s2.nNew + 1)
  }

  function MakeTried(net: Net, s: State, id: int): State
    requires id in s.info
  {
    var k := TriedSlot(net, s.key, s.info[id].service);
    Try(Evict(net, Unlist(s, id), k), k, id)
  }

  // ----- What the helpers keep -----

  /** The same entry at another place of `vRandom`. */
  ghost predicate Moved(i: Info, j: Info) {
    j == i.(randomPos := j.randomPos)
  }

  /** The same entry at another place and with another reference count. */
  ghost predicate Recounted(i: Info, j: Info) {
    j == i.(randomPos := j.randomPos, refCount := j.refCount)
  }

  /** `t` has the entries of `s` but for `dropped`; only places in `vRandom` differ. */
  ghost predicate KeepsEntries(s: State, t: State, dropped: set<int>) {
    && t.info.Keys == s.info.Keys - dropped
    && forall id :: id in t.info ==> Moved(s.info[id], t.info[id])
  }

  /** No helper changes these. */
  ghost predicate SameTablesAs(s: State, t: State) {
    && t.key == s.key && t.idCount == s.idCount && t.triedTable == s.triedTable && t.nTried == s.nTried
    && t.lastGood == s.lastGood && t.collisions == s.collisions
  }

  lemma KeptIds(s: State, t: State, dropped: set<int>)
    requires KeepsEntries(s, t, dropped)
    ensures NewIds(t.info) == NewIds(s.info) - dropped
    ensures TriedIds(t.info) == TriedIds(s.info) - dropped
  {
    forall id | id in t.info ensures t.info[id].inTried == s.info[id].inTried {
      assert Moved(s.info[id], t.info[id]);
    }
  }

  lemma AddrFrame(info: Infos, info': Infos, addrs: map<NetAddr, int>)
    requires AddrIndex(info, addrs) && info'.Keys == info.Keys
    requires forall id :: id in info ==> info'[id].service == info[id].service
    ensures AddrIndex(info', addrs)
  {
  }

  lemma RandomFrame(info: Infos, info': Infos, random: seq<int>)
    requires RandomIndex(info, random) && info'.Keys == info.Keys
    requires forall id :: id in info ==> info'[id].randomPos == info[id].randomPos
    ensures RandomIndex(info', random)
  {
  }

  lemma TriedFrame(net: Net, key: nat, info: Infos, info': Infos, table: Table)
    requires TriedIndex(net, key, info, table) && info'.Keys == info.Keys
    requires forall id :: id in info ==> info'[id].service == info[id].service && info'[id].inTried == info[id].inTried
    ensures TriedIndex(net, key, info', table)
  {
  }

  lemma NewFrame(net: Net, key: nat, info: Infos, info': Infos, table: Table)
    requires NewSlotsOk(net, key, info, table) && info'.Keys == info.Keys
    requires forall id :: id in info ==> info'[id].service == info[id].service && info'[id].inTried == info[id].inTried
    ensures NewSlotsOk(net, key, info', table)
  {
  }

  lemma RefFrame(info: Infos, info': Infos, table: Table, loose: set<int>)
    requires RefCounts(info, table, loose) && info'.Keys == info.Keys
    requires forall id :: id in info ==> info'[id].refCount == info[id].refCount && info'[id].inTried == info[id].inTried
    ensures RefCounts(info', table, loose)
  {
  }

  /** The first group of indexes does not look at references, tables or statistics. */
  lemma SameIndexes(s: State, t: State)
    requires Indexed(s) && t.info.Keys == s.info.Keys
    requires forall id :: id in s.info ==> t.info[id].service == s.info[id].service && t.info[id].randomPos == s.info[id].randomPos
    requires t.idCount == s.idCount && t.addrs == s.addrs && t.random == s.random
    ensures Indexed(t)
  {
    AddrFrame(s.info, t.info, s.addrs);
    RandomFrame(s.info, t.info, s.random);
  }

  /** The tables do not look at the random order or at statistics. */
  lemma SameTables(net: Net, s: State, t: State, loose: set<int>)
    requires Tabled(net, s, loose) && t.info.Keys == s.info.Keys
    requires forall id :: id in s.info ==>
      && t.info[id].service == s.info[id].service && t.info[id].refCount == s.info[id].refCount
      && t.info[id].inTried == s.info[id].inTried
    requires t.key == s.key && t.triedTable == s.triedTable && t.newTable == s.newTable
    ensures Tabled(net, t, loose)
  {
    TriedFrame(net, s.key, s.info, t.info, s.triedTable);
    NewFrame(net, s.key, s.info, t.info, s.newTable);
    RefFrame(s.info, t.info, s.newTable, loose);
  }

  lemma SameIds(info: Infos, info': Infos)
    requires info'.Keys == info.Keys && forall id :: id in info ==> info'[id].inTried == info[id].inTried
    ensures NewIds(info') == NewIds(info) && TriedIds(info') == TriedIds(info)
  {
    forall id ensures id in NewIds(info') <==> id in NewIds(info) {
      assert id in info'.Keys <==> id in info.Keys;
    }
    forall id ensures id in TriedIds(info') <==> id in TriedIds(info) {
      assert id in info'.Keys <==> id in info.Keys;
    }
  }

  // -- Statistics of an entry may change freely.

  lemma StatsIndexed(s: State, id: int, i: Info)
    requires Indexed(s) && id in s.info && i.service == s.info[id].service && i.randomPos == s.info[id].randomPos
    ensures Indexed(WithInfo(s, id, i))
  {
    SameIndexes(s, WithInfo(s, id, i));
  }

  lemma StatsTabled(net: Net, s: State, id: int, i: Info, loose: set<int>)
    requires Tabled(net, s, loose) && id in s.info && i.service == s.info[id].service
    requires i.refCount == s.info[id].refCount && i.inTried == s.info[id].inTried
    ensures Tabled(net, WithInfo(s, id, i), loose)
    ensures NewIds(WithInfo(s, id, i).info) == NewIds(s.info) && TriedIds(WithInfo(s, id, i).info) == TriedIds(s.info)
  {
    SameTables(net, s, WithInfo(s, id, i), loose);
    SameIds(s.info, WithInfo(s, id, i).info);
  }

  // -- Create

  lemma CreateIndexed(s: State, a: Address, source: NetAddr)
    requires Indexed(s) && a.service.net !in s.addrs
    ensures Indexed(Create(s, a, source)) && s.idCount !in s.info
  {
    var id, i := s.idCount, NewInfo(a, source).(randomPos := |s.random|);
    CreateAddr(s.info, s.addrs, id, i);
    CreateRandom(s.info, s.random, id, i);
  }

  lemma CreateAddr(info: Infos, addrs: map<NetAddr, int>, id: int, i: Info)
    requires AddrIndex(info, addrs) && id !in info && i.service.net !in addrs
    ensures AddrIndex(info[id := i], addrs[i.service.net := id])
  {
  }

  lemma CreateRandom(info: Infos, random: seq<int>, id: int, i: Info)
    requires RandomIndex(info, random) && id !in info && i.randomPos == |random|
    ensures RandomIndex(info[id := i], random + [id])
  {
  }

  lemma CreateTabled(net: Net, s: State, a: Address, source: NetAddr, loose: set<int>)
    requires Tabled(net, s, loose) && s.idCount !in s.info
    ensures Tabled(net, Create(s, a, source), loose + {s.idCount})
    ensures NewIds(Create(s, a, source).info) == NewIds(s.info) + {s.idCount}
    ensures TriedIds(Create(s, a, source).info) == TriedIds(s.info)
    ensures Create(s, a, source).info[s.idCount].refCount == 0 && s.idCount !in NewIds(s.info)
  {
    hide TriedIndex, NewSlotsOk, RefCounts;
    var i := NewInfo(a, source).(randomPos := |s.random|);
    NoSlots(net, s, s.idCount, loose);
    CreateSlots(net, s.key, s.info, s.triedTable, s.newTable, s.idCount, i);
    CreateRefs(s.info, s.newTable, loose, s.idCount, i);
  }

  lemma CreateSlots(net: Net, key: nat, info: Infos, tried: Table, table: Table, id: int, i: Info)
    requires TriedIndex(net, key, info, tried) && NewSlotsOk(net, key, info, table) && id !in info && !i.inTried
    ensures TriedIndex(net, key, info[id := i], tried) && NewSlotsOk(net, key, info[id := i], table)
    ensures NewIds(info[id := i]) == NewIds(info) + {id} && TriedIds(info[id := i]) == TriedIds(info)
  {
    hide TriedSlot, NewSlotIn;
  }

  lemma CreateRefs(info: Infos, table: Table, loose: set<int>, id: int, i: Info)
    requires RefCounts(info, table, loose) && id !in info && i.refCount == 0 && Slots(table, id) == {}
    ensures RefCounts(info[id := i], table, loose + {id})
  {
    hide Slots;
  }

  lemma NoSlots(net: Net, s: State, id: int, loose: set<int>)
    requires Tabled(net, s, loose) && (id in s.info ==> s.info[id].inTried)
    ensures Slots(s.newTable, id) == {}
  {
    if slot :| slot in Slots(s.newTable, id) {
      assert false;
    }
  }

  // -- SwapRandom

  lemma SwapColumns(s: State, i: int, j: int)
    requires 0 <= i < |s.random| && 0 <= j < |s.random| && i != j
    requires var id1, id2 := s.random[i], s.random[j]; id1 in s.info && id2 in s.info && id1 != id2
    ensures var t, id1, id2 := SwapRandom(s, i, j), s.random[i], s.random[j];
      && t == s.(info := t.info, random := s.random[i := id2][j := id1])
      && t.info.Keys == s.info.Keys && t.info[id1].randomPos == j && t.info[id2].randomPos == i
      && (forall x :: x in s.info && x != id1 && x != id2 ==> t.info[x].randomPos == s.info[x].randomPos)
      && (forall x :: x in s.info ==> Moved(s.info[x], t.info[x]))
  {
  }

  lemma SwapPlaces(info: Infos, random: seq<int>, info': Infos, i: nat, j: nat)
    requires RandomIndex(info, random) && i < |random| && j < |random|
    requires info'.Keys == info.Keys
    requires var id1, id2 := random[i], random[j];
      && info'[id1].randomPos == j && info'[id2].randomPos == i
      && forall id :: id in info && id != id1 && id != id2 ==> info'[id].randomPos == info[id].randomPos
    ensures RandomIndex(info', random[i := random[j]][j := random[i]])
  {
    var now := random[i := random[j]][j := random[i]];
    forall id | id in info' ensures 0 <= info'[id].randomPos < |now| && now[info'[id].randomPos] == id {
      assert random[info[id].randomPos] == id;
    }
    forall k | 0 <= k < |now| ensures var id := now[k]; id in info' && info'[id].randomPos == k {
      var id := random[k];
      assert id in info && info[id].randomPos == k;
    }
  }

  lemma SwapFields(s: State, i: int, j: int)
    ensures var t := SwapRandom(s, i, j);
      SameTablesAs(s, t) && t.newTable == s.newTable && t.nNew == s.nNew && |t.random| == |s.random|
  {
  }

  lemma SwapOrder(s: State, i: int, j: int)
    requires RandomIndex(s.info, s.random) && 0 <= i < |s.random| && 0 <= j < |s.random|
    ensures RandomIndex(SwapRandom(s, i, j).info, SwapRandom(s, i, j).random)
    ensures KeepsEntries(s, SwapRandom(s, i, j), {})
  {
    if i != j {
      var id1, id2 := s.random[i], s.random[j];
      assert s.info[id1].randomPos == i && s.info[id2].randomPos == j;
      SwapColumns(s, i, j);
      SwapPlaces(s.info, s.random, SwapRandom(s, i, j).info, i, j);
    }
  }

  lemma SwapExchanges(s: State, i: int, j: int)
    requires RandomIndex(s.info, s.random) && 0 <= i < |s.random| && 0 <= j < |s.random|
    ensures SwapRandom(s, i, j).random == s.random[i := s.random[j]][j := s.random[i]]
  {
    var id1, id2 := s.random[i], s.random[j];
    assert id1 in s.info && id2 in s.info;
  }

  lemma SwapIndexed(s: State, i: int, j: int)
    requires Indexed(s) && 0 <= i < |s.random| && 0 <= j < |s.random|
    ensures Indexed(SwapRandom(s, i, j))
    ensures KeepsEntries(s, SwapRandom(s, i, j), {})
    ensures SwapRandom(s, i, j).random == s.random[i := s.random[j]][j := s.random[i]]
  {
    hide RandomIndex;
    var t := SwapRandom(s, i, j);
    SwapExchanges(s, i, j);
    SwapOrder(s, i, j);
    forall id | id in s.info ensures id in t.info && t.info[id].service == s.info[id].service {
      assert id in t.info.Keys && Moved(s.info[id], t.info[id]);
    }
    AddrFrame(s.info, t.info, s.addrs);
  }

  /** The tables do not notice entries moving inside `vRandom`. */
  lemma MovedTabled(net: Net, s: State, t: State, loose: set<int>)
    requires Tabled(net, s, loose) && KeepsEntries(s, t, {})
    requires t.key == s.key && t.triedTable == s.triedTable && t.newTable == s.newTable
    ensures Tabled(net, t, loose)
  {
    hide TriedIndex, NewSlotsOk, RefCounts;
    forall id | id in s.info
      ensures id in t.info && t.info[id].service == s.info[id].service
      ensures t.info[id].refCount == s.info[id].refCount && t.info[id].inTried == s.info[id].inTried
    {
      assert id in t.info.Keys && Moved(s.info[id], t.info[id]);
    }
    SameTables(net, s, t, loose);
  }

  // -- Delete

  lemma DropLastIndexed(t: State, id: int)
    requires Indexed(t) && id in t.info && |t.random| > 0 && t.random[|t.random| - 1] == id
    ensures Indexed(DropLast(t, id))
  {
    DropAddr(t.info, t.addrs, id);
    DropRandom(t.info, t.random, id);
  }

  lemma DropAddr(info: Infos, addrs: map<NetAddr, int>, id: int)
    requires AddrIndex(info, addrs) && id in info
    ensures AddrIndex(info - {id}, addrs - {info[id].service.net})
  {
  }

  lemma DropRandom(info: Infos, random: seq<int>, id: int)
    requires RandomIndex(info, random) && id in info && |random| > 0 && random[|random| - 1] == id
    ensures RandomIndex(info - {id}, random[..|random| - 1])
  {
    var info', random' := info - {id}, random[..|random| - 1];
    assert info[id].randomPos == |random| - 1;
    forall x | x in info' ensures 0 <= info'[x].randomPos < |random'| && random'[info'[x].randomPos] == x {
      assert random[info[x].randomPos] == x;
    }
    forall i | 0 <= i < |random'| ensures var x := random'[i]; x in info' && info'[x].randomPos == i {
      var x := random[i];
      assert info[x].randomPos == i;
    }
  }

  lemma NoReferences(table: Table, id: int)
    requires |Slots(table, id)| == 0
    ensures forall slot :: slot in table ==> table[slot] != id
  {
    forall slot | slot in table ensures table[slot] != id {
      assert slot in Slots(table, table[slot]);
    }
  }

  lemma DropNew(net: Net, key: nat, info: Infos, table: Table, id: int)
    requires NewSlotsOk(net, key, info, table) && forall slot :: slot in table ==> table[slot] != id
    ensures NewSlotsOk(net, key, info - {id}, table)
  {
  }

  lemma DeleteIndexed(s: State, id: int)
    requires Indexed(s) && id in s.info
    ensures Indexed(Delete(s, id))
  {
    hide AddrIndex, IdsAllocated, DropLast;
    var pos, last := s.info[id].randomPos, |s.random| - 1;
    var t := SwapRandom(s, pos, last);
    SwapIndexed(s, pos, last);
    DropLastIndexed(t, id);
  }

  lemma DeleteOrder(s: State, id: int)
    requires RandomIndex(s.info, s.random) && id in s.info
    ensures RandomIndex(Delete(s, id).info, Delete(s, id).random)
  {
    hide RandomIndex, SwapRandom, KeepsEntries;
    PlaceOf(s.info, s.random, id);
    var pos, last := s.info[id].randomPos, |s.random| - 1;
    var t := SwapRandom(s, pos, last);
    SwappedLast(s, id);
    SwapOrder(s, pos, last);
    DropRandom(t.info, t.random, id);
  }

  lemma LastKnown(info: Infos, random: seq<int>)
    requires RandomIndex(info, random)
    ensures random != [] ==> var id := random[|random| - 1]; id in info
  {
    if random != [] {
      var id := random[|random| - 1];
    }
  }

  lemma PlaceOf(info: Infos, random: seq<int>, id: int)
    requires RandomIndex(info, random) && id in info
    ensures 0 <= info[id].randomPos < |random| && random[info[id].randomPos] == id
  {
  }

  lemma SwappedLast(s: State, id: int)
    requires RandomIndex(s.info, s.random) && id in s.info
    ensures var t := SwapRandom(s, s.info[id].randomPos, |s.random| - 1);
      id in t.info && |t.random| == |s.random| > 0 && t.random[|t.random| - 1] == id
  {
    var pos, last := s.info[id].randomPos, |s.random| - 1;
    assert s.random[pos] == id;
    var x := s.random[last];
    assert x in s.info;
  }

  /** Delete forgets one entry and moves at most one other. */
  lemma DeleteEntries(s: State, id: int)
    requires RandomIndex(s.info, s.random) && id in s.info
    ensures KeepsEntries(s, Delete(s, id), {id})
    ensures SameTablesAs(s, Delete(s, id)) && Delete(s, id).nNew == s.nNew - 1 && Delete(s, id).newTable == s.newTable
  {
    hide RandomIndex, SwapRandom, Moved;
    PlaceOf(s.info, s.random, id);
    var pos, last := s.info[id].randomPos, |s.random| - 1;
    var t := SwapRandom(s, pos, last);
    SwappedLast(s, id);
    SwapOrder(s, pos, last);
    SwapFields(s, pos, last);
  }

  lemma DeleteTabled(net: Net, s: State, t: State, id: int, loose: set<int>)
    requires Tabled(net, s, loose) && id in s.info && !s.info[id].inTried && s.info[id].refCount == 0
    requires KeepsEntries(s, t, {id}) && t.key == s.key && t.triedTable == s.triedTable && t.newTable == s.newTable
    ensures Tabled(net, t, loose - {id})
  {
    NoReferences(s.newTable, id);
    var info := s.info - {id};
    DropNew(net, s.key, s.info, s.newTable, id);
    forall x | x in info
      ensures x in t.info && t.info[x].service == info[x].service
      ensures t.info[x].refCount == info[x].refCount && t.info[x].inTried == info[x].inTried
    {
      assert x in t.info.Keys && Moved(s.info[x], t.info[x]);
    }
    assert t.info.Keys == info.Keys;
    NewFrame(net, s.key, info, t.info, s.newTable);
    TriedFrame(net, s.key, info, t.info, s.triedTable);
    RefFrame(info, t.info, s.newTable, loose - {id});
  }

  // -- ClearNew

  lemma UnrefIndexed(s: State, slot: Slot)
    requires Indexed(s) && slot in s.newTable && (var id := s.newTable[slot]; id in s.info)
    ensures Indexed(Unref(s, slot))
  {
    SameIndexes(s, Unref(s, slot));
  }

  lemma UnrefTabled(net: Net, s: State, slot: Slot, loose: set<int>)
    requires Tabled(net, s, loose) && slot in s.newTable
    ensures var id := s.newTable[slot]; id in s.info && !s.info[id].inTried && Unref(s, slot).info[id].refCount >= 0
    ensures var id := s.newTable[slot]; Tabled(net, Unref(s, slot), loose + {id})
    ensures NewIds(Unref(s, slot).info) == NewIds(s.info) && TriedIds(Unref(s, slot).info) == TriedIds(s.info)
  {
    var id := s.newTable[slot];
    hide TriedIndex, RefCounts;
    var t := Unref(s, slot);
    TriedFrame(net, s.key, s.info, t.info, s.triedTable);
    NewFrame(net, s.key, s.info, t.info, s.newTable);
    SameIds(s.info, t.info);
    UnrefRefs(s.info, s.newTable, slot, id, loose);
  }

  lemma UnrefRefs(info: Infos, table: Table, slot: Slot, id: int, loose: set<int>)
    requires RefCounts(info, table, loose) && slot in table && table[slot] == id && id in info
    ensures RefCounts(info[id := info[id].(refCount := info[id].refCount - 1)], table - {slot}, loose + {id})
    ensures info[id].refCount >= 1
  {
    SlotsRemove(table, slot);
  }

  /** What clearing new slot `slot` changes and keeps. */
  ghost predicate ClearedFrom(s: State, slot: Slot, t: State) {
    && t.newTable == s.newTable - {slot}
    && |NewIds(t.info)| - t.nNew == |NewIds(s.info)| - s.nNew
    && TriedIds(t.info) == TriedIds(s.info)
    && SameTablesAs(s, t)
    && (forall x :: x in s.info && (slot in s.newTable ==> x != s.newTable[slot]) ==> x in t.info && Moved(s.info[x], t.info[x]))
    && (forall x :: x in t.info ==> x in s.info && Recounted(s.info[x], t.info[x]))
  }

  /** Clearing a slot: the occupant loses one reference and is deleted with its last one. */
  lemma ClearNewKeeps(net: Net, s: State, slot: Slot, loose: set<int>)
    requires Shape(net, s, loose)
    ensures Shape(net, ClearNew(s, slot), loose)
    ensures ClearedFrom(s, slot, ClearNew(s, slot))
  {
    hide Indexed, RefCounts, TriedIndex, NewSlotsOk, Delete, NewIds, TriedIds;
    if slot in s.newTable {
      var id := s.newTable[slot];
      UnrefTabled(net, s, slot, loose);
      UnrefIndexed(s, slot);
      var t := Unref(s, slot);
      if t.info[id].refCount == 0 {
        ClearedAway(net, s, slot, id, loose);
      } else {
        Tighten(net, t, loose + {id}, loose);
      }
    } else {
      assert s.newTable - {slot} == s.newTable;
    }
  }

  lemma Tighten(net: Net, s: State, loose: set<int>, loose': set<int>)
    requires Tabled(net, s, loose)
    requires forall id :: id in s.info && id in loose && id !in loose' ==> s.info[id].inTried || s.info[id].refCount >= 1
    ensures Tabled(net, s, loose')
  {
  }

  lemma ClearedAway(net: Net, s: State, slot: Slot, id: int, loose: set<int>)
    requires slot in s.newTable && s.newTable[slot] == id && id in s.info && !s.info[id].inTried
    requires var t := Unref(s, slot); Indexed(t) && Tabled(net, t, loose + {id}) && t.info[id].refCount == 0
    ensures var d := Delete(Unref(s, slot), id); Shape(net, d, loose) && ClearedFrom(s, slot, d)
  {
    hide AddrIndex, IdsAllocated, RefCounts, TriedIndex, NewSlotsOk, Delete, ClearedFrom, RandomIndex;
    var t := Unref(s, slot);
    var d := Delete(t, id);
    DeleteIndexed(t, id);
    DeleteEntries(t, id);
    DeleteTabled(net, t, d, id, loose + {id});
    Tighten(net, d, loose + {id} - {id}, loose);
    ClearedByDelete(s, slot, id, d);
  }

  lemma ClearedByDelete(s: State, slot: Slot, id: int, d: State)
    requires slot in s.newTable && s.newTable[slot] == id && id in s.info && !s.info[id].inTried
    requires KeepsEntries(Unref(s, slot), d, {id})
    requires SameTablesAs(s, d) && d.nNew == s.nNew - 1 && d.newTable == s.newTable - {slot}
    ensures ClearedFrom(s, slot, d)
  {
    var t := Unref(s, slot);
    KeptIds(t, d, {id});
    SameIds(s.info, t.info);
    assert id in NewIds(s.info);
    forall x | x in d.info ensures x in s.info && Recounted(s.info[x], d.info[x]) && (x != id ==> Moved(s.info[x], d.info[x])) {
      assert Moved(t.info[x], d.info[x]);
    }
  }

  /** Clearing a slot leaves an unreferenced entry alone. */
  lemma ClearedSpares(s: State, slot: Slot, t: State, x: int, loose: set<int>)
    requires RefCounts(s.info, s.newTable, loose) && ClearedFrom(s, slot, t) && x in s.info && s.info[x].refCount == 0
    ensures x in t.info && Moved(s.info[x], t.info[x])
  {
    NoReferences(s.newTable, x);
  }

  // -- MakeTried

  lemma UnlistIndexed(s: State, id: int)
    requires Indexed(s) && id in s.info
    ensures Indexed(Unlist(s, id))
  {
    SameIndexes(s, Unlist(s, id));
  }

  lemma UnlistTabled(net: Net, s: State, id: int)
    requires Tabled(net, s, {}) && id in s.info
    ensures Tabled(net, Unlist(s, id), {id}) && Unlist(s, id).info[id].refCount == 0
    ensures NewIds(Unlist(s, id).info) == NewIds(s.info) && TriedIds(Unlist(s, id).info) == TriedIds(s.info)
  {
    hide TriedIndex, RefCounts;
    var t := Unlist(s, id);
    TriedFrame(net, s.key, s.info, t.info, s.triedTable);
    NewFrame(net, s.key, s.info, t.info, s.newTable);
    SameIds(s.info, t.info);
    UnlistRefs(s.info, s.newTable, id);
  }

  lemma UnlistRefs(info: Infos, table: Table, id: int)
    requires RefCounts(info, table, {}) && id in info
    ensures RefCounts(info[id := info[id].(refCount := info[id].refCount - |Slots(table, id)|)], table - Slots(table, id), {id})
    ensures info[id].refCount == |Slots(table, id)|
  {
    var table' := table - Slots(table, id);
    assert Slots(table', id) == {};
    forall x | x in info && x != id ensures Slots(table', x) == Slots(table, x) {
      assert forall slot :: slot in Slots(table', x) <==> slot in Slots(table, x);
    }
  }

  lemma UntryIndexed(s: State, k: Slot)
    requires Indexed(s) && k in s.triedTable && (var e := s.triedTable[k]; e in s.info)
    ensures Indexed(Untry(s, k))
  {
    SameIndexes(s, Untry(s, k));
  }

  lemma UntryTabled(net: Net, s: State, k: Slot, loose: set<int>)
    requires Tabled(net, s, loose) && k in s.triedTable
    ensures var e := s.triedTable[k]; e in s.info && Tabled(net, Untry(s, k), loose + {e}) && Untry(s, k).info[e].refCount == 0
    ensures var e := s.triedTable[k]; NewIds(Untry(s, k).info) == NewIds(s.info) + {e} && e !in NewIds(s.info)
    ensures var e := s.triedTable[k]; TriedIds(Untry(s, k).info) == TriedIds(s.info) - {e} && e in TriedIds(s.info)
  {
    var e := s.triedTable[k];
    hide NewSlotsOk;
    NoSlots(net, s, e, loose);
    UntryTried(net, s.key, s.info, s.triedTable, k, e);
    UntryNew(net, s.key, s.info, s.newTable, e);
  }

  lemma UntryTried(net: Net, key: nat, info: Infos, table: Table, k: Slot, e: int)
    requires TriedIndex(net, key, info, table) && k in table && table[k] == e
    ensures TriedIndex(net, key, info[e := info[e].(inTried := false)], table - {k})
  {
  }

  lemma UntryNew(net: Net, key: nat, info: Infos, table: Table, e: int)
    requires NewSlotsOk(net, key, info, table) && e in info && info[e].inTried
    ensures NewSlotsOk(net, key, info[e := info[e].(inTried := false)], table)
  {
  }

  lemma ListIndexed(s: State, u: Slot, e: int)
    requires Indexed(s) && e in s.info
    ensures Indexed(List(s, u, e))
  {
    SameIndexes(s, List(s, u, e));
  }

  lemma ListTabled(net: Net, s: State, u: Slot, e: int, loose: set<int>)
    requires Tabled(net, s, loose + {e}) && e in s.info && !s.info[e].inTried
    requires s.info[e].refCount < NEW_BUCKETS_PER_ADDRESS
    requires u !in s.newTable && u.bucket < NEW_BUCKET_COUNT
    requires u == NewSlotIn(net, s.key, u.bucket, s.info[e].service)
    ensures Tabled(net, List(s, u, e), loose)
    ensures NewIds(List(s, u, e).info) == NewIds(s.info) && TriedIds(List(s, u, e).info) == TriedIds(s.info)
  {
    hide TriedIndex, RefCounts;
    var t := List(s, u, e);
    TriedFrame(net, s.key, s.info, t.info, s.triedTable);
    NewFrame(net, s.key, s.info, t.info, s.newTable);
    SameIds(s.info, t.info);
    ListRefs(s.info, s.newTable, u, e, loose);
  }

  lemma ListRefs(info: Infos, table: Table, u: Slot, e: int, loose: set<int>)
    requires RefCounts(info, table, loose + {e}) && u !in table && e in info && info[e].refCount < NEW_BUCKETS_PER_ADDRESS
    ensures RefCounts(info[e := info[e].(refCount := info[e].refCount + 1)], table[u := e], loose)
  {
    SlotsInsert(table, u, e);
  }

  /** What no helper ever changes in an entry. */
  ghost predicate StableCore(i: Info, j: Info) {
    j == i.(randomPos := j.randomPos, refCount := j.refCount, inTried := j.inTried)
  }

  /** Entries only disappear or lose their tried flag. */
  ghost predicate Demoted(info: Infos, info': Infos) {
    forall x :: x in info' ==> x in info && StableCore(info[x], info'[x]) && (info'[x].inTried ==> info[x].inTried)
  }

  /** What eviction from tried slot `k` changes and keeps. */
  ghost predicate EvictedFrom(s: State, k: Slot, t: State) {
    && t.triedTable == s.triedTable - {k}
    && |NewIds(t.info)| - t.nNew == |NewIds(s.info)| - s.nNew
    && |TriedIds(t.info)| - t.nTried == |TriedIds(s.info)| - s.nTried
    && t.key == s.key && t.idCount == s.idCount && t.lastGood == s.lastGood && t.collisions == s.collisions
    && Demoted(s.info, t.info)
  }

  /** Eviction: the occupant of `k` moves to its own new slot, and an unlisted entry `x` is not touched. */
  lemma EvictKeeps(net: Net, s: State, k: Slot, x: int)
    requires Shape(net, s, {x}) && x in s.info && s.info[x].refCount == 0 && !s.info[x].inTried
    ensures Shape(net, Evict(net, s, k), {x})
    ensures EvictedFrom(s, k, Evict(net, s, k))
    ensures x in Evict(net, s, k).info && Moved(s.info[x], Evict(net, s, k).info[x])
  {
    hide Indexed, Tabled, ClearNew, Demoted;
    if k in s.triedTable {
      OccupantKnown(net, s, k, {x});
      EvictOccupant(net, s, k, s.triedTable[k], x);
    } else {
      assert s.triedTable - {k} == s.triedTable;
      DemotedSelf(s.info);
    }
  }

  lemma OccupantKnown(net: Net, s: State, k: Slot, loose: set<int>)
    requires Tabled(net, s, loose) && k in s.triedTable
    ensures var e := s.triedTable[k]; e in s.info && s.info[e].inTried
  {
    var e := s.triedTable[k];
  }

  lemma EvictOccupant(net: Net, s: State, k: Slot, e: int, x: int)
    requires Shape(net, s, {x}) && x in s.info && s.info[x].refCount == 0 && !s.info[x].inTried
    requires k in s.triedTable && s.triedTable[k] == e && e in s.info && s.info[e].inTried
    ensures var t := Evict(net, s, k);
      Shape(net, t, {x}) && EvictedFrom(s, k, t) && x in t.info && Moved(s.info[x], t.info[x])
  {
    hide IdsAllocated, AddrIndex, RandomIndex, TriedIndex, RefCounts, ClearNew, NewSlotsOk, Demoted, ClearedFrom, NewIds, TriedIds;
    var u := NewSlot(net, s.key, s.info[e].service, s.info[e].source);
    var s1 := Untry(s, k);
    UntryIndexed(s, k);
    UntryTabled(net, s, k, {x});
    ClearNewKeeps(net, s1, u, {x} + {e});
    var s2 := ClearNew(s1, u);
    ClearedSpares(s1, u, s2, x, {x} + {e});
    ClearedSpares(s1, u, s2, e, {x} + {e});
    ClearedFields(s1, u, s2);
    ListIndexed(s2, u, e);
    ListTabled(net, s2, u, e, {x});
    EvictedEntries(s, k, e, u, s2);
  }

  lemma ClearedFields(s: State, u: Slot, t: State)
    requires ClearedFrom(s, u, t)
    ensures t.newTable == s.newTable - {u} && TriedIds(t.info) == TriedIds(s.info) && SameTablesAs(s, t)
    ensures |NewIds(t.info)| - t.nNew == |NewIds(s.info)| - s.nNew
  {
  }

  lemma DemotedSelf(info: Infos)
    ensures Demoted(info, info)
  {
  }

  lemma EvictedEntries(s: State, k: Slot, e: int, u: Slot, s2: State)
    requires k in s.triedTable && s.triedTable[k] == e && e in s.info && ClearedFrom(Untry(s, k), u, s2)
    ensures Demoted(s.info, List(s2, u, e).info)
  {
    hide Recounted, StableCore, NewIds, TriedIds, SameTablesAs, Moved;
    EvictedInfos(s.info, s2.info, e);
  }

  lemma EvictedInfos(info: Infos, info': Infos, e: int)
    requires e in info
    requires var info1 := info[e := info[e].(inTried := false)];
      forall x :: x in info' ==> x in info1 && Recounted(info1[x], info'[x])
    ensures Demoted(info, info')
    ensures e in info' ==> Demoted(info, info'[e := info'[e].(refCount := info'[e].refCount + 1)])
  {
    forall x | x in info' ensures x in info && StableCore(info[x], info'[x]) && (info'[x].inTried ==> info[x].inTried) {
    }
  }

  lemma TryIndexed(s: State, k: Slot, id: int)
    requires Indexed(s) && id in s.info
    ensures Indexed(Try(s, k, id))
  {
    SameIndexes(s, Try(s, k, id));
  }

  lemma TryTabled(net: Net, s: State, k: Slot, id: int)
    requires Tabled(net, s, {id}) && id in s.info && !s.info[id].inTried && s.info[id].refCount == 0
    requires k == TriedSlot(net, s.key, s.info[id].service) && k !in s.triedTable
    ensures Tabled(net, Try(s, k, id), {})
    ensures NewIds(Try(s, k, id).info) == NewIds(s.info) - {id} && id in NewIds(s.info)
    ensures TriedIds(Try(s, k, id).info) == TriedIds(s.info) + {id}
  {
    hide TriedIndex, NewSlotsOk;
    NoReferences(s.newTable, id);
    TryTried(net, s.key, s.info, s.triedTable, k, id);
    TryNew(net, s.key, s.info, s.newTable, id);
  }

  lemma TryTried(net: Net, key: nat, info: Infos, table: Table, k: Slot, id: int)
    requires TriedIndex(net, key, info, table) && k !in table && id in info && !info[id].inTried
    requires k == TriedSlot(net, key, info[id].service)
    ensures TriedIndex(net, key, info[id := info[id].(inTried := true)], table[k := id])
  {
  }

  lemma TryNew(net: Net, key: nat, info: Infos, table: Table, id: int)
    requires NewSlotsOk(net, key, info, table) && id in info && forall slot :: slot in table ==> table[slot] != id
    ensures NewSlotsOk(net, key, info[id := info[id].(inTried := true)], table)
  {
  }

  /** What moving `id` to the tried table changes and keeps. */
  ghost predicate MovedToTried(net: Net, s: State, id: int, t: State)
    requires id in s.info
  {
    && t.triedTable == s.triedTable[TriedSlot(net, s.key, s.info[id].service) := id]
    && t.key == s.key && t.idCount == s.idCount && t.lastGood == s.lastGood && t.collisions == s.collisions
    && (forall x :: x in t.info ==>
          x in s.info && StableCore(s.info[x], t.info[x]) && (t.info[x].inTried ==> x == id || s.info[x].inTried))
    && id in t.info && t.info[id].inTried
  }

  /** MakeTried moves `id` to its tried slot, keeps every index and keeps the counters exact. */
  lemma MakeTriedKeeps(net: Net, s: State, id: int)
    requires Shape(net, s, {}) && Counted(s, 0, 0) && id in s.info && !s.info[id].inTried
    ensures Shape(net, MakeTried(net, s, id), {})
    ensures Counted(MakeTried(net, s, id), 0, 0)
    ensures MovedToTried(net, s, id, MakeTried(net, s, id))
  {
    hide Indexed, Tabled, Evict, StableCore, Demoted, MovedToTried;
    var s1 := Unlist(s, id);
    UnlistIndexed(s, id);
    UnlistTabled(net, s, id);
    var k := TriedSlot(net, s.key, s.info[id].service);
    EvictKeeps(net, s1, k, id);
    var s2 := Evict(net, s1, k);
    assert Moved(s1.info[id], s2.info[id]);
    TryIndexed(s2, k, id);
    TryTabled(net, s2, k, id);
    FinishMove(net, s, id, s2, k);
  }

  lemma FinishMove(net: Net, s: State, id: int, s2: State, k: Slot)
    requires id in s.info && EvictedFrom(Unlist(s, id), k, s2) && id in s2.info
    requires k == TriedSlot(net, s.key, s.info[id].service)
    ensures MovedToTried(net, s, id, Try(s2, k, id))
  {
    var s1, t := Unlist(s, id), Try(s2, k, id);
    assert t.triedTable == s.triedTable[k := id];
    forall x | x in t.info
      ensures x in s.info && StableCore(s.info[x], t.info[x]) && (t.info[x].inTried ==> x == id || s.info[x].inTried)
    {
      assert x in s2.info && StableCore(s1.info[x], s2.info[x]);
    }
  }
}
