/** The address manager's self-check (src/addrman.cpp:399-473), loop by loop: it answers 0 on
    exactly the states that meet `PassesCheck`. */
module AddrManCheck {
  import opened AddrManState
  import opened AddrMan
  import opened SortedSets

  /** Slots already passed by a walk over buckets and positions that is at (n, i). */
  predicate Passed(slot: Slot, n: nat, i: nat) {
    slot.bucket < n || (slot.bucket == n && slot.pos < i)
  }

  lemma PassedStep(n: nat, i: nat)
    ensures forall slot :: Passed(slot, n, i + 1) <==> Passed(slot, n, i) || slot == Slot(n, i)
  {
    forall slot ensures Passed(slot, n, i + 1) <==> Passed(slot, n, i) || slot == Slot(n, i) {
      var Slot(b, p) := slot;
    }
  }

  ghost predicate Fits(table: Table) {
    forall slot :: slot in table ==> slot.pos < BUCKET_SIZE
  }

  predicate TriedSlotPasses(net: Net, key: nat, info: Infos, slot: Slot, id: int) {
    id in info && info[id].inTried && slot == TriedSlot(net, key, info[id].service)
  }

  predicate Placed(net: Net, key: nat, info: Infos, table: Table, id: int, n: nat, i: nat)
    requires id in info
  {
    var slot := TriedSlot(net, key, info[id].service);
    slot in table && Passed(slot, n, i) && table[slot] == id
  }

  predicate TriedWalk(net: Net, key: nat, info: Infos, table: Table, left: set<int>, n: nat, i: nat) {
    && (forall slot :: slot in table && Passed(slot, n, i) ==> var id := table[slot]; TriedSlotPasses(net, key, info, slot, id))
    && left <= TriedIds(info)
    && (forall id :: id in TriedIds(info) ==> (id in left <==> !Placed(net, key, info, table, id, n, i)))
  }

  lemma TriedWalkNext(net: Net, key: nat, info: Infos, table: Table, left: set<int>, n: nat, i: nat)
    requires TriedWalk(net, key, info, table, left, n, i)
    ensures var slot := Slot(n, i);
      slot !in table ==> TriedWalk(net, key, info, table, left, n, i + 1)
    ensures var slot := Slot(n, i);
      slot in table ==>
        var id := table[slot];
        if id in left && slot == TriedSlot(net, key, info[id].service)
        then TriedWalk(net, key, info, table, left - {id}, n, i + 1)
        else !TriedIndex(net, key, info, table)
  {
    hide TriedSlot;
    var slot := Slot(n, i);
    PassedStep(n, i);
    if slot in table && table[slot] in left && slot == TriedSlot(net, key, info[table[slot]].service) {
      var id := table[slot];
      assert TriedSlotPasses(net, key, info, slot, id);
      forall x | x in TriedIds(info)
        ensures x in left - {id} <==> !Placed(net, key, info, table, x, n, i + 1)
      {
        assert x in left <==> !Placed(net, key, info, table, x, n, i);
      }
    } else if slot in table && TriedIndex(net, key, info, table) {
      Unplaced(net, key, info, table, left, n, i);
    }
  }

  lemma Unplaced(net: Net, key: nat, info: Infos, table: Table, left: set<int>, n: nat, i: nat)
    requires TriedWalk(net, key, info, table, left, n, i) && TriedIndex(net, key, info, table)
    requires Slot(n, i) in table
    ensures var slot := Slot(n, i); var id := table[slot];
      id in left && id in info && slot == TriedSlot(net, key, info[id].service)
  {
    var slot := Slot(n, i);
    var id := table[slot];
    assert id in TriedIds(info);
    assert !Placed(net, key, info, table, id, n, i);
  }

  lemma TriedWalkDone(net: Net, key: nat, info: Infos, table: Table, left: set<int>, n: nat)
    requires TriedWalk(net, key, info, table, left, n, 0)
    requires forall slot :: slot in table ==> slot.bucket < n
    ensures left == {} <==> TriedIndex(net, key, info, table)
  {
    hide TriedSlot;
    if left == {} {
      forall id | id in info && info[id].inTried
        ensures var slot := TriedSlot(net, key, info[id].service); slot in table && table[slot] == id
      {
        assert id in TriedIds(info);
        assert Placed(net, key, info, table, id, n, 0);
      }
      forall slot | slot in table
        ensures var id := table[slot]; id in info && info[id].inTried && slot == TriedSlot(net, key, info[id].service)
      {
        var id := table[slot];
        assert TriedSlotPasses(net, key, info, slot, id);
      }
    } else {
      Inhabited(left);
      var id :| id in left;
      assert id in TriedIds(info);
      assert !Placed(net, key, info, table, id, n, 0);
    }
  }

  /** The loops over the tried table: `left` is what `setTried` still holds. */
  method CheckTried(net: Net, key: nat, info: Infos, a: array2<int>, ids: set<int>) returns (err: int, left: set<int>)
    requires ids == TriedIds(info) && a.Length1 == BUCKET_SIZE
    ensures err == 0 && left == {} <==> TriedIndex(net, key, info, TableOf(a))
  {
    hide TriedIndex, TriedWalk, BucketPosition, TriedBucket;
    ghost var table := TableOf(a);
    forall slot: Slot | slot in table ensures slot.bucket < a.Length0 && slot.pos < BUCKET_SIZE {
      var Slot(b, p) := slot;
    }
    err, left := 0, ids;
    TriedWalkStart(net, key, info, table);
    for n := 0 to a.Length0
      invariant TriedWalk(net, key, info, table, left, n, 0)
    {
      for i := 0 to a.Length1
        invariant TriedWalk(net, key, info, table, left, n, i)
      {
        TriedWalkNext(net, key, info, table, left, n, i);
        TriedWalkKnown(net, key, info, table, left, n, i);
        assert Slot(n, i) in table <==> a[n, i] != -1;
        if a[n, i] != -1 {
          var id := a[n, i];
          if id !in left {
            return -11, left;
          }
          if TriedBucket(net, key, info[id].service) != n {
            return -17, left;
          }
          if BucketPosition(net, key, false, n, info[id].service) != i {
            return -18, left;
          }
          left := left - {id};
        }
      }
      TriedWalkRow(net, key, info, table, left, n);
    }
    TriedWalkDone(net, key, info, table, left, a.Length0);
  }

  lemma TriedWalkStart(net: Net, key: nat, info: Infos, table: Table)
    ensures TriedWalk(net, key, info, table, TriedIds(info), 0, 0)
  {
  }

  lemma TriedWalkKnown(net: Net, key: nat, info: Infos, table: Table, left: set<int>, n: nat, i: nat)
    requires TriedWalk(net, key, info, table, left, n, i)
    ensures forall id :: id in left ==> id in info
  {
    forall id | id in left ensures id in info {
      assert id in TriedIds(info);
    }
  }

  lemma TriedWalkRow(net: Net, key: nat, info: Infos, table: Table, left: set<int>, n: nat)
    requires TriedWalk(net, key, info, table, left, n, BUCKET_SIZE) && Fits(table)
    ensures TriedWalk(net, key, info, table, left, n + 1, 0)
  {
    hide TriedSlot;
    forall slot | slot in table && Passed(slot, n + 1, 0) ensures Passed(slot, n, BUCKET_SIZE) {
    }
    forall id | id in TriedIds(info)
      ensures Placed(net, key, info, table, id, n + 1, 0) <==> Placed(net, key, info, table, id, n, BUCKET_SIZE)
    {
    }
  }

  // ----- The new table -----

  predicate NewSlotPasses(net: Net, key: nat, info: Infos, slot: Slot, id: int) {
    id in info && !info[id].inTried && slot.pos == BucketPosition(net, key, true, slot.bucket, info[id].service)
  }

  function PassedSlots(table: Table, id: int, n: nat, i: nat): set<Slot> {
    set slot | slot in Slots(table, id) && Passed(slot, n, i)
  }

  /** What `mapNew` holds for an id of which `k` slots have been passed. */
  predicate Remaining(left: map<int, int>, id: int, ref: int, k: nat) {
    && k <= ref
    && (id in left <==> k < ref)
    && (id in left ==> left[id] == ref - k)
  }

  ghost predicate NewWalk(net: Net, key: nat, info: Infos, table: Table, left: map<int, int>, n: nat, i: nat) {
    && (forall slot :: slot in table && Passed(slot, n, i) ==> var id := table[slot]; NewSlotPasses(net, key, info, slot, id))
    && left.Keys <= NewIds(info)
    && (forall id :: id in NewIds(info) ==> Remaining(left, id, info[id].refCount, |PassedSlots(table, id, n, i)|))
  }

  lemma PassedNext(table: Table, id: int, n: nat, i: nat)
    ensures var slot := Slot(n, i);
      PassedSlots(table, id, n, i + 1)
        == if slot in table && table[slot] == id then PassedSlots(table, id, n, i) + {slot} else PassedSlots(table, id, n, i)
    ensures Slot(n, i) !in PassedSlots(table, id, n, i)
  {
    PassedStep(n, i);
  }

  lemma NewWalkNext(net: Net, key: nat, info: Infos, table: Table, left: map<int, int>, n: nat, i: nat)
    requires NewWalk(net, key, info, table, left, n, i)
    ensures var slot := Slot(n, i);
      slot !in table ==> NewWalk(net, key, info, table, left, n, i + 1)
    ensures var slot := Slot(n, i);
      slot in table ==>
        var id := table[slot];
        if id in left && NewSlotPasses(net, key, info, slot, id)
        then NewWalk(net, key, info, table, if left[id] == 1 then left - {id} else left[id := left[id] - 1], n, i + 1)
        else !NewTablePasses(net, key, info, table)
  {
    hide BucketPosition, PassedSlots, NewTablePasses, Slots;
    var slot := Slot(n, i);
    PassedStep(n, i);
    if slot !in table {
      forall id | id in NewIds(info)
        ensures Remaining(left, id, info[id].refCount, |PassedSlots(table, id, n, i + 1)|)
      {
        PassedNext(table, id, n, i);
      }
    } else {
      var id := table[slot];
      if id in left && NewSlotPasses(net, key, info, slot, id) {
        var after := if left[id] == 1 then left - {id} else left[id := left[id] - 1];
        forall x | x in NewIds(info)
          ensures Remaining(after, x, info[x].refCount, |PassedSlots(table, x, n, i + 1)|)
        {
          assert Remaining(left, x, info[x].refCount, |PassedSlots(table, x, n, i)|);
          PassedNext(table, x, n, i);
        }
      } else if NewTablePasses(net, key, info, table) {
        TooMany(net, key, info, table, left, n, i);
      }
    }
  }

  /** An id with no references left cannot occupy one more slot. */
  lemma TooMany(net: Net, key: nat, info: Infos, table: Table, left: map<int, int>, n: nat, i: nat)
    requires NewWalk(net, key, info, table, left, n, i) && NewTablePasses(net, key, info, table)
    requires Slot(n, i) in table
    ensures var slot := Slot(n, i); var id := table[slot]; id in left && NewSlotPasses(net, key, info, slot, id)
  {
    var slot := Slot(n, i);
    var id := table[slot];
    assert id in NewIds(info);
    assert Remaining(left, id, info[id].refCount, |PassedSlots(table, id, n, i)|);
    assert |Slots(table, id)| == info[id].refCount;
    PassedNext(table, id, n, i);
    SubsetSize(PassedSlots(table, id, n, i + 1), Slots(table, id));
  }

  lemma NewWalkDone(net: Net, key: nat, info: Infos, table: Table, left: map<int, int>, n: nat)
    requires NewWalk(net, key, info, table, left, n, 0)
    requires forall slot :: slot in table ==> slot.bucket < n
    ensures left == map[] <==> NewTablePasses(net, key, info, table)
  {
    hide BucketPosition;
    forall id ensures PassedSlots(table, id, n, 0) == Slots(table, id) {
    }
    forall slot | slot in table
      ensures var id := table[slot]; NewSlotPasses(net, key, info, slot, id)
    {
      assert Passed(slot, n, 0);
    }
    if left == map[] {
      forall id | id in info && !info[id].inTried ensures |Slots(table, id)| == info[id].refCount {
        assert id in NewIds(info);
        assert Remaining(left, id, info[id].refCount, |PassedSlots(table, id, n, 0)|);
      }
    } else {
      assert left.Keys != {};
      Inhabited(left.Keys);
      var id :| id in left;
      assert id in NewIds(info);
      assert Remaining(left, id, info[id].refCount, |PassedSlots(table, id, n, 0)|);
    }
  }

  lemma NewWalkRow(net: Net, key: nat, info: Infos, table: Table, left: map<int, int>, n: nat)
    requires NewWalk(net, key, info, table, left, n, BUCKET_SIZE) && Fits(table)
    ensures NewWalk(net, key, info, table, left, n + 1, 0)
  {
    hide BucketPosition;
    forall id ensures PassedSlots(table, id, n + 1, 0) == PassedSlots(table, id, n, BUCKET_SIZE) {
    }
  }

  lemma NewWalkStart(net: Net, key: nat, info: Infos, table: Table, left: map<int, int>)
    requires left.Keys == NewIds(info) && forall id :: id in left ==> left[id] == info[id].refCount >= 1
    ensures NewWalk(net, key, info, table, left, 0, 0)
  {
    forall id | id in NewIds(info)
      ensures Remaining(left, id, info[id].refCount, |PassedSlots(table, id, 0, 0)|)
    {
      assert PassedSlots(table, id, 0, 0) == {};
    }
  }

  lemma NewWalkKnown(net: Net, key: nat, info: Infos, table: Table, left: map<int, int>, n: nat, i: nat)
    requires NewWalk(net, key, info, table, left, n, i)
    ensures forall id :: id in left ==> id in info && !info[id].inTried
  {
    forall id | id in left ensures id in info && !info[id].inTried {
      assert id in NewIds(info);
    }
  }

  /** The loops over the new table: `left` is what `mapNew` still holds. */
  method CheckNew(net: Net, key: nat, info: Infos, a: array2<int>, refs: map<int, int>) returns (err: int, left: map<int, int>)
    requires refs.Keys == NewIds(info) && a.Length1 == BUCKET_SIZE
    requires forall id :: id in refs ==> refs[id] == info[id].refCount >= 1
    ensures err == 0 && left == map[] <==> NewTablePasses(net, key, info, TableOf(a))
  {
    hide NewTablePasses, NewWalk, BucketPosition;
    ghost var table := TableOf(a);
    forall slot: Slot | slot in table ensures slot.bucket < a.Length0 && slot.pos < BUCKET_SIZE {
      var Slot(b, p) := slot;
    }
    err, left := 0, refs;
    NewWalkStart(net, key, info, table, left);
    for n := 0 to a.Length0
      invariant NewWalk(net, key, info, table, left, n, 0)
    {
      for i := 0 to a.Length1
        invariant NewWalk(net, key, info, table, left, n, i)
      {
        NewWalkNext(net, key, info, table, left, n, i);
        NewWalkKnown(net, key, info, table, left, n, i);
        assert Slot(n, i) in table <==> a[n, i] != -1;
        if a[n, i] != -1 {
          var id := a[n, i];
          if id !in left {
            return -12, left;
          }
          if BucketPosition(net, key, true, n, info[id].service) != i {
            return -19, left;
          }
          left := if left[id] == 1 then left - {id} else left[id := left[id] - 1];
        }
      }
      NewWalkRow(net, key, info, table, left, n);
    }
    NewWalkDone(net, key, info, table, left, a.Length0);
  }

  // ----- The entries -----

  /** The ids in `ids`, and no others, have been sorted into `setTried` and `mapNew`. */
  ghost predicate Sorted(info: Infos, ids: set<int>, tried: set<int>, refs: map<int, int>) {
    && (forall id :: id in tried <==> id in ids && id in info && info[id].inTried)
    && (forall id :: id in refs <==> id in ids && id in info && !info[id].inTried)
    && (forall id :: id in refs ==> refs[id] == info[id].refCount)
  }

  lemma SortedNone(info: Infos)
    ensures Sorted(info, {}, {}, map[])
  {
  }

  lemma SortedNext(info: Infos, ids: set<int>, tried: set<int>, refs: map<int, int>, n: int)
    requires Sorted(info, ids, tried, refs) && n in info
    ensures info[n].inTried ==> Sorted(info, ids + {n}, tried + {n}, refs)
    ensures !info[n].inTried ==> Sorted(info, ids + {n}, tried, refs[n := info[n].refCount])
  {
  }

  ghost predicate AllPass(info: Infos, ids: set<int>, addrs: map<NetAddr, int>, random: seq<int>) {
    forall id :: id in ids && id in info ==> EntryPasses(id, info[id], addrs, random)
  }

  lemma AllPassNone(info: Infos, addrs: map<NetAddr, int>, random: seq<int>)
    ensures AllPass(info, {}, addrs, random)
  {
  }

  lemma AllPassNext(info: Infos, ids: set<int>, addrs: map<NetAddr, int>, random: seq<int>, n: int)
    requires n in info && AllPass(info, ids, addrs, random)
    ensures EntryPasses(n, info[n], addrs, random) ==> AllPass(info, ids + {n}, addrs, random)
    ensures !EntryPasses(n, info[n], addrs, random) ==> !AllPass(info, info.Keys, addrs, random)
  {
    hide EntryPasses;
  }

  /** `mapAddr` after looking addresses up: a missing one is inserted with id 0. */
  ghost predicate LookedUp(addrs: map<NetAddr, int>, after: map<NetAddr, int>) {
    addrs.Keys <= after.Keys && forall a :: a in after ==> after[a] == AddrLookup(addrs, a)
  }

  /** Of entries that all pass, only the one with id 0 can have had a missing address. */
  function PassedLookups(info: Infos, ids: set<int>, addrs: map<NetAddr, int>): map<NetAddr, int> {
    if 0 in ids && 0 in info then addrs[info[0].service.net := 0] else addrs
  }

  lemma LookupNext(info: Infos, ids: set<int>, addrs: map<NetAddr, int>, random: seq<int>, n: int)
    requires n in info && n !in ids && EntryPasses(n, info[n], addrs, random) && AllPass(info, ids, addrs, random)
    ensures var a, after := info[n].service.net, PassedLookups(info, ids, addrs);
      PassedLookups(info, ids + {n}, addrs) == if a in after then after else after[a := 0]
  {
    if 0 in ids && 0 in info {
      assert EntryPasses(0, info[0], addrs, random);
    }
  }

  /** The loop over the entries, in the order of their ids. */
  method CheckEntries(info: Infos, addrs: map<NetAddr, int>, random: seq<int>)
      returns (err: int, tried: set<int>, refs: map<int, int>, after: map<NetAddr, int>)
    ensures err == 0 <==> AllPass(info, info.Keys, addrs, random)
    ensures err == 0 ==> Sorted(info, info.Keys, tried, refs) && after == PassedLookups(info, info.Keys, addrs)
    ensures LookedUp(addrs, after)
  {
    hide Sorted, AllPass, PassedLookups;
    err, tried, refs, after := 0, {}, map[], addrs;
    SortedNone(info);
    AllPassNone(info, addrs, random);
    var todo := info.Keys;
    ghost var done: set<int> := {};
    assert PassedLookups(info, {}, addrs) == addrs by {
      NoLookups(info, addrs);
    }
    while todo != {}
      invariant todo <= info.Keys && done == info.Keys - todo
      invariant AllPass(info, done, addrs, random) && after == PassedLookups(info, done, addrs)
      invariant LookedUp(addrs, after)
      invariant Sorted(info, done, tried, refs)
      decreases |todo|
    {
      var n := Least(todo);
      var i := info[n];
      SortedNext(info, done, tried, refs, n);
      AllPassNext(info, done, addrs, random, n);
      if i.inTried {
        if i.lastSuccess == 0 { return -1, tried, refs, after; }
        if i.refCount != 0 { return -2, tried, refs, after; }
        tried := tried + {n};
      } else {
        if i.refCount < 0 || i.refCount > NEW_BUCKETS_PER_ADDRESS { return -3, tried, refs, after; }
        if i.refCount == 0 { return -4, tried, refs, after; }
        refs := refs[n := i.refCount];
      }
      if i.service.net !in after {
        after := after[i.service.net := 0];
      }
      if after[i.service.net] != n { return -5, tried, refs, after; }
      if i.randomPos < 0 || i.randomPos >= |random| || random[i.randomPos] != n { return -14, tried, refs, after; }
      if i.lastTry < 0 { return -6, tried, refs, after; }
      if i.lastSuccess < 0 { return -8, tried, refs, after; }
      LookupNext(info, done, addrs, random, n);
      todo, done := todo - {n}, done + {n};
    }
    assert done == info.Keys;
  }

  lemma NoLookups(info: Infos, addrs: map<NetAddr, int>)
    ensures PassedLookups(info, {}, addrs) == addrs
  {
  }

  lemma SortedAll(info: Infos, tried: set<int>, refs: map<int, int>)
    requires Sorted(info, info.Keys, tried, refs)
    ensures tried == TriedIds(info) && refs.Keys == NewIds(info) && |refs| == |NewIds(info)|
    ensures forall id :: id in refs ==> id in info && !info[id].inTried && refs[id] == info[id].refCount
  {
    assert forall id :: id in TriedIds(info) <==> id in tried;
    assert forall id :: id in NewIds(info) <==> id in refs.Keys;
    assert refs.Keys == NewIds(info);
    assert |refs| == |refs.Keys|;
  }

  /** The self-check answers 0 exactly when the state passes. It changes nothing but `mapAddr`,
      where it inserts the addresses that it misses; when it passes that is at most the address
      of entry 0. */
  method Check(m: AddrMan) returns (err: int)
    requires m.Layout()
    modifies m`mapAddr
    ensures err == 0 <==> PassesCheck(m.net, old(m.S()))
    ensures LookedUp(old(m.mapAddr), m.mapAddr)
    ensures err == 0 ==> m.mapAddr == PassedLookups(m.mapInfo, m.mapInfo.Keys, old(m.mapAddr))
  {
    hide TriedIndex, NewTablePasses, TableOf, TriedIds, NewIds, Sorted, PassedLookups;
    if |m.vRandom| != m.nTried + m.nNew {
      return -7;
    }
    var e, tried, refs, after := CheckEntries(m.mapInfo, m.mapAddr, m.vRandom);
    m.mapAddr := after;
    if e != 0 {
      return e;
    }
    SortedAll(m.mapInfo, tried, refs);
    if |tried| != m.nTried {
      return -9;
    }
    if |refs| != m.nNew {
      return -10;
    }
    forall id | id in refs ensures refs[id] >= 1 {
      assert id in m.mapInfo;
      assert EntryPasses(id, m.mapInfo[id], old(m.mapAddr), m.vRandom);
    }
    var triedErr, triedLeft := CheckTried(m.net, m.nKey, m.mapInfo, m.vvTried, tried);
    if triedErr != 0 {
      return triedErr;
    }
    var newErr, newLeft := CheckNew(m.net, m.nKey, m.mapInfo, m.vvNew, refs);
    if newErr != 0 {
      return newErr;
    }
    if |triedLeft| != 0 {
      return -13;
    }
    if |newLeft| != 0 {
      return -15;
    }
    if m.nKey == 0 {
      return -16;
    }
    err := 0;
  }

  /** In a consistent manager no address is missing, so the self-check changes nothing. */
  lemma NothingInserted(net: Net, s: State)
    requires Consistent(net, s)
    ensures PassedLookups(s.info, s.info.Keys, s.addrs) == s.addrs
  {
    hide RandomIndex, Tabled, CollisionsPending, Counted;
    if 0 in s.info {
      assert s.info[0].service.net in s.addrs;
    }
  }

  // ----- What the self-check finds -----

  /** Every entry points at its own place of `vRandom`, which has as many places as entries. */
  ghost predicate PointsBack(info: Infos, random: seq<int>) {
    && |random| == |info|
    && (forall id :: id in info ==> 0 <= info[id].randomPos < |random| && random[info[id].randomPos] == id)
  }

  /** Then no place is left over. */
  lemma PlaceTaken(info: Infos, random: seq<int>, i: nat)
    requires PointsBack(info, random) && i < |random|
    ensures exists id :: id in info && info[id].randomPos == i
  {
    if forall id :: id in info ==> info[id].randomPos != i {
      var n := |random|;
      var code := map id | id in info :: if info[id].randomPos == n - 1 then i else info[id].randomPos;
      forall x, y | x in info.Keys && y in info.Keys && x != y ensures code[x] != code[y] {
        assert random[info[x].randomPos] == x && random[info[y].randomPos] == y;
      }
      Pigeonhole(info.Keys, code, n - 1);
      assert false;
    }
  }

  lemma BackIsIndex(info: Infos, random: seq<int>)
    requires PointsBack(info, random)
    ensures RandomIndex(info, random)
  {
    forall i | 0 <= i < |random| ensures var id := random[i]; id in info && info[id].randomPos == i {
      PlaceTaken(info, random, i);
      var id :| id in info && info[id].randomPos == i;
      assert random[info[id].randomPos] == id;
    }
  }

  /** The self-check passes exactly the states whose random order, tables, reference counts and
      counters are right, whose times are sane, and in which every entry is found by its address.
      What it cannot see are further addresses, ids not given out yet and pending collisions. */
  lemma SelfCheckExact(net: Net, s: State)
    requires forall slot :: slot in s.newTable ==> slot.bucket < NEW_BUCKET_COUNT
    ensures PassesCheck(net, s) <==>
      && RandomIndex(s.info, s.random) && Tabled(net, s, {}) && Counted(s, 0, 0) && TimesOk(s) && s.key != 0
      && forall id :: id in s.info ==> AddrLookup(s.addrs, s.info[id].service.net) == id
  {
    hide RandomIndex, Tabled, PassesCheck, Counted, TimesOk;
    if PassesCheck(net, s) {
      PassedIndex(net, s);
      PassedTables(net, s);
    }
    if && RandomIndex(s.info, s.random) && Tabled(net, s, {}) && Counted(s, 0, 0) && TimesOk(s) && s.key != 0
       && forall id :: id in s.info ==> AddrLookup(s.addrs, s.info[id].service.net) == id
    {
      RightPasses(net, s);
    }
  }

  lemma PassedIndex(net: Net, s: State)
    requires PassesCheck(net, s)
    ensures RandomIndex(s.info, s.random) && Counted(s, 0, 0) && TimesOk(s) && s.key != 0
    ensures forall id :: id in s.info ==> AddrLookup(s.addrs, s.info[id].service.net) == id
  {
    hide TriedIndex, NewTablePasses, RandomIndex, AddrLookup;
    IdsSplit(s.info);
    forall id | id in s.info
      ensures 0 <= s.info[id].randomPos < |s.random| && s.random[s.info[id].randomPos] == id
    {
      assert EntryPasses(id, s.info[id], s.addrs, s.random);
    }
    BackIsIndex(s.info, s.random);
  }

  lemma PassedTables(net: Net, s: State)
    requires PassesCheck(net, s) && forall slot :: slot in s.newTable ==> slot.bucket < NEW_BUCKET_COUNT
    ensures Tabled(net, s, {})
  {
    hide TriedIndex, Slots, AddrLookup;
    forall slot | slot in s.newTable ensures slot == NewSlotIn(net, s.key, slot.bucket, s.info[s.newTable[slot]].service) {
      var Slot(b, p) := slot;
    }
    forall id | id in s.info && s.info[id].inTried ensures |Slots(s.newTable, id)| == 0 {
      NoneReferenced(net, s, id);
    }
    forall id | id in s.info ensures s.info[id].refCount == |Slots(s.newTable, id)| <= NEW_BUCKETS_PER_ADDRESS {
      assert EntryPasses(id, s.info[id], s.addrs, s.random);
    }
  }

  lemma RightPasses(net: Net, s: State)
    requires RandomIndex(s.info, s.random) && Tabled(net, s, {}) && Counted(s, 0, 0) && TimesOk(s) && s.key != 0
    requires forall id :: id in s.info ==> AddrLookup(s.addrs, s.info[id].service.net) == id
    ensures PassesCheck(net, s)
  {
    hide TriedIndex, NewTablePasses, Slots, NewSlotsOk, AddrLookup, EntryPasses;
    IdsSplit(s.info);
    RandomSize(s);
    NewPasses(net, s);
    forall id | id in s.info ensures EntryPasses(id, s.info[id], s.addrs, s.random) {
      RightEntry(net, s, id);
    }
  }

  lemma RightEntry(net: Net, s: State, id: int)
    requires RandomIndex(s.info, s.random) && Tabled(net, s, {}) && TimesOk(s) && id in s.info
    requires AddrLookup(s.addrs, s.info[id].service.net) == id
    ensures EntryPasses(id, s.info[id], s.addrs, s.random)
  {
    hide TriedIndex, Slots, AddrLookup;
    if s.info[id].inTried {
      NoneReferenced(net, s, id);
    }
  }
}
