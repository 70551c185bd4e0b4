/** What Good_ and Add_ do, told by the two bucket tables: in a consistent state the tables
    decide which entries there are, which are tried and how often each is referenced. */
module AddrManOutcomes {
  import opened AddrManState
  import Ops = AddrManOps
  import opened AddrManRun
  import opened AddrManTheorems
  import opened Powers
  import opened SortedSets

  /** An entry exists exactly when a table names it, and the tables give its flag and count. */
  lemma TablesDecide(net: Net, s: State, id: int)
    requires Consistent(net, s)
    ensures id in s.info <==> Slots(s.newTable, id) != {} || Slots(s.triedTable, id) != {}
    ensures id in s.info ==> (s.info[id].inTried <==> Slots(s.triedTable, id) != {})
    ensures id in s.info ==> s.info[id].refCount == |Slots(s.newTable, id)|
  {
    hide Indexed, CollisionsPending, Counted;
    if id in s.info && s.info[id].inTried {
      assert TriedSlot(net, s.key, s.info[id].service) in Slots(s.triedTable, id);
    }
    if id in s.info && !s.info[id].inTried {
      BucketFound(net, s, id);
    }
    if slot :| slot in Slots(s.newTable, id) {
      var x := s.newTable[slot];
    }
    if slot :| slot in Slots(s.triedTable, id) {
      var x := s.triedTable[slot];
    }
  }

  // ----- Good_ -----

  /** The new table after `id` moved to tried slot `k`: its references are gone, and the entry it
      displaced has the one slot that its own source gives it. */
  function NewTableAfterMove(net: Net, s: State, id: int, k: Slot): Table {
    var cleared := s.newTable - Slots(s.newTable, id);
    if k in s.triedTable && s.triedTable[k] in s.info then
      var e := s.triedTable[k];
      cleared[NewSlot(net, s.key, s.info[e].service, s.info[e].source) := e]
    else cleared
  }

  lemma EvictTable(net: Net, s: State, k: Slot, x: int)
    requires Shape(net, s, {x}) && x in s.info && s.info[x].refCount == 0 && !s.info[x].inTried
    ensures Ops.Evict(net, s, k).newTable == if k in s.triedTable && s.triedTable[k] in s.info
      then var e := s.triedTable[k]; s.newTable[NewSlot(net, s.key, s.info[e].service, s.info[e].source) := e] else s.newTable
  {
    hide Indexed, TriedIndex, RefCounts, NewSlotsOk, Ops.ClearNew, Ops.ClearedFrom, NewIds, TriedIds;
    if k in s.triedTable && s.triedTable[k] in s.info {
      var e := s.triedTable[k];
      var u := NewSlot(net, s.key, s.info[e].service, s.info[e].source);
      var s1 := Ops.Untry(s, k);
      Ops.UntryIndexed(s, k);
      Ops.UntryTabled(net, s, k, {x});
      Ops.ClearNewKeeps(net, s1, u, {x} + {e});
      var s2 := Ops.ClearNew(s1, u);
      Ops.ClearedSpares(s1, u, s2, e, {x} + {e});
      Ops.ClearedFields(s1, u, s2);
      assert (s.newTable - {u})[u := e] == s.newTable[u := e];
    }
  }

  lemma MakeTriedTables(net: Net, s: State, id: int)
    requires Shape(net, s, {}) && id in s.info && !s.info[id].inTried
    ensures var t, k := Ops.MakeTried(net, s, id), TriedSlot(net, s.key, s.info[id].service);
      t.newTable == NewTableAfterMove(net, s, id, k)
  {
    hide Indexed, Tabled, Ops.Evict, Slots;
    var s1 := Ops.Unlist(s, id);
    Ops.UnlistIndexed(s, id);
    Ops.UnlistTabled(net, s, id);
    var k := TriedSlot(net, s.key, s.info[id].service);
    NotItself(net, s, id, k);
    EvictTable(net, s1, k, id);
  }

  lemma NotItself(net: Net, s: State, id: int, k: Slot)
    requires Shape(net, s, {}) && id in s.info && !s.info[id].inTried
    ensures k in s.triedTable ==> s.triedTable[k] != id && s.triedTable[k] in s.info
    ensures var s1 := Ops.Unlist(s, id); s1.info[id].refCount == 0
  {
    hide Indexed;
    if k in s.triedTable {
      var e := s.triedTable[k];
      assert e in s.info;
    }
  }

  ghost predicate SameTables(s: State, t: State) {
    t.newTable == s.newTable && t.triedTable == s.triedTable && t.info.Keys == s.info.Keys
  }

  /** The known address gets its statistics, no other entry does. It stays where it is if it is tried already, or if
      its tried slot is taken and the occupant is to be tested first; otherwise it moves. */
  lemma GoodOutcome(net: Net, s: State, a: Service, test: bool, time: int)
    requires Consistent(net, s)
    ensures var t := Good(net, s, a, test, time);
      && t.lastGood == time
      && (!Hit(s, a) ==> t == s.(lastGood := time))
      && (Hit(s, a) ==> GoodMoves(net, s, s.addrs[a.net], test, time, t))
  {
    hide Consistent, Ops.MakeTried, GoodMoves, Slots, TriedSlot;
    if Hit(s, a) {
      var id := s.addrs[a.net];
      var t, k := Good(net, s, a, test, time), TriedSlot(net, s.key, a);
      if s.info[id].inTried {
        GoodStays(net, s, id, test, time, t);
      } else {
        HasSlots(net, s, id);
        if test && k in s.triedTable {
          GoodStays(net, s, id, test, time, t);
        } else {
          GoodMoved(net, s, id, test, time);
        }
      }
    }
  }

  lemma HasSlots(net: Net, s: State, id: int)
    requires Consistent(net, s) && id in s.info && !s.info[id].inTried
    ensures Slots(s.newTable, id) != {}
  {
    hide Indexed, TriedIndex, NewSlotsOk, RefCounts, Counted, CollisionsPending;
    BucketFound(net, s, id);
  }

  /** The entry with the statistics of a success. */
  function Succeeded(s: State, id: int, time: int): State
    requires id in s.info
  {
    Ops.WithInfo(s.(lastGood := time), id, s.info[id].(lastSuccess := time, lastTry := time, attempts := 0))
  }

  lemma GoodStays(net: Net, s: State, id: int, test: bool, time: int, t: State)
    requires id in s.info && (s.info[id].inTried || (test && TriedSlot(net, s.key, s.info[id].service) in s.triedTable))
    requires t == Succeeded(s, id, time).(collisions := t.collisions)
    requires t.collisions == if !s.info[id].inTried && |s.collisions| < 10 then s.collisions + {id} else s.collisions
    ensures GoodMoves(net, s, id, test, time, t)
  {
    hide TriedSlot, NewTableAfterMove, OthersStable;
    var s1 := Succeeded(s, id, time);
    assert s1.info.Keys == s.info.Keys;
    StableOthers(s, id, s1.info[id], s1, t);
  }

  lemma GoodMoved(net: Net, s: State, id: int, test: bool, time: int)
    requires Consistent(net, s) && id in s.info && !s.info[id].inTried
    requires !(test && TriedSlot(net, s.key, s.info[id].service) in s.triedTable)
    ensures GoodMoves(net, s, id, test, time, Ops.MakeTried(net, Succeeded(s, id, time), id))
    ensures Ops.MakeTried(net, Succeeded(s, id, time), id).lastGood == time
  {
    hide Indexed, Tabled, CollisionsPending, Counted, Ops.MakeTried, NewTableAfterMove, TriedSlot, OthersStable;
    var s1 := Succeeded(s, id, time);
    LastGoodOnly(net, s, time);
    StatsConsistent(net, s.(lastGood := time), id, s1.info[id]);
    MakeTriedTables(net, s1, id);
    Ops.MakeTriedKeeps(net, s1, id);
    var t := Ops.MakeTried(net, s1, id);
    assert Ops.StableCore(s1.info[id], t.info[id]);
    StableOthers(s, id, s1.info[id], s1, t);
    SameMove(net, s, s1, id, TriedSlot(net, s.key, s.info[id].service));
  }

  /** The other entries keep everything but their places, counts and tried flags. */
  ghost predicate OthersStable(s: State, id: int, t: State) {
    forall x :: x in t.info && x != id ==> x in s.info && Ops.StableCore(s.info[x], t.info[x])
  }

  lemma StableOthers(s: State, id: int, i: Info, s1: State, t: State)
    requires s1.info == s.info[id := i] && id in s.info
    requires forall x :: x in t.info ==> x in s1.info && Ops.StableCore(s1.info[x], t.info[x])
    ensures OthersStable(s, id, t)
  {
    forall x | x in t.info && x != id ensures x in s.info && Ops.StableCore(s.info[x], t.info[x]) {
      assert Ops.StableCore(s1.info[x], t.info[x]);
    }
  }

  ghost predicate GoodMoves(net: Net, s: State, id: int, test: bool, time: int, t: State)
    requires id in s.info
  {
    var k := TriedSlot(net, s.key, s.info[id].service);
    && id in t.info && t.idCount == s.idCount
    && Ops.StableCore(s.info[id].(lastSuccess := time, lastTry := time, attempts := 0), t.info[id])
    && OthersStable(s, id, t)
    && (if s.info[id].inTried then SameTables(s, t) && t.collisions == s.collisions
        else if test && k in s.triedTable then
          SameTables(s, t) && t.collisions == if |s.collisions| < 10 then s.collisions + {id} else s.collisions
        else
          t.triedTable == s.triedTable[k := id] && t.newTable == NewTableAfterMove(net, s, id, k) && t.collisions == s.collisions)
  }

  lemma SameMove(net: Net, s: State, s1: State, id: int, k: Slot)
    requires s1.newTable == s.newTable && s1.triedTable == s.triedTable && s1.key == s.key && s1.info.Keys == s.info.Keys
    requires forall x :: x in s.info ==> s1.info[x].service == s.info[x].service && s1.info[x].source == s.info[x].source
    ensures NewTableAfterMove(net, s1, id, k) == NewTableAfterMove(net, s, id, k)
  {
    hide Slots, NewSlot;
    if k in s.triedTable && s.triedTable[k] in s.info {
      var e := s.triedTable[k];
      assert e in s1.info;
    }
  }

  // ----- ResolveCollisions_ -----

  /** The address of a pending id is gone, or is no longer valid. */
  predicate Gone(net: Net, s: State, id: int) {
    id !in s.info || !net.valid(s.info[id].service.net)
  }

  /** The entry in the tried slot that a pending id waits for. */
  ghost predicate Occupies(net: Net, s: State, id: int, other: int) {
    && id in s.info && other in s.info
    && (var k := TriedSlot(net, s.key, s.info[id].service); k in s.triedTable && s.triedTable[k] == other)
  }

  /** The occupant was reached within the last four hours, and keeps its slot. */
  ghost predicate Defended(net: Net, s: State, id: int, clock: (int, nat) -> int) {
    exists other :: Occupies(net, s, id, other) && clock(id, 0) - s.info[other].lastSuccess < 14400
  }

  /** The test of the occupant is under way: it was last tried in the past minute, or it was not
      tried in the last four hours and the newcomer succeeded in the last forty minutes. */
  ghost predicate UnderTest(net: Net, s: State, id: int, clock: (int, nat) -> int) {
    exists other :: Occupies(net, s, id, other)
      && if clock(id, 1) - s.info[other].lastTry < 14400 then clock(id, 2) - s.info[other].lastTry <= 60
         else clock(id, 2) - s.info[id].lastSuccess <= 2400
  }

  /** The entry is in the tried table, reached at a time on the clock. */
  ghost predicate Holds(net: Net, s: State, id: int, clock: (int, nat) -> int) {
    Occupies(net, s, id, id) && exists x, m :: s.info[id].lastSuccess == clock(x, m)
  }

  /** A pending id waits on exactly while the occupant is neither defended nor done being tested.
      It leaves because it is gone, because the occupant is defended, or with the tried slot. */
  lemma ResolveOneOutcome(net: Net, s: State, id: int, clock: (int, nat) -> int)
    requires Consistent(net, s)
    ensures var (t, leaves) := ResolveOne(net, s, id, clock);
      && (leaves <==> Gone(net, s, id) || Defended(net, s, id, clock) || !UnderTest(net, s, id, clock))
      && t.collisions == s.collisions
      && (!leaves || Gone(net, s, id) || Defended(net, s, id, clock) ==> t == s)
      && (t == s || (Holds(net, t, id, clock) && exists time :: GoodMoves(net, s, id, false, time, t)))
      && (leaves ==> Gone(net, s, id) || Defended(net, s, id, clock) || Holds(net, t, id, clock))
  {
    hide Consistent, Good, GoodMoves, Holds;
    if !Gone(net, s, id) {
      FoundByAddress(net, s, id);
      var a := s.info[id].service;
      var k := TriedSlot(net, s.key, a);
      if k in s.triedTable {
        assert Occupies(net, s, id, s.triedTable[k]);
        TakesSlot(net, s, id, clock, 3);
      } else {
        TakesSlot(net, s, id, clock, 0);
      }
    }
  }

  lemma FoundByAddress(net: Net, s: State, id: int)
    requires Consistent(net, s) && id in s.info
    ensures Hit(s, s.info[id].service) && s.addrs[s.info[id].service.net] == id
    ensures var k := TriedSlot(net, s.key, s.info[id].service); k in s.triedTable ==> s.triedTable[k] in s.info
  {
    hide IdsAllocated, RandomIndex, NewSlotsOk, RefCounts, Counted, CollisionsPending;
  }

  /** Good_ without a test puts a known entry into its tried slot. */
  lemma TakesSlot(net: Net, s: State, id: int, clock: (int, nat) -> int, m: nat)
    requires Consistent(net, s) && id in s.info
    ensures var t := Good(net, s, s.info[id].service, false, clock(id, m));
      GoodMoves(net, s, id, false, clock(id, m), t) && Holds(net, t, id, clock) && t.collisions == s.collisions
  {
    hide Consistent, Good, TriedSlot, NewTableAfterMove;
    var a, time := s.info[id].service, clock(id, m);
    FoundByAddress(net, s, id);
    GoodOutcome(net, s, a, false, time);
    GoodKeeps(net, s, a, false, time);
    var t := Good(net, s, a, false, time);
    KnownId(net, s, id);
    assert t.info[id].service == a;
    if s.info[id].inTried {
      TriedPlace(net, s, id);
    }
  }

  lemma KnownId(net: Net, s: State, id: int)
    requires Consistent(net, s) && id in s.info
    ensures id < s.idCount
  {
    hide AddrIndex, RandomIndex, Tabled, Counted, CollisionsPending;
  }

  lemma TriedPlace(net: Net, s: State, id: int)
    requires Consistent(net, s) && id in s.info && s.info[id].inTried
    ensures Occupies(net, s, id, id)
  {
    hide Indexed, NewSlotsOk, RefCounts, Counted, CollisionsPending;
  }

  /** No two readings of the clock are four hours apart. */
  ghost predicate Steady(clock: (int, nat) -> int) {
    forall x, m, y, n :: clock(x, m) - clock(y, n) < 14400
  }

  /** The turn of one pending id. */
  lemma OneTurn(net: Net, s: State, id: int, clock: (int, nat) -> int)
    requires Consistent(net, s)
    ensures var t := Resolve(net, s, [id], clock);
      && Consistent(net, t)
      && (var waits := UnderTest(net, s, id, clock) && !Gone(net, s, id) && !Defended(net, s, id, clock);
          t.collisions == if waits then s.collisions else s.collisions - {id})
      && (Gone(net, s, id) || Defended(net, s, id, clock) || UnderTest(net, s, id, clock) || Holds(net, t, id, clock))
  {
    hide Consistent, ResolveOne, UnderTest, Defended, Gone, GoodMoves;
    ResolveKeeps(net, s, [id], clock);
    ResolveOneOutcome(net, s, id, clock);
    var (t, leaves) := ResolveOne(net, s, id, clock);
    var s1 := if leaves then t.(collisions := t.collisions - {id}) else t;
    assert [id][1..] == [];
    assert Resolve(net, s, [id], clock) == s1;
    if Holds(net, t, id, clock) {
      assert Holds(net, s1, id, clock);
    }
  }

  /** An entry that was reached during the pass is defended against every later pending id. */
  lemma TurnHeld(net: Net, s: State, id: int, clock: (int, nat) -> int, x: int)
    requires Consistent(net, s) && Steady(clock) && Holds(net, s, x, clock)
    ensures Holds(net, Resolve(net, s, [id], clock), x, clock)
  {
    hide Consistent, ResolveOne, UnderTest, NewTableAfterMove, TriedSlot;
    ResolveOneOutcome(net, s, id, clock);
    ResolveOneKeeps(net, s, id, clock);
    var (t, leaves) := ResolveOne(net, s, id, clock);
    var s1 := if leaves then t.(collisions := t.collisions - {id}) else t;
    assert [id][1..] == [];
    assert Resolve(net, s, [id], clock) == s1;
    if t != s {
      assert !Occupies(net, s, id, x);
      TabledKnown(net, t, TriedSlot(net, s.key, s.info[x].service));
    }
  }

  lemma TabledKnown(net: Net, s: State, k: Slot)
    requires Consistent(net, s) && k in s.triedTable
    ensures s.triedTable[k] in s.info
  {
    hide Indexed, NewSlotsOk, RefCounts, Counted, CollisionsPending;
  }

  lemma {:induction false} ResolveSplit(net: Net, s: State, p: seq<int>, q: seq<int>, clock: (int, nat) -> int)
    ensures Resolve(net, s, p + q, clock) == Resolve(net, Resolve(net, s, p, clock), q, clock)
    decreases |p|
  {
    hide ResolveOne;
    if p == [] {
      assert p + q == q;
    } else {
      assert (p + q)[1..] == p[1..] + q;
      var r := ResolveOne(net, s, p[0], clock);
      ResolveSplit(net, if r.1 then r.0.(collisions := r.0.collisions - {p[0]}) else r.0, p[1..], q, clock);
    }
  }

  /** The turns of others neither add an id to the pending ones nor take one away, and take no
      slot from an entry reached during the pass. */
  lemma {:induction false} OtherTurns(net: Net, s: State, pending: seq<int>, clock: (int, nat) -> int, x: int)
    requires Consistent(net, s) && x !in pending
    ensures var t := Resolve(net, s, pending, clock);
      && Consistent(net, t) && (x in t.collisions <==> x in s.collisions)
      && (Steady(clock) && Holds(net, s, x, clock) ==> Holds(net, t, x, clock))
    decreases |pending|
  {
    hide Consistent, Resolve, Gone, Defended, UnderTest, Holds, Steady;
    if pending == [] {
      NoTurns(net, s, clock);
    } else {
      var t := Resolve(net, s, pending[..1], clock);
      assert pending[..1] == [pending[0]] && pending == pending[..1] + pending[1..];
      ResolveSplit(net, s, pending[..1], pending[1..], clock);
      OneTurn(net, s, pending[0], clock);
      if Steady(clock) && Holds(net, s, x, clock) {
        TurnHeld(net, s, pending[0], clock, x);
      }
      OtherTurns(net, t, pending[1..], clock, x);
    }
  }

  lemma NoTurns(net: Net, s: State, clock: (int, nat) -> int)
    ensures Resolve(net, s, [], clock) == s
  {
  }

  /** A pass over the pending ids, at the turn of the i-th of them. It is still pending afterwards
      exactly when the test of its slot's occupant was under way at its turn. Otherwise it was
      gone, or the occupant was defended, or it holds its tried slot at the end of the pass. */
  lemma PassOutcome(net: Net, s: State, clock: (int, nat) -> int, i: nat)
    requires Consistent(net, s) && Steady(clock) && i < |s.collisions|
    ensures var ids, t := Ascending(s.collisions), Resolve(net, s, Ascending(s.collisions), clock);
      var id, u := ids[i], Resolve(net, s, ids[..i], clock);
      && (id in t.collisions <==> UnderTest(net, u, id, clock) && !Gone(net, u, id) && !Defended(net, u, id, clock))
      && (id in t.collisions || Gone(net, u, id) || Defended(net, u, id, clock) || Holds(net, t, id, clock))
  {
    hide Consistent, Resolve, Gone, Defended, UnderTest, Holds, Steady, Ascending;
    var ids := Ascending(s.collisions);
    var id, u := ids[i], Resolve(net, s, ids[..i], clock);
    var v := Resolve(net, u, [id], clock);
    assert id in ids && id !in ids[..i] && id !in ids[i + 1..];
    assert ids == ids[..i] + ([id] + ids[i + 1..]);
    ResolveSplit(net, s, ids[..i], [id] + ids[i + 1..], clock);
    ResolveSplit(net, u, [id], ids[i + 1..], clock);
    OtherTurns(net, s, ids[..i], clock, id);
    OneTurn(net, u, id, clock);
    OtherTurns(net, v, ids[i + 1..], clock, id);
  }

  // ----- Add_ -----

  /** An unknown entry may take a slot that is free, or whose occupant is terrible or has
      other references. */
  predicate MayTake(s: State, u: Slot, now: int) {
    u in s.newTable ==> var x := s.newTable[u]; x in s.info && (IsTerrible(s.info[x], now) || s.info[x].refCount > 1)
  }

  lemma PlaceTables(net: Net, s: State, id: int, source: NetAddr, now: int)
    requires Shape(net, s, {id}) && id in s.info && !s.info[id].inTried
    ensures var t, u := Place(net, s, id, source, now), NewSlot(net, s.key, s.info[id].service, source);
      && t.triedTable == s.triedTable
      && t.newTable == (if u in s.newTable && s.newTable[u] == id then s.newTable
           else if Overwrites(s, u, id, now) then s.newTable[u := id] else s.newTable)
  {
    hide AddrIndex, RandomIndex, IdsAllocated, NewSlotsOk, Ops.ClearNew, Ops.Delete, IsTerrible;
    var u := NewSlot(net, s.key, s.info[id].service, source);
    if u in s.newTable && s.newTable[u] == id {
    } else if Overwrites(s, u, id, now) {
      Ops.ClearNewKeeps(net, s, u, {id});
      var t := Ops.ClearNew(s, u);
      assert Ops.Moved(s.info[id], t.info[id]);
      assert (s.newTable - {u})[u := id] == s.newTable[u := id];
    } else if s.info[id].refCount == 0 {
      DeleteTables(net, s, id);
    }
  }

  lemma DeleteTables(net: Net, s: State, id: int)
    requires Shape(net, s, {id}) && id in s.info
    ensures Ops.Delete(s, id).newTable == s.newTable && Ops.Delete(s, id).triedTable == s.triedTable
  {
    hide Tabled, AddrIndex, IdsAllocated;
    Ops.DeleteEntries(s, id);
  }

  /** An unknown routable address becomes a new entry in the slot that its source selects, if it
      may take it, and is forgotten again otherwise. A known one gains that slot exactly when it
      may have one more reference and the occupant gives way. */
  lemma AddOutcome(net: Net, s: State, a: Address, source: NetAddr, penalty: int, now: int, now2: int, draw: nat)
    requires Consistent(net, s)
    ensures var (t, isNew) := Add(net, s, a, source, penalty, now, now2, draw);
      && (isNew <==> net.routable(a.service.net) && a.service.net !in s.addrs)
      && t.triedTable == s.triedTable && t.collisions == s.collisions
      && (!net.routable(a.service.net) ==> t == s)
      && (isNew ==> var u := NewSlot(net, s.key, a.service, source);
            t.newTable == if MayTake(s, u, now2) then s.newTable[u := s.idCount] else s.newTable)
      && (net.routable(a.service.net) && !isNew ==> var id := s.addrs[a.service.net];
            id in s.info && (var p := if a.service.net == source then 0 else penalty;
            var gains := Reannounced(s.info[id], NewTime(s.info[id], a, p, now), a, draw);
            t.newTable == Regained(net, s, id, source, gains, now2)))
  {
    hide IdsAllocated, RandomIndex, TriedIndex, NewSlotsOk, CollisionsPending, Place, IsTerrible, Introduce,
      MayReference, Overwrites, NewSlot, Regained, RefCounts, Counted;
    var p := if a.service.net == source then 0 else penalty;
    if net.routable(a.service.net) {
      if Known(s, a.service.net) {
        var id := s.addrs[a.service.net];
        var i := Refreshed(s.info[id], a, p, now);
        MayReferenceNew(net, s, id, a, p, now, draw);
        if MayReference(i, a, draw) {
          PlaceRegained(net, s, id, i, source, now2);
        } else {
          NotRegained(net, s, id, source, now2);
        }
      } else {
        var s1 := Introduce(s, a, source, p);
        IntroduceKeeps(net, s, a, source, p);
        IntroduceTables(net, s, a, source, p);
        PlaceTables(net, s1, s.idCount, source, now2);
        PlaceCollisions(net, s1, s.idCount, source, now2);
        NewPlacement(net, s, a, source, p, now2);
      }
    }
  }

  /** A known entry may take a slot that is free or whose occupant is terrible. */
  predicate GivesWay(s: State, u: Slot, now: int) {
    u in s.newTable ==> var x := s.newTable[u]; x in s.info && IsTerrible(s.info[x], now)
  }

  /** The new table after a known entry was announced again. */
  function Regained(net: Net, s: State, id: int, source: NetAddr, gains: bool, now: int): Table
    requires id in s.info
  {
    var u := NewSlot(net, s.key, s.info[id].service, source);
    if gains && GivesWay(s, u, now) then s.newTable[u := id] else s.newTable
  }

  lemma NotRegained(net: Net, s: State, id: int, source: NetAddr, now: int)
    requires id in s.info
    ensures Regained(net, s, id, source, false, now) == s.newTable
  {
  }

  /** Refreshing the statistics of an entry does not change which other entries give way to it. */
  lemma SameOverwrites(s: State, u: Slot, id: int, i: Info, now: int)
    requires id in s.info && i.refCount == s.info[id].refCount > 0 && (u in s.newTable ==> s.newTable[u] != id)
    ensures Overwrites(Ops.WithInfo(s, id, i), u, id, now) <==> GivesWay(s, u, now)
  {
    hide IsTerrible;
  }

  /** The time of an entry that was announced with a time less `penalty` seconds. */
  function Penalized(time: nat, penalty: int): nat {
    (if time <= penalty then 0 else time - penalty) % 0x1_0000_0000
  }

  /** The time of a known entry after an announcement. It moves if it is unknown, or if the
      announced one is later by more than an hour, or a day for addresses that are not online. */
  function NewTime(i: Info, a: Address, penalty: int, now: int): nat {
    var interval := if now - a.nTime < 86400 then 3600 else 86400;
    if a.nTime != 0 && (i.nTime == 0 || a.nTime - i.nTime > interval + penalty) then Penalized(a.nTime, penalty) else i.nTime
  }

  /** A known entry that is not tried may get one more reference if its time is now older than the
      announced one, it has fewer than eight, and a draw that halves with each of them says so. */
  predicate Reannounced(i: Info, time: nat, a: Address, draw: nat) {
    && !i.inTried && 0 <= i.refCount < 8 && draw % Pow(2, i.refCount) == 0
    && a.nTime != 0 && (time == 0 || time < a.nTime)
  }

  lemma RefreshedIs(i: Info, a: Address, penalty: int, now: int)
    ensures Refreshed(i, a, penalty, now) == i.(nTime := NewTime(i, a, penalty, now), services := i.services | a.services)
  {
  }

  lemma MayReferenceNew(net: Net, s: State, id: int, a: Address, penalty: int, now: int, draw: nat)
    requires Consistent(net, s) && id in s.info
    ensures MayReference(Refreshed(s.info[id], a, penalty, now), a, draw) <==>
      Reannounced(s.info[id], NewTime(s.info[id], a, penalty, now), a, draw)
    ensures MayReference(Refreshed(s.info[id], a, penalty, now), a, draw) ==> !s.info[id].inTried
  {
    hide Indexed, TriedIndex, NewSlotsOk, Counted, CollisionsPending, NewTime, Refreshed, Pow;
    var i := s.info[id];
    RefreshedIs(i, a, penalty, now);
    assert 0 <= i.refCount <= NEW_BUCKETS_PER_ADDRESS;
    PowPositive(2, i.refCount);
  }

  /** An unknown address gets the next id and an entry with the announced services, the time less
      the penalty and no statistics. */
  ghost predicate Entered(s: State, a: Address, source: NetAddr, p: int, t: State) {
    && t.idCount == s.idCount + 1 && OthersRecounted(s, s.idCount, t)
    && (s.idCount in t.info ==>
          Ops.Recounted(Info(a.service, a.services, Penalized(a.nTime, p), source, 0, 0, 0, 0, 0, false, 0), t.info[s.idCount]))
  }

  /** A known one keeps everything but its time and services. */
  ghost predicate Renewed(s: State, id: int, a: Address, p: int, now: int, t: State) {
    && t.idCount == s.idCount && id in s.info && id in t.info && OthersRecounted(s, id, t)
    && Ops.Recounted(s.info[id].(nTime := NewTime(s.info[id], a, p, now), services := s.info[id].services | a.services), t.info[id])
  }

  /** The entries after Add_. Other entries change their place and number of references only. */
  lemma AddEntryOutcome(net: Net, s: State, a: Address, source: NetAddr, penalty: int, now: int, now2: int, draw: nat)
    requires Consistent(net, s) && net.routable(a.service.net)
    ensures var t, p := Add(net, s, a, source, penalty, now, now2, draw).0, if a.service.net == source then 0 else penalty;
      && t.lastGood == s.lastGood && t.key == s.key
      && if a.service.net in s.addrs then Renewed(s, s.addrs[a.service.net], a, p, now, t) else Entered(s, a, source, p, t)
  {
    hide Consistent, Place, Introduce, MayReference, Renewed, Entered, Refreshed;
    var p := if a.service.net == source then 0 else penalty;
    if Known(s, a.service.net) {
      RenewedEntry(net, s, s.addrs[a.service.net], a, source, p, now, now2, draw);
    } else {
      NotIndexed(net, s, a.service.net);
      EnteredEntry(net, s, a, source, p, now2);
    }
  }

  lemma NotIndexed(net: Net, s: State, a: NetAddr)
    requires Consistent(net, s) && !Known(s, a)
    ensures a !in s.addrs
  {
    hide Tabled, IdsAllocated, RandomIndex, CollisionsPending, Counted;
  }

  lemma RenewedEntry(net: Net, s: State, id: int, a: Address, source: NetAddr, p: int, now: int, now2: int, draw: nat)
    requires Consistent(net, s) && id in s.info
    ensures var i := Refreshed(s.info[id], a, p, now); var s1 := Ops.WithInfo(s, id, i);
      var t := if MayReference(i, a, draw) then Place(net, s1, id, source, now2) else s1;
      t.lastGood == s.lastGood && t.key == s.key && Renewed(s, id, a, p, now, t)
  {
    hide Consistent, Place, Refreshed, Reannounced, MayReference, Renewed;
    var i := Refreshed(s.info[id], a, p, now);
    MayReferenceNew(net, s, id, a, p, now, draw);
    if MayReference(i, a, draw) {
      RenewedPlaced(net, s, id, a, source, p, now, now2);
    } else {
      RenewedPlain(s, id, a, p, now);
    }
  }

  lemma RenewedPlaced(net: Net, s: State, id: int, a: Address, source: NetAddr, p: int, now: int, now2: int)
    requires Consistent(net, s) && id in s.info && !s.info[id].inTried
    ensures var t := Place(net, Ops.WithInfo(s, id, Refreshed(s.info[id], a, p, now)), id, source, now2);
      t.lastGood == s.lastGood && t.key == s.key && Renewed(s, id, a, p, now, t)
  {
    hide Consistent, Place, NewTime, Refreshed, OthersRecounted, Ops.Recounted;
    RefreshedIs(s.info[id], a, p, now);
    KnownPlaced(net, s, id, Refreshed(s.info[id], a, p, now), source, now2);
  }

  lemma RenewedPlain(s: State, id: int, a: Address, p: int, now: int)
    requires id in s.info
    ensures Renewed(s, id, a, p, now, Ops.WithInfo(s, id, Refreshed(s.info[id], a, p, now)))
  {
    hide NewTime, Refreshed, OthersRecounted, Ops.Recounted;
    RefreshedIs(s.info[id], a, p, now);
    UpdatedOnly(s, id, Refreshed(s.info[id], a, p, now));
  }

  lemma UpdatedOnly(s: State, id: int, i: Info)
    ensures var t := Ops.WithInfo(s, id, i); OthersRecounted(s, id, t) && Ops.Recounted(i, t.info[id])
  {
  }

  lemma EnteredEntry(net: Net, s: State, a: Address, source: NetAddr, p: int, now: int)
    requires Consistent(net, s) && a.service.net !in s.addrs
    ensures var t := Place(net, Introduce(s, a, source, p), s.idCount, source, now);
      t.lastGood == s.lastGood && t.key == s.key && Entered(s, a, source, p, t)
  {
    hide Consistent, Place, Introduce, Shape, Counted, Penalized;
    var s1 := Introduce(s, a, source, p);
    IntroduceKeeps(net, s, a, source, p);
    IntroduceTables(net, s, a, source, p);
    IntroducedEntry(s, a, source, p);
    NewPlaced(net, s1, s.idCount, source, now);
    var t := Place(net, s1, s.idCount, source, now);
    forall x | x in t.info && x != s.idCount ensures x in s.info && Ops.Recounted(s.info[x], t.info[x]) {
      assert Ops.Recounted(s1.info[x], t.info[x]);
    }
  }

  ghost predicate OthersRecounted(s: State, id: int, t: State) {
    forall x :: x in t.info && x != id ==> x in s.info && Ops.Recounted(s.info[x], t.info[x])
  }

  lemma Referenced(net: Net, s: State, id: int)
    requires Consistent(net, s) && id in s.info && !s.info[id].inTried
    ensures s.info[id].refCount > 0
  {
    hide Indexed, TriedIndex, NewSlotsOk, Counted, CollisionsPending;
  }

  lemma IntroducedEntry(s: State, a: Address, source: NetAddr, p: int)
    ensures var t := Introduce(s, a, source, p);
      && t.idCount == s.idCount + 1 && t.lastGood == s.lastGood && t.info.Keys == s.info.Keys + {s.idCount}
      && Ops.Recounted(Info(a.service, a.services, Penalized(a.nTime, p), source, 0, 0, 0, 0, 0, false, 0), t.info[s.idCount])
  {
  }

  /** Placing an entry changes no other field than places and counts. */
  lemma NewPlaced(net: Net, s: State, id: int, source: NetAddr, now: int)
    requires Shape(net, s, {id}) && id in s.info && !s.info[id].inTried
    ensures var t := Place(net, s, id, source, now);
      && t.idCount == s.idCount && t.key == s.key && t.lastGood == s.lastGood
      && forall x :: x in t.info ==> x in s.info && Ops.Recounted(s.info[x], t.info[x])
  {
    hide Shape, Place;
    PlaceEntries(net, s, id, source, now);
    PlaceCollisions(net, s, id, source, now);
  }

  lemma KnownPlaced(net: Net, s: State, id: int, i: Info, source: NetAddr, now: int)
    requires Consistent(net, s) && id in s.info && !i.inTried
    requires i.service == s.info[id].service && i.refCount == s.info[id].refCount
    requires i.inTried == s.info[id].inTried && i.randomPos == s.info[id].randomPos
    ensures var t := Place(net, Ops.WithInfo(s, id, i), id, source, now);
      && t.idCount == s.idCount && t.key == s.key && t.lastGood == s.lastGood
      && id in t.info && Ops.Recounted(i, t.info[id]) && OthersRecounted(s, id, t)
  {
    hide Indexed, Tabled, CollisionsPending, Counted, Place;
    var s1 := Ops.WithInfo(s, id, i);
    StatsConsistent(net, s, id, i);
    Ops.Tighten(net, s1, {}, {id});
    NewPlaced(net, s1, id, source, now);
    Referenced(net, s, id);
    PlaceCollisions(net, s1, id, source, now);
  }

  lemma PlaceRegained(net: Net, s: State, id: int, i: Info, source: NetAddr, now: int)
    requires Consistent(net, s) && id in s.info && !i.inTried
    requires i.service == s.info[id].service && i.refCount == s.info[id].refCount
    requires i.inTried == s.info[id].inTried && i.randomPos == s.info[id].randomPos
    ensures var t := Place(net, Ops.WithInfo(s, id, i), id, source, now);
      && t.triedTable == s.triedTable && t.collisions == s.collisions
      && t.newTable == Regained(net, s, id, source, true, now)
  {
    hide Indexed, Tabled, CollisionsPending, Counted, Place, Overwrites, NewSlot, GivesWay;
    var s1 := Ops.WithInfo(s, id, i);
    StatsConsistent(net, s, id, i);
    Ops.Tighten(net, s1, {}, {id});
    PlaceTables(net, s1, id, source, now);
    PlaceCollisions(net, s1, id, source, now);
    var u := NewSlot(net, s.key, s.info[id].service, source);
    if u in s.newTable && s.newTable[u] == id {
      assert s.newTable[u := id] == s.newTable;
    } else {
      Referenced(net, s, id);
      SameOverwrites(s, u, id, i, now);
    }
  }

  lemma IntroduceTables(net: Net, s: State, a: Address, source: NetAddr, penalty: int)
    ensures var t := Introduce(s, a, source, penalty);
      && t.newTable == s.newTable && t.triedTable == s.triedTable && t.key == s.key && t.collisions == s.collisions
      && s.idCount in t.info && t.info[s.idCount].service == a.service && t.info[s.idCount].refCount == 0
      && forall x :: x in s.info && x != s.idCount ==> x in t.info && t.info[x] == s.info[x]
  {
  }

  lemma NewPlacement(net: Net, s: State, a: Address, source: NetAddr, penalty: int, now: int)
    requires Consistent(net, s)
    ensures var t, u := Introduce(s, a, source, penalty), NewSlot(net, s.key, a.service, source);
      (u in t.newTable ==> t.newTable[u] != s.idCount) && (s.idCount in t.info && Overwrites(t, u, s.idCount, now) <==> MayTake(s, u, now))
  {
    hide Introduce, IsTerrible, CollisionsPending, TriedIndex, RandomIndex, AddrIndex, RefCounts;
    IntroduceTables(net, s, a, source, penalty);
    var u := NewSlot(net, s.key, a.service, source);
    if u in s.newTable {
      var x := s.newTable[u];
      assert x in s.info && x < s.idCount;
    }
  }

  lemma PlaceCollisions(net: Net, s: State, id: int, source: NetAddr, now: int)
    requires Shape(net, s, {id}) && id in s.info && !s.info[id].inTried
    ensures var t := Place(net, s, id, source, now);
      t.collisions == s.collisions && t.key == s.key && t.lastGood == s.lastGood
    ensures s.info[id].refCount > 0 ==> id in Place(net, s, id, source, now).info
  {
    hide AddrIndex, RandomIndex, IdsAllocated, NewSlotsOk, RefCounts, TriedIndex, Ops.ClearNew, Ops.Delete, IsTerrible;
    var u := NewSlot(net, s.key, s.info[id].service, source);
    if u in s.newTable && s.newTable[u] == id {
    } else if Overwrites(s, u, id, now) {
      Ops.ClearNewKeeps(net, s, u, {id});
    } else if s.info[id].refCount == 0 {
      Ops.DeleteEntries(s, id);
    }
  }

  // ----- Statistics -----

  /** An operation finds an entry exactly if one has this address and port. */
  lemma HitIs(net: Net, s: State, a: Service)
    requires Consistent(net, s)
    ensures Hit(s, a) <==> exists id :: id in s.info && s.info[id].service == a
    ensures forall id :: id in s.info && s.info[id].service == a ==> a.net in s.addrs && s.addrs[a.net] == id
  {
    hide Tabled, IdsAllocated, RandomIndex, CollisionsPending, Counted;
  }

  /** Only the statistics of this entry change. */
  ghost predicate OnlyEntry(s: State, id: int, i: Info, t: State) {
    t == s.(info := s.info[id := i])
  }

  /** An attempt sets the last try. It counts as a failure if asked to, and if none was counted
      since the last success of any entry. */
  lemma AttemptOutcome(net: Net, s: State, a: Service, countFailure: bool, time: int)
    requires Consistent(net, s)
    ensures var t := Attempt(s, a, countFailure, time);
      && ((forall id :: id in s.info ==> s.info[id].service != a) ==> t == s)
      && forall id :: id in s.info && s.info[id].service == a ==>
           var i, counts := s.info[id], countFailure && s.info[id].lastCountAttempt < s.lastGood;
           OnlyEntry(s, id, i.(lastTry := time, lastCountAttempt := if counts then time else i.lastCountAttempt,
             attempts := if counts then i.attempts + 1 else i.attempts), t)
  {
    hide Consistent;
    HitIs(net, s, a);
  }

  /** So without a success in between, failures of an entry are counted once. */
  lemma CountedOnce(net: Net, s: State, a: Service, time: int, later: int)
    requires Consistent(net, s) && Hit(s, a) && time >= s.lastGood
    ensures var t := Attempt(s, a, true, time); var u := Attempt(t, a, true, later);
      && Hit(t, a) && Hit(u, a)
      && u.info[s.addrs[a.net]].attempts == t.info[s.addrs[a.net]].attempts
      && (s.info[s.addrs[a.net]].lastCountAttempt < s.lastGood ==>
            t.info[s.addrs[a.net]].attempts == s.info[s.addrs[a.net]].attempts + 1)
  {
    hide Consistent;
  }

  /** The first failure of the first entry of a new manager is counted. */
  lemma FirstFailureCounts(key: nat, id: int, i: Info, time: int)
    requires i.lastCountAttempt == 0
    ensures var s := Empty(key).(info := map[id := i], addrs := map[i.service.net := id]);
      Attempt(s, i.service, true, time).info[id].attempts == i.attempts + 1
  {
  }

  /** A connected address keeps its time up to date to within twenty minutes. */
  lemma ConnectedOutcome(net: Net, s: State, a: Service, time: int)
    requires Consistent(net, s)
    ensures var t := Connected(s, a, time);
      && ((forall id :: id in s.info ==> s.info[id].service != a) ==> t == s)
      && forall id :: id in s.info && s.info[id].service == a ==>
           if time - s.info[id].nTime > 1200 then OnlyEntry(s, id, s.info[id].(nTime := time % 0x1_0000_0000), t) else t == s
  {
    hide Consistent;
    HitIs(net, s, a);
  }

  lemma SetServicesOutcome(net: Net, s: State, a: Service, services: bv64)
    requires Consistent(net, s)
    ensures var t := SetServices(s, a, services);
      && ((forall id :: id in s.info ==> s.info[id].service != a) ==> t == s)
      && forall id :: id in s.info && s.info[id].service == a ==> OnlyEntry(s, id, s.info[id].(services := services), t)
  {
    hide Consistent;
    HitIs(net, s, a);
  }

  // ----- GetAddr_ -----

  /** The limit is the largest number of at most 2500 that is at most 23 percent of the entries. */
  lemma LimitIs(s: State)
    ensures var k, n := GetAddrLimit(s), |s.random|;
      k <= 2500 && 100 * k <= 23 * n && (k == 2500 || 100 * (k + 1) > 23 * n)
  {
  }

  lemma {:induction false} PicksStay(s: State, picked: seq<int>, n: nat, limit: nat, draws: nat -> nat, clock: nat -> int)
    requires n <= |s.random|
    ensures picked <= GetAddrFrom(s, picked, n, limit, draws, clock).1
    decreases |s.random| - n
  {
    hide IsTerrible, Ops.SwapRandom, GetAddrFrom;
    GetAddrUnfold(s, picked, n, limit, draws, clock);
    if n < |s.random| && |picked| < limit {
      var t := Ops.SwapRandom(s, n, draws(n) % (|s.random| - n) + n);
      Ops.SwapFields(s, n, draws(n) % (|s.random| - n) + n);
      PicksStay(t, WithPick(t, picked, n, clock(n)), n + 1, limit, draws, clock);
    }
  }

  /** With these draws the first address returned is the one at place `pos`. */
  lemma FirstReturned(net: Net, s: State, pos: nat, draws: nat -> nat, clock: nat -> int)
    requires Consistent(net, s) && pos < |s.random| && draws(0) == pos && GetAddrLimit(s) > 0
    requires var id := s.random[pos]; id in s.info && !IsTerrible(s.info[id], clock(0))
    ensures var r := GetAddrFrom(s, [], 0, GetAddrLimit(s), draws, clock).1; r != [] && r[0] == s.random[pos]
  {
    hide Consistent, IsTerrible, Ops.SwapRandom, GetAddrFrom, WithPick, GetAddrLimit, Ops.KeepsEntries;
    var limit, id := GetAddrLimit(s), s.random[pos];
    GetAddrUnfold(s, [], 0, limit, draws, clock);
    SmallMod(pos, |s.random|);
    assert draws(0) % (|s.random| - 0) + 0 == pos;
    var t := Ops.SwapRandom(s, 0, pos);
    Ops.SwapFields(s, 0, pos);
    SwappedFirst(net, s, pos, clock(0));
    PickIs(t, [], 0, clock(0));
    assert [] + [id] == [id];
    PicksStay(t, [id], 1, limit, draws, clock);
  }

  lemma SwappedFirst(net: Net, s: State, pos: nat, now: int)
    requires Consistent(net, s) && pos < |s.random|
    ensures var t, id := Ops.SwapRandom(s, 0, pos), s.random[pos];
      t.random != [] && t.random[0] == id && id in s.info && id in t.info && IsTerrible(t.info[id], now) == IsTerrible(s.info[id], now)
  {
    hide Tabled, IdsAllocated, AddrIndex, CollisionsPending, Counted, Ops.SwapRandom;
    Ops.SwapIndexed(s, 0, pos);
    var id := s.random[pos];
    assert id in s.info && id in Ops.SwapRandom(s, 0, pos).info.Keys && Ops.Moved(s.info[id], Ops.SwapRandom(s, 0, pos).info[id]);
  }

  /** Every entry that is not terrible can be returned. */
  lemma EveryOneReturned(net: Net, s: State, id: int, clock: nat -> int)
    requires Consistent(net, s) && id in s.info && !IsTerrible(s.info[id], clock(0)) && GetAddrLimit(s) > 0
    ensures exists draws: nat -> nat :: id in GetAddrFrom(s, [], 0, GetAddrLimit(s), draws, clock).1
  {
    hide Consistent, IsTerrible, GetAddrFrom, GetAddrLimit;
    RandomInjective(net, s);
    var pos: nat := s.info[id].randomPos;
    var draws := (n: nat) => pos;
    FirstReturned(net, s, pos, draws, clock);
  }
}
