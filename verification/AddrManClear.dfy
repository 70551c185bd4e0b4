/** Clearing the address manager (src/addrman.h:456-478) leaves the pending collisions, so the
    ids that are given out again meet collisions of ids that are gone. */
module AddrManClear {
  import opened AddrManState
  import Ops = AddrManOps
  import opened AddrManRun
  import opened AddrManTheorems
  import opened AddrManOutcomes
  import opened Powers
  import opened SortedSets

  /** Clear, with the new key that it draws. */
  function Cleared(s: State, key: nat): State {
    Empty(key).(collisions := s.collisions)
  }

  /** After Clear the state is consistent exactly when no collision was pending. */
  lemma ClearConsistent(net: Net, s: State, key: nat)
    ensures Consistent(net, Cleared(s, key)) <==> s.collisions == {}
  {
    EmptyConsistent(net, key);
    if s.collisions != {} {
      Inhabited(s.collisions);
    }
  }

  // ----- Add_ does not look at the collisions -----

  function WithCollisions(s: State, c: set<int>): State {
    s.(collisions := c)
  }

  lemma SwapIgnores(s: State, c: set<int>, i: int, j: int)
    ensures Ops.SwapRandom(WithCollisions(s, c), i, j) == WithCollisions(Ops.SwapRandom(s, i, j), c)
  {
  }

  lemma DropLastIgnores(s: State, c: set<int>, id: int)
    ensures Ops.DropLast(WithCollisions(s, c), id) == WithCollisions(Ops.DropLast(s, id), c)
  {
  }

  lemma DeleteIgnores(s: State, c: set<int>, id: int)
    ensures Ops.Delete(WithCollisions(s, c), id) == WithCollisions(Ops.Delete(s, id), c)
  {
    hide Ops.SwapRandom, Ops.DropLast;
    if id in s.info {
      var i, j := s.info[id].randomPos, |s.random| - 1;
      SwapIgnores(s, c, i, j);
      DropLastIgnores(Ops.SwapRandom(s, i, j), c, id);
    }
  }

  lemma ClearNewIgnores(s: State, c: set<int>, u: Slot)
    ensures Ops.ClearNew(WithCollisions(s, c), u) == WithCollisions(Ops.ClearNew(s, u), c)
  {
    hide Ops.Delete;
    if u in s.newTable && s.newTable[u] in s.info {
      DeleteIgnores(Ops.Unref(s, u), c, s.newTable[u]);
    }
  }

  lemma PlaceIgnores(net: Net, s: State, c: set<int>, id: int, source: NetAddr, now: int)
    requires id in s.info
    ensures Place(net, WithCollisions(s, c), id, source, now) == WithCollisions(Place(net, s, id, source, now), c)
  {
    hide Ops.ClearNew, Ops.Delete, IsTerrible, NewSlot;
    var u := NewSlot(net, s.key, s.info[id].service, source);
    ClearNewIgnores(s, c, u);
    DeleteIgnores(s, c, id);
  }

  lemma AddIgnores(net: Net, s: State, c: set<int>, a: Address, source: NetAddr, penalty: int, now: int, now2: int, draw: nat)
    ensures Add(net, WithCollisions(s, c), a, source, penalty, now, now2, draw).0
      == WithCollisions(Add(net, s, a, source, penalty, now, now2, draw).0, c)
  {
    hide Place, MayReference, Refreshed;
    var p := if a.service.net == source then 0 else penalty;
    if net.routable(a.service.net) {
      if Known(s, a.service.net) {
        var id := s.addrs[a.service.net];
        PlaceIgnores(net, Ops.WithInfo(s, id, Refreshed(s.info[id], a, p, now)), c, id, source, now2);
      } else {
        PlaceIgnores(net, Introduce(s, a, source, p), c, s.idCount, source, now2);
      }
    }
  }

  lemma {:induction false} AddsIgnore(net: Net, s: State, c: set<int>, ops: seq<Op>)
    requires forall i :: 0 <= i < |ops| ==> ops[i].OpAdd?
    ensures Run(net, WithCollisions(s, c), ops) == WithCollisions(Run(net, s, ops), c)
    decreases |ops|
  {
    hide Add;
    if ops != [] {
      var op := ops[0];
      AddIgnores(net, s, c, op.addr, op.source, op.penalty, op.now, op.now2, op.draw);
      AddsIgnore(net, Step(net, s, op), c, ops[1..]);
    }
  }

  // ----- Announcing one address after the other -----

  /** Routable addresses that differ from each other. */
  ghost predicate Pool(net: Net, pool: seq<Service>) {
    && (forall i :: 0 <= i < |pool| ==> net.routable(pool[i].net))
    && (forall i, j :: 0 <= i < j < |pool| ==> pool[i].net != pool[j].net)
  }

  /** An announcement by the peer itself without a time. */
  function Announce(a: Service): Op {
    OpAdd(Address(a, 0, 0), a.net, 0, 0, 0, 0)
  }

  function Announcements(pool: seq<Service>, n: nat): (ops: seq<Op>)
    requires n <= |pool|
    ensures |ops| == n && forall i :: 0 <= i < n ==> ops[i] == Announce(pool[i])
  {
    seq(n, i requires 0 <= i < n => Announce(pool[i]))
  }

  lemma {:induction false} RunMore(net: Net, s: State, ops: seq<Op>, op: Op)
    ensures Run(net, s, ops + [op]) == Step(net, Run(net, s, ops), op)
    decreases |ops|
  {
    hide Step;
    if ops == [] {
      assert ops + [op] == [op] && [op][1..] == [];
    } else {
      assert (ops + [op])[0] == ops[0] && (ops + [op])[1..] == ops[1..] + [op];
      RunMore(net, Step(net, s, ops[0]), ops[1..], op);
    }
  }

  /** An unknown routable address gets the next id, and the entries that stay are the old ones. */
  lemma AddEntries(net: Net, s: State, a: Address, source: NetAddr, now: int, now2: int, draw: nat)
    requires Consistent(net, s) && net.routable(a.service.net) && a.service.net !in s.addrs
    ensures var t := Add(net, s, a, source, 0, now, now2, draw).0;
      && t.idCount == s.idCount + 1
      && (forall x :: x in t.info ==> if x == s.idCount
            then t.info[x].service == a.service && t.info[x].nTime == AsUint32(a.nTime) && t.info[x].lastTry == 0
            else x in s.info && Ops.Recounted(s.info[x], t.info[x]))
  {
    hide Place, Shape;
    var s1 := Introduce(s, a, source, 0);
    IntroduceKeeps(net, s, a, source, 0);
    PlaceEntries(net, s1, s.idCount, source, now2);
    var t := Place(net, s1, s.idCount, source, now2);
    forall x | x in t.info ensures if x == s.idCount
            then t.info[x].service == a.service && t.info[x].nTime == AsUint32(a.nTime) && t.info[x].lastTry == 0
            else x in s.info && Ops.Recounted(s.info[x], t.info[x])
    {
      assert Ops.Recounted(s1.info[x], t.info[x]);
    }
  }

  /** After `n` announcements the ids follow the pool, the last one is there, no entry has a time
      and nothing is tried. */
  ghost predicate Announced(net: Net, key: nat, pool: seq<Service>, n: nat, t: State)
    requires n <= |pool|
  {
    && Consistent(net, t) && t.key == key && t.idCount == n && t.triedTable == map[] && t.collisions == {}
    && (forall x :: x in t.info ==> 0 <= x < n && t.info[x].service == pool[x] && t.info[x].nTime == 0 && t.info[x].lastTry == 0)
    && (n > 0 ==> n - 1 in t.info)
  }

  lemma NotKnownYet(net: Net, key: nat, pool: seq<Service>, n: nat, t: State)
    requires Pool(net, pool) && n < |pool| && Announced(net, key, pool, n, t)
    ensures pool[n].net !in t.addrs
  {
    hide RandomIndex, Tabled, CollisionsPending, Counted;
    forall x | x in t.addrs ensures x != pool[n].net {
      var id := t.addrs[x];
      assert id in t.info && pool[id].net == x;
    }
  }

  /** The occupant of a slot has no time, so it gives way. */
  lemma TakesAny(net: Net, key: nat, pool: seq<Service>, n: nat, t: State, u: Slot, now: int)
    requires n <= |pool| && Announced(net, key, pool, n, t)
    ensures MayTake(t, u, now)
  {
    hide Indexed, CollisionsPending, Counted, TriedIndex, RefCounts;
    if u in t.newTable {
      var x := t.newTable[u];
      assert x in t.info;
    }
  }

  lemma AnnounceNext(net: Net, key: nat, pool: seq<Service>, n: nat, t: State)
    requires Pool(net, pool) && n < |pool| && Announced(net, key, pool, n, t)
    ensures Announced(net, key, pool, n + 1, Step(net, t, Announce(pool[n])))
  {
    hide Consistent, Add, MayTake, NewSlot;
    var a := Address(pool[n], 0, 0);
    NotKnownYet(net, key, pool, n, t);
    var u := NewSlot(net, t.key, a.service, pool[n].net);
    TakesAny(net, key, pool, n, t, u, 0);
    AddKeeps(net, t, a, pool[n].net, 0, 0, 0, 0);
    AddOutcome(net, t, a, pool[n].net, 0, 0, 0, 0);
    AddEntries(net, t, a, pool[n].net, 0, 0, 0);
    var v := Step(net, t, Announce(pool[n]));
    assert v.newTable == t.newTable[u := n];
    assert u in Slots(v.newTable, n);
    TablesDecide(net, v, n);
    forall x | x in v.info ensures 0 <= x < n + 1 && v.info[x].service == pool[x] && v.info[x].nTime == 0 && v.info[x].lastTry == 0 {
      if x != n {
        assert Ops.Recounted(t.info[x], v.info[x]);
      }
    }
  }

  lemma AnnouncedNone(net: Net, key: nat, pool: seq<Service>)
    ensures Announced(net, key, pool, 0, Empty(key))
  {
    hide Consistent;
    EmptyConsistent(net, key);
  }

  lemma RunNone(net: Net, s: State, ops: seq<Op>)
    requires ops == []
    ensures Run(net, s, ops) == s
  {
  }

  lemma {:induction false} AnnounceAll(net: Net, key: nat, pool: seq<Service>, n: nat)
    requires Pool(net, pool) && n <= |pool|
    ensures Announced(net, key, pool, n, Run(net, Empty(key), Announcements(pool, n)))
  {
    hide Step, Run, Pool, Announce, Announced;
    if n == 0 {
      AnnouncedNone(net, key, pool);
      RunNone(net, Empty(key), Announcements(pool, 0));
    } else {
      AnnounceAll(net, key, pool, n - 1);
      var t := Run(net, Empty(key), Announcements(pool, n - 1));
      AnnounceNext(net, key, pool, n - 1, t);
      RunMore(net, Empty(key), Announcements(pool, n - 1), Announce(pool[n - 1]));
      assert Announcements(pool, n) == Announcements(pool, n - 1) + [Announce(pool[n - 1])];
    }
  }

  // ----- What a stale collision does -----

  /** Some draw makes SelectTriedCollision_ look up an id that does not exist. */
  ghost predicate LooksUpUnknown(net: Net, s: State) {
    exists draw: nat :: SelectTriedCollision(net, s, draw).1 == UnknownId
  }

  /** No run of public operations leads to such a look-up. */
  ghost predicate NeverUnknown(net: Net, s: State) {
    forall ops: seq<Op> :: !LooksUpUnknown(net, Run(net, s, ops))
  }

  lemma SelectsUnknown(net: Net, s: State, c: int)
    requires c in s.collisions && c in s.info && s.triedTable == map[]
    ensures LooksUpUnknown(net, s)
  {
    hide TriedSlot, Ascending, IsAscending;
    var ids := Ascending(s.collisions);
    var k: nat :| k < |ids| && ids[k] == c;
    SmallMod(k, |ids|);
    assert SelectTriedCollision(net, s, k).1 == UnknownId;
  }

  lemma NoneUnknown(net: Net, s: State)
    requires Consistent(net, s)
    ensures !LooksUpUnknown(net, s)
  {
    hide Consistent, SelectTriedCollision;
    forall draw: nat ensures SelectTriedCollision(net, s, draw).1 != UnknownId {
      SelectionKnown(net, s, draw);
    }
  }

  /** Any collision that Clear leaves does it: announcing addresses until its id is given out
      again makes a selection look up the occupant of an empty slot. */
  lemma StaleCollision(net: Net, s: State, key: nat, c: int, pool: seq<Service>)
    requires c in s.collisions && 0 <= c < |pool| && Pool(net, pool)
    ensures LooksUpUnknown(net, Run(net, Cleared(s, key), Announcements(pool, c + 1)))
  {
    hide Run, LooksUpUnknown, Consistent, Pool;
    var ops := Announcements(pool, c + 1);
    AnnounceAll(net, key, pool, c + 1);
    AddsIgnore(net, Empty(key), s.collisions, ops);
    SelectsUnknown(net, Run(net, Cleared(s, key), ops), c);
  }

  /** Given addresses enough to reach the pending ids, no later run goes wrong if and only if no
      collision was pending when the manager was cleared. */
  lemma ClearSafe(net: Net, s: State, key: nat, pool: seq<Service>)
    requires Pool(net, pool) && forall c :: c in s.collisions ==> 0 <= c < |pool|
    ensures NeverUnknown(net, Cleared(s, key)) <==> s.collisions == {}
  {
    hide Run, LooksUpUnknown, Consistent, Pool;
    if s.collisions == {} {
      ClearConsistent(net, s, key);
      forall ops: seq<Op> ensures !LooksUpUnknown(net, Run(net, Cleared(s, key), ops)) {
        RunKeeps(net, Cleared(s, key), ops);
        NoneUnknown(net, Run(net, Cleared(s, key), ops));
      }
    } else {
      Inhabited(s.collisions);
      var c :| c in s.collisions;
      StaleCollision(net, s, key, c, pool);
    }
  }

  // ----- Runs that reach a pending collision -----

  lemma GoodIds(net: Net, s: State, a: Service, test: bool, time: int)
    requires Consistent(net, s)
    ensures Good(net, s, a, test, time).idCount == s.idCount
  {
    hide Indexed, Tabled, CollisionsPending, Ops.MakeTried, Slots, TriedSlot;
    if Hit(s, a) {
      var id := s.addrs[a.net];
      var i := s.info[id].(lastSuccess := time, lastTry := time, attempts := 0);
      LastGoodOnly(net, s, time);
      StatsConsistent(net, s.(lastGood := time), id, i);
      if !s.info[id].inTried {
        Ops.MakeTriedKeeps(net, Ops.WithInfo(s.(lastGood := time), id, i), id);
      }
    }
  }

  /** The state once one address is tried and no other is known. */
  ghost predicate OneTried(net: Net, key: nat, a: Service, t: State) {
    && Consistent(net, t) && t.key == key && t.idCount == 1 && t.collisions == {} && t.newTable == map[]
    && t.triedTable == map[TriedSlot(net, key, a) := 0] && t.addrs.Keys == {a.net}
  }

  lemma OneAddress(net: Net, s: State, a: Service)
    requires Consistent(net, s) && (forall x :: x in s.info ==> x == 0 && s.info[x].service == a) && 0 in s.info
    ensures s.addrs.Keys == {a.net} && s.addrs[a.net] == 0 && Hit(s, a)
  {
    hide RandomIndex, Tabled, CollisionsPending, Counted;
    forall x | x in s.addrs ensures x == a.net {
      var id := s.addrs[x];
      assert id in s.info;
    }
  }

  /** Announcing an address and connecting to it makes it tried. */
  lemma FirstTried(net: Net, key: nat, a: Service)
    requires net.routable(a.net)
    ensures OneTried(net, key, a, Run(net, Empty(key), [Announce(a), OpGood(a, true, 1)]))
  {
    hide Consistent, Good, Add, TriedSlot, Slots, Run;
    AnnounceAll(net, key, [a], 1);
    var t := Run(net, Empty(key), Announcements([a], 1));
    OneAddress(net, t, a);
    GoodKeeps(net, t, a, true, 1);
    GoodOutcome(net, t, a, true, 1);
    GoodIds(net, t, a, true, 1);
    TablesDecide(net, t, 0);
    EmptySlots(t.triedTable, 0);
    var u := Good(net, t, a, true, 1);
    EmptiedTable(net, t, TriedSlot(net, key, a));
    forall x | x in u.info ensures x == 0 && u.info[x].service == a {
      TablesDecide(net, u, x);
      OnlySlot(u.newTable, u.triedTable, TriedSlot(net, key, a), x);
    }
    OneAddress(net, u, a);
    RunMore(net, Empty(key), Announcements([a], 1), OpGood(a, true, 1));
    assert Announcements([a], 1) + [OpGood(a, true, 1)] == [Announce(a), OpGood(a, true, 1)];
  }

  lemma EmptySlots(table: Table, id: int)
    requires table == map[]
    ensures Slots(table, id) == {}
  {
  }

  lemma OnlySlot(newTable: Table, triedTable: Table, k: Slot, id: int)
    requires newTable == map[] && triedTable == map[k := 0]
    requires Slots(newTable, id) != {} || Slots(triedTable, id) != {}
    ensures id == 0
  {
    EmptySlots(newTable, id);
    if slot :| slot in Slots(triedTable, id) {
    }
  }

  lemma EmptiedTable(net: Net, s: State, k: Slot)
    requires Consistent(net, s) && (forall x :: x in s.info ==> x == 0) && s.triedTable == map[]
    ensures NewTableAfterMove(net, s, 0, k) == map[]
  {
    hide Indexed, TriedIndex, RefCounts, CollisionsPending, Counted;
    forall slot | slot in s.newTable ensures slot in Slots(s.newTable, 0) {
      var id := s.newTable[slot];
      assert id in s.info;
    }
  }

  /** Two addresses with the same tried slot: the second waits as a collision. */
  lemma PendingReached(net: Net, key: nat, a: Service, b: Service)
    requires net.routable(a.net) && net.routable(b.net) && a.net != b.net && TriedSlot(net, key, a) == TriedSlot(net, key, b)
    ensures Run(net, Empty(key), CollidingRun(a, b)).collisions == {1}
  {
    hide Consistent, Good, Add, TriedSlot, NewSlot, Slots, Run, MayTake;
    var ops := [Announce(a), OpGood(a, true, 1)];
    FirstTried(net, key, a);
    var t := Run(net, Empty(key), ops);
    var adr := Address(b, 0, 0);
    var u := Step(net, t, Announce(b));
    AddKeeps(net, t, adr, b.net, 0, 0, 0, 0);
    AddOutcome(net, t, adr, b.net, 0, 0, 0, 0);
    AddEntries(net, t, adr, b.net, 0, 0, 0);
    FreeSlot(t, NewSlot(net, key, b, b.net));
    SecondThere(net, u, NewSlot(net, key, b, b.net), b, TriedSlot(net, key, a));
    GoodOutcome(net, u, b, true, 1);
    RunMore(net, Empty(key), ops, Announce(b));
    RunMore(net, Empty(key), ops + [Announce(b)], OpGood(b, true, 1));
    assert ops + [Announce(b)] + [OpGood(b, true, 1)] == CollidingRun(a, b);
  }

  function CollidingRun(a: Service, b: Service): seq<Op> {
    [Announce(a), OpGood(a, true, 1), Announce(b), OpGood(b, true, 1)]
  }

  lemma FreeSlot(s: State, u: Slot)
    requires s.newTable == map[]
    ensures MayTake(s, u, 0)
  {
  }

  lemma SecondThere(net: Net, s: State, u: Slot, b: Service, k: Slot)
    requires Consistent(net, s) && s.newTable == map[u := 1] && s.triedTable == map[k := 0]
    requires 1 in s.info ==> s.info[1].service == b
    ensures Hit(s, b) && s.addrs[b.net] == 1 && !s.info[1].inTried
  {
    hide RandomIndex, TriedIndex, CollisionsPending, Counted, RefCounts;
    var id := s.newTable[u];
    assert id in s.info;
  }

  // ----- Enough addresses -----

  const TRIED_SLOTS := TRIED_BUCKET_COUNT * BUCKET_SIZE

  lemma SlotNumberUnique(net: Net, key: nat, a: Service, b: Service)
    ensures SlotNumber(TriedSlot(net, key, a)) < TRIED_SLOTS
    ensures SlotNumber(TriedSlot(net, key, a)) == SlotNumber(TriedSlot(net, key, b)) ==> TriedSlot(net, key, a) == TriedSlot(net, key, b)
  {
  }

  /** More addresses than tried slots: two of them share one. */
  lemma SharedSlot(net: Net, key: nat, pool: seq<Service>)
    requires |pool| > TRIED_SLOTS
    ensures exists i, j :: 0 <= i < j < |pool| && TriedSlot(net, key, pool[i]) == TriedSlot(net, key, pool[j])
  {
    hide TriedSlot, SlotNumber;
    var numbers := seq(|pool|, i requires 0 <= i < |pool| => SlotNumber(TriedSlot(net, key, pool[i])));
    forall i | 0 <= i < |pool| ensures numbers[i] < TRIED_SLOTS {
      SlotNumberUnique(net, key, pool[i], pool[i]);
    }
    SomeRepeated(numbers, TRIED_SLOTS);
    var i, j :| 0 <= i < j < |numbers| && numbers[i] == numbers[j];
    SlotNumberUnique(net, key, pool[i], pool[j]);
  }

  lemma SomeRepeated(s: seq<int>, n: nat)
    requires |s| > n && forall i :: 0 <= i < |s| ==> 0 <= s[i] < n
    ensures exists i, j :: 0 <= i < j < |s| && s[i] == s[j]
  {
    if forall i, j :: 0 <= i < j < |s| ==> s[i] != s[j] {
      Pigeonhole(Range(|s|), map i | i in Range(|s|) :: s[i], n);
      assert false;
    }
  }

  /** With more routable addresses than tried slots, whatever the hash functions are: a run from
      the constructor and a Clear lead to a state from which a run goes wrong. */
  lemma ClearUnsafe(net: Net, key: nat, key': nat, pool: seq<Service>)
    requires Pool(net, pool) && |pool| > TRIED_SLOTS
    ensures exists ops: seq<Op> :: !NeverUnknown(net, Cleared(Run(net, Empty(key), ops), key'))
  {
    hide Run, NeverUnknown, TriedSlot, CollidingRun;
    SharedSlot(net, key, pool);
    var i, j :| 0 <= i < j < |pool| && TriedSlot(net, key, pool[i]) == TriedSlot(net, key, pool[j]);
    var ops := CollidingRun(pool[i], pool[j]);
    PendingReached(net, key, pool[i], pool[j]);
    ClearSafe(net, Run(net, Empty(key), ops), key', pool);
  }
}
