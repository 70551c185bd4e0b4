/** What every public operation of the address manager keeps, and hence every run. */
module AddrManTheorems {
  import opened AddrManState
  import Ops = AddrManOps
  import opened AddrManRun
  import Powers
  import opened SortedSets

  /** What any sequence of operations leaves alone: ids never come back and never change
      their address, and a filled tried slot stays filled. */
  ghost predicate Evolves(s: State, t: State) {
    && t.key == s.key && t.idCount >= s.idCount
    && s.triedTable.Keys <= t.triedTable.Keys
    && (forall id :: id in t.info && id < s.idCount ==> id in s.info && t.info[id].service == s.info[id].service)
  }

  lemma EvolvesTransitive(s: State, t: State, u: State)
    requires Evolves(s, t) && Evolves(t, u)
    ensures Evolves(s, u)
  {
  }

  lemma EvolvesSelf(s: State)
    ensures Evolves(s, s)
  {
  }

  /** Pending collisions stay collisions. */
  lemma CollisionsFrame(net: Net, s: State, t: State)
    requires CollisionsPending(net, s) && Evolves(s, t) && t.collisions <= s.collisions
    ensures CollisionsPending(net, t)
  {
    SubsetSize(t.collisions, s.collisions);
    forall id | id in t.collisions && id in t.info ensures TriedSlot(net, t.key, t.info[id].service) in t.triedTable {
      assert id in s.collisions && id in s.info;
      assert TriedSlot(net, s.key, s.info[id].service) in s.triedTable.Keys;
    }
  }

  lemma {:induction false} StatsConsistent(net: Net, s: State, id: int, i: Info)
    requires Consistent(net, s) && id in s.info
    requires i.service == s.info[id].service && i.refCount == s.info[id].refCount
    requires i.inTried == s.info[id].inTried && i.randomPos == s.info[id].randomPos
    ensures Consistent(net, Ops.WithInfo(s, id, i)) && Evolves(s, Ops.WithInfo(s, id, i))
  {
    hide IdsAllocated, AddrIndex, RandomIndex, TriedIndex, NewSlotsOk, RefCounts, CollisionsPending;
    var t := Ops.WithInfo(s, id, i);
    Ops.StatsIndexed(s, id, i);
    Ops.StatsTabled(net, s, id, i, {});
    CollisionsFrame(net, s, t);
  }

  // ----- Good_ -----

  predicate FitsBucket(net: Net, key: nat, slot: Slot, a: Service) {
    slot.bucket < NEW_BUCKET_COUNT && slot == NewSlotIn(net, key, slot.bucket, a)
  }

  /** The "no bucket found" exit of Good_ is unreachable: an untried entry is in some new bucket. */
  lemma BucketFound(net: Net, s: State, id: int)
    requires Tabled(net, s, {}) && id in s.info && !s.info[id].inTried
    ensures Slots(s.newTable, id) != {}
    ensures exists slot :: slot in Slots(s.newTable, id) && FitsBucket(net, s.key, slot, s.info[id].service)
  {
    assert |Slots(s.newTable, id)| >= 1;
    if !exists slot :: slot in Slots(s.newTable, id) {
      assert false;
    }
    var slot :| slot in Slots(s.newTable, id);
    assert slot in s.newTable && s.newTable[slot] == id;
  }

  /** The time of the last success is in no invariant. */
  lemma LastGoodOnly(net: Net, s: State, time: int)
    requires Consistent(net, s)
    ensures Consistent(net, s.(lastGood := time)) && Evolves(s, s.(lastGood := time))
  {
    hide IdsAllocated, AddrIndex, RandomIndex, TriedIndex, NewSlotsOk, RefCounts;
  }

  lemma GoodKeeps(net: Net, s: State, a: Service, test: bool, time: int)
    requires Consistent(net, s)
    ensures Consistent(net, Good(net, s, a, test, time))
    ensures Evolves(s, Good(net, s, a, test, time))
  {
    hide Consistent, Evolves, Ops.MakeTried, TriedSlot, Slots;
    var s0 := s.(lastGood := time);
    LastGoodOnly(net, s, time);
    if Hit(s, a) {
      var id := s.addrs[a.net];
      var i := s.info[id].(lastSuccess := time, lastTry := time, attempts := 0);
      var s1 := Ops.WithInfo(s0, id, i);
      StatsConsistent(net, s0, id, i);
      EvolvesTransitive(s, s0, s1);
      if !s.info[id].inTried && Slots(s.newTable, id) != {} {
        if test && TriedSlot(net, s.key, a) in s.triedTable {
          if |s.collisions| < SET_TRIED_COLLISION_SIZE {
            NewCollision(net, s1, id);
            EvolvesTransitive(s, s1, s1.(collisions := s1.collisions + {id}));
          }
        } else {
          MakeTriedConsistent(net, s1, id);
          EvolvesTransitive(s, s1, Ops.MakeTried(net, s1, id));
        }
      }
    }
  }

  lemma NewCollision(net: Net, s: State, id: int)
    requires Consistent(net, s) && |s.collisions| < SET_TRIED_COLLISION_SIZE && id in s.info
    requires TriedSlot(net, s.key, s.info[id].service) in s.triedTable
    ensures Consistent(net, s.(collisions := s.collisions + {id})) && Evolves(s, s.(collisions := s.collisions + {id}))
  {
    hide AddrIndex, RandomIndex, TriedIndex, NewSlotsOk, RefCounts, TriedSlot;
  }

  lemma MakeTriedConsistent(net: Net, s: State, id: int)
    requires Consistent(net, s) && id in s.info && !s.info[id].inTried
    ensures Consistent(net, Ops.MakeTried(net, s, id))
    ensures Evolves(s, Ops.MakeTried(net, s, id))
  {
    hide Shape, CollisionsPending, Ops.MakeTried;
    Ops.MakeTriedKeeps(net, s, id);
    var t := Ops.MakeTried(net, s, id);
    forall x | x in t.info ensures x in s.info && t.info[x].service == s.info[x].service {
      assert Ops.StableCore(s.info[x], t.info[x]);
    }
    CollisionsFrame(net, s, t);
  }

  // ----- Add_ -----

  lemma PlaceKeeps(net: Net, s: State, id: int, source: NetAddr, now: int)
    requires Shape(net, s, {id}) && Counted(s, 0, 0) && CollisionsPending(net, s)
    requires id in s.info && !s.info[id].inTried && s.info[id].refCount < NEW_BUCKETS_PER_ADDRESS
    ensures Consistent(net, Place(net, s, id, source, now))
    ensures Evolves(s, Place(net, s, id, source, now))
  {
    hide IdsAllocated, AddrIndex, RandomIndex, TriedIndex, NewSlotsOk, CollisionsPending, Ops.ClearNew, Ops.Delete, IsTerrible;
    var u := NewSlot(net, s.key, s.info[id].service, source);
    if u in s.newTable && s.newTable[u] == id {
      assert u in Slots(s.newTable, id);
      Ops.Tighten(net, s, {id}, {});
    } else if Overwrites(s, u, id, now) {
      PlaceInto(net, s, u, id);
    } else if s.info[id].refCount == 0 {
      PlaceDropped(net, s, id);
    } else {
      Ops.Tighten(net, s, {id}, {});
    }
  }

  lemma PlaceInto(net: Net, s: State, u: Slot, id: int)
    requires Shape(net, s, {id}) && Counted(s, 0, 0) && CollisionsPending(net, s)
    requires id in s.info && !s.info[id].inTried && s.info[id].refCount < NEW_BUCKETS_PER_ADDRESS
    requires FitsBucket(net, s.key, u, s.info[id].service) && (u in s.newTable ==> s.newTable[u] != id)
    ensures Consistent(net, Ops.List(Ops.ClearNew(s, u), u, id))
    ensures Evolves(s, Ops.List(Ops.ClearNew(s, u), u, id))
  {
    hide IdsAllocated, AddrIndex, RandomIndex, TriedIndex, NewSlotsOk, RefCounts, CollisionsPending, Ops.ClearNew;
    var t := Ops.ClearNew(s, u);
    Ops.ClearNewKeeps(net, s, u, {id});
    assert Ops.Moved(s.info[id], t.info[id]);
    Ops.ListIndexed(t, u, id);
    assert {} + {id} == {id};
    Ops.ListTabled(net, t, u, id, {});
    var r := Ops.List(t, u, id);
    forall x | x in r.info ensures x in s.info && r.info[x].service == s.info[x].service {
      assert x in t.info && Ops.Recounted(s.info[x], t.info[x]);
    }
    CollisionsFrame(net, s, r);
  }

  lemma PlaceDropped(net: Net, s: State, id: int)
    requires Shape(net, s, {id}) && Counted(s, 0, 0) && CollisionsPending(net, s)
    requires id in s.info && !s.info[id].inTried && s.info[id].refCount == 0
    ensures Consistent(net, Ops.Delete(s, id))
    ensures Evolves(s, Ops.Delete(s, id))
  {
    hide IdsAllocated, AddrIndex, RandomIndex, TriedIndex, NewSlotsOk, RefCounts, CollisionsPending, Ops.Delete;
    var t := Ops.Delete(s, id);
    Ops.DeleteIndexed(s, id);
    Ops.DeleteEntries(s, id);
    Ops.DeleteTabled(net, s, t, id, {id});
    assert {id} - {id} == {};
    Ops.KeptIds(s, t, {id});
    assert id in NewIds(s.info);
    forall x | x in t.info ensures x in s.info && t.info[x].service == s.info[x].service {
      assert x in t.info.Keys && Ops.Moved(s.info[x], t.info[x]);
    }
    CollisionsFrame(net, s, t);
  }

  lemma IntroduceKeeps(net: Net, s: State, a: Address, source: NetAddr, penalty: int)
    requires Consistent(net, s) && a.service.net !in s.addrs
    ensures var t := Introduce(s, a, source, penalty);
      && Shape(net, t, {s.idCount}) && Counted(t, 0, 0) && CollisionsPending(net, t) && Evolves(s, t)
      && s.idCount in t.info && !t.info[s.idCount].inTried && t.info[s.idCount].refCount == 0
  {
    hide IdsAllocated, AddrIndex, RandomIndex, TriedIndex, NewSlotsOk, RefCounts, CollisionsPending, Evolves, NewIds, TriedIds;
    var b := a.(nTime := AsUint32(NonNegative(a.nTime - penalty)));
    Ops.CreateIndexed(s, b, source);
    Ops.CreateTabled(net, s, b, source, {});
    assert {} + {s.idCount} == {s.idCount};
    IntroduceEvolves(s, a, source, penalty);
    CollisionsFrame(net, s, Introduce(s, a, source, penalty));
  }

  lemma IntroduceEvolves(s: State, a: Address, source: NetAddr, penalty: int)
    ensures Evolves(s, Introduce(s, a, source, penalty))
  {
  }

  lemma KnownIs(s: State, a: NetAddr)
    requires Indexed(s)
    ensures Known(s, a) <==> a in s.addrs
  {
    hide RandomIndex, IdsAllocated;
    if a in s.addrs {
      var id := s.addrs[a];
    }
  }

  lemma AddKeeps(net: Net, s: State, a: Address, source: NetAddr, timePenalty: int, now: int, now2: int, draw: nat)
    requires Consistent(net, s)
    ensures Consistent(net, Add(net, s, a, source, timePenalty, now, now2, draw).0)
    ensures Evolves(s, Add(net, s, a, source, timePenalty, now, now2, draw).0)
  {
    hide Indexed, TriedIndex, NewSlotsOk, CollisionsPending, Place, IsTerrible, Introduce, Evolves;
    KnownIs(s, a.service.net);
    EvolvesSelf(s);
    var penalty := if a.service.net == source then 0 else timePenalty;
    if net.routable(a.service.net) {
      if Known(s, a.service.net) {
        var id := s.addrs[a.service.net];
        var i := Refreshed(s.info[id], a, penalty, now);
        var s1 := Ops.WithInfo(s, id, i);
        StatsConsistent(net, s, id, i);
        if MayReference(i, a, draw) {
          Ops.Tighten(net, s1, {}, {id});
          PlaceKeeps(net, s1, id, source, now2);
          EvolvesTransitive(s, s1, Place(net, s1, id, source, now2));
        }
      } else {
        var s1 := Introduce(s, a, source, penalty);
        IntroduceKeeps(net, s, a, source, penalty);
        PlaceKeeps(net, s1, s.idCount, source, now2);
        EvolvesTransitive(s, s1, Place(net, s1, s.idCount, source, now2));
      }
    }
  }

  // ----- GetAddr_ -----

  lemma SwapConsistent(net: Net, s: State, i: int, j: int)
    requires Consistent(net, s) && 0 <= i < |s.random| && 0 <= j < |s.random|
    ensures Consistent(net, Ops.SwapRandom(s, i, j)) && Evolves(s, Ops.SwapRandom(s, i, j))
    ensures Ops.KeepsEntries(s, Ops.SwapRandom(s, i, j), {}) && |Ops.SwapRandom(s, i, j).random| == |s.random|
  {
    hide IdsAllocated, AddrIndex, RandomIndex, TriedIndex, NewSlotsOk, RefCounts, CollisionsPending, Ops.SwapRandom;
    var t := Ops.SwapRandom(s, i, j);
    Ops.SwapFields(s, i, j);
    Ops.SwapIndexed(s, i, j);
    Ops.MovedTabled(net, s, t, {});
    Ops.KeptIds(s, t, {});
    forall x | x in t.info ensures x in s.info && t.info[x].service == s.info[x].service {
      assert x in t.info.Keys && Ops.Moved(s.info[x], t.info[x]);
    }
    CollisionsFrame(net, s, t);
  }

  /** The first `n` ids of the random order have been looked at, each in the round of its place:
      those picked were worth passing on then, the others were not. */
  ghost predicate Considered(info: Infos, random: seq<int>, picked: seq<int>, n: nat, clock: nat -> int)
    requires n <= |random|
  {
    forall i :: 0 <= i < n ==> var id := random[i]; id in info && (id in picked <==> !IsTerrible(info[id], clock(i)))
  }

  /** Whether an entry was terrible in the round that brought it to its place. */
  predicate WasTerrible(i: Info, clock: nat -> int) {
    i.randomPos >= 0 && IsTerrible(i, clock(i.randomPos))
  }

  ghost predicate PickedBelow(random: seq<int>, picked: seq<int>, n: nat)
    requires n <= |random|
  {
    && (forall i :: 0 <= i < |picked| ==> picked[i] in random[..n])
    && (forall i, j :: 0 <= i < j < |picked| ==> picked[i] != picked[j])
  }

  /** One round of the selection loop, after the swap. */
  lemma PickRound(s: State, t: State, picked: seq<int>, n: nat, clock: nat -> int)
    requires n < |s.random| == |t.random| && t.random[..n] == s.random[..n]
    requires forall i, j :: 0 <= i < j < |t.random| ==> t.random[i] != t.random[j]
    requires Ops.KeepsEntries(s, t, {}) && (var id := t.random[n]; id in t.info)
    requires PickedBelow(s.random, picked, n) && Considered(s.info, s.random, picked, n, clock)
    ensures PickedBelow(t.random, WithPick(t, picked, n, clock(n)), n + 1)
    ensures Considered(t.info, t.random, WithPick(t, picked, n, clock(n)), n + 1, clock)
  {
    hide IsTerrible, Ops.Moved;
    var id := t.random[n];
    assert id !in t.random[..n];
    assert id !in picked;
    var picked' := WithPick(t, picked, n, clock(n));
    assert t.random[..n + 1] == s.random[..n] + [id];
    forall i | 0 <= i < n + 1 ensures var x := t.random[i]; x in t.info && (x in picked' <==> !IsTerrible(t.info[x], clock(i))) {
      var x := t.random[i];
      if i < n {
        assert x == t.random[..n][i] == s.random[..n][i] == s.random[i] && x != id;
        assert x in s.info.Keys && x in t.info.Keys && Ops.Moved(s.info[x], t.info[x]);
        SameJudgement(s.info[x], t.info[x], clock(i));
        assert x in picked' <==> x in picked;
      } else {
        assert id in picked' <==> !IsTerrible(t.info[id], clock(n));
      }
    }
  }

  lemma SameJudgement(i: Info, j: Info, now: int)
    requires Ops.Moved(i, j)
    ensures IsTerrible(j, now) <==> IsTerrible(i, now)
  {
  }

  lemma SwapOrder(s: State, n: nat, m: int)
    requires RandomIndex(s.info, s.random) && n <= m < |s.random|
    ensures var t := Ops.SwapRandom(s, n, m);
      |t.random| == |s.random| && t.random[n] == s.random[m] && t.random[..n] == s.random[..n]
  {
    var x, y := s.random[n], s.random[m];
    assert x in s.info && y in s.info;
  }

  lemma PlaceKnown(net: Net, s: State, n: nat)
    requires Consistent(net, s) && n < |s.random|
    ensures RandomIndex(s.info, s.random) && (var id := s.random[n]; id in s.info)
  {
    hide AddrIndex, Tabled, CollisionsPending, Counted;
    var id := s.random[n];
  }

  lemma RandomInjective(net: Net, s: State)
    requires Consistent(net, s)
    ensures RandomIndex(s.info, s.random)
    ensures forall i, j :: 0 <= i < j < |s.random| ==> s.random[i] != s.random[j]
    ensures forall i :: 0 <= i < |s.random| ==> var x := s.random[i]; x in s.info
  {
    hide AddrIndex, Tabled, CollisionsPending, Counted;
    forall i, j | 0 <= i < j < |s.random| ensures s.random[i] != s.random[j] {
      var x, y := s.random[i], s.random[j];
      assert s.info[x].randomPos == i && s.info[y].randomPos == j;
    }
  }

  lemma DrawFits(draw: nat, n: nat, size: nat)
    requires n < size
    ensures n <= draw % (size - n) + n < size
  {
  }

  lemma PickedOne(t: State, picked: seq<int>, n: nat, now: int)
    ensures n < |t.random| ==> |WithPick(t, picked, n, now)| <= |picked| + 1
  {
  }

  lemma KeepsTransitive(s: State, t: State, u: State)
    requires Ops.KeepsEntries(s, t, {}) && Ops.KeepsEntries(t, u, {})
    ensures Ops.KeepsEntries(s, u, {})
  {
    forall id | id in u.info ensures Ops.Moved(s.info[id], u.info[id]) {
      assert id in t.info.Keys && Ops.Moved(t.info[id], u.info[id]) && Ops.Moved(s.info[id], t.info[id]);
    }
  }

  /** A good answer to a request for addresses: at most `limit` entries, none twice, none that
      was terrible when it was looked at; and if fewer than `limit`, all the others were looked
      at and were terrible then. */
  ghost predicate GoodAnswer(info: Infos, r: seq<int>, limit: nat, clock: nat -> int) {
    && |r| <= limit
    && (forall i, j :: 0 <= i < j < |r| ==> r[i] != r[j])
    && (forall i :: 0 <= i < |r| ==> var id := r[i]; id in info && !WasTerrible(info[id], clock))
    && (|r| < limit ==> forall id :: id in info && id !in r ==> WasTerrible(info[id], clock))
  }

  /** GetAddr_ only re-orders `vRandom`, and its answer is a good one. */
  lemma {:induction false} GetAddrKeeps(net: Net, s: State, picked: seq<int>, n: nat, limit: nat, draws: nat -> nat, clock: nat -> int)
    requires Consistent(net, s) && n <= |s.random| && |picked| <= limit
    requires PickedBelow(s.random, picked, n) && Considered(s.info, s.random, picked, n, clock)
    ensures var (t, r) := GetAddrFrom(s, picked, n, limit, draws, clock);
      && Consistent(net, t) && Evolves(s, t) && Ops.KeepsEntries(s, t, {}) && t.collisions == s.collisions
      && GoodAnswer(t.info, r, limit, clock)
    decreases |s.random| - n
  {
    hide Consistent, IsTerrible, Ops.SwapRandom, WasTerrible, Evolves, Ops.KeepsEntries, PickedBelow, Considered, GoodAnswer, RandomIndex,
      GetAddrFrom, WithPick;
    GetAddrUnfold(s, picked, n, limit, draws, clock);
    if n == |s.random| || |picked| >= limit {
      GetAddrDone(net, s, picked, n, limit, clock);
    } else {
      var m := draws(n) % (|s.random| - n) + n;
      DrawFits(draws(n), n, |s.random|);
      PickedOne(Ops.SwapRandom(s, n, m), picked, n, clock(n));
      var t := Ops.SwapRandom(s, n, m);
      SwapConsistent(net, s, n, m);
      Ops.SwapFields(s, n, m);
      RandomInjective(net, s);
      RandomInjective(net, t);
      SwapOrder(s, n, m);
      PickRound(s, t, picked, n, clock);
      var picked' := WithPick(t, picked, n, clock(n));
      GetAddrKeeps(net, t, picked', n + 1, limit, draws, clock);
      var u := GetAddrFrom(t, picked', n + 1, limit, draws, clock).0;
      EvolvesTransitive(s, t, u);
      KeepsTransitive(s, t, u);
    }
  }

  lemma GetAddrDone(net: Net, s: State, picked: seq<int>, n: nat, limit: nat, clock: nat -> int)
    requires Consistent(net, s) && n <= |s.random| && |picked| <= limit
    requires PickedBelow(s.random, picked, n) && Considered(s.info, s.random, picked, n, clock)
    requires n == |s.random| || |picked| >= limit
    ensures Evolves(s, s) && Ops.KeepsEntries(s, s, {})
    ensures GoodAnswer(s.info, picked, limit, clock)
  {
    hide Tabled, CollisionsPending, IsTerrible;
    forall i | 0 <= i < |picked| ensures var id := picked[i]; id in s.info && !WasTerrible(s.info[id], clock) {
      var id := picked[i];
      var k :| 0 <= k < n && s.random[k] == id;
      assert s.info[id].randomPos == k;
    }
    if |picked| < limit {
      forall id | id in s.info && id !in picked ensures WasTerrible(s.info[id], clock) {
        var k := s.info[id].randomPos;
        assert s.random[k] == id;
      }
    }
  }

  // ----- ResolveCollisions_ and SelectTriedCollision_ -----

  lemma ResolveOneKeeps(net: Net, s: State, id: int, clock: (int, nat) -> int)
    requires Consistent(net, s)
    ensures Consistent(net, ResolveOne(net, s, id, clock).0) && Evolves(s, ResolveOne(net, s, id, clock).0)
  {
    hide Consistent, Good;
    if id in s.info {
      var a := s.info[id].service;
      GoodKeeps(net, s, a, false, clock(id, 3));
      GoodKeeps(net, s, a, false, clock(id, 0));
    }
  }

  lemma ForgetCollision(net: Net, s: State, id: int)
    requires Consistent(net, s)
    ensures Consistent(net, s.(collisions := s.collisions - {id})) && Evolves(s, s.(collisions := s.collisions - {id}))
  {
    hide IdsAllocated, AddrIndex, RandomIndex, TriedIndex, NewSlotsOk, RefCounts, CollisionsPending;
    CollisionsFrame(net, s, s.(collisions := s.collisions - {id}));
  }

  lemma {:induction false} ResolveKeeps(net: Net, s: State, pending: seq<int>, clock: (int, nat) -> int)
    requires Consistent(net, s)
    ensures Consistent(net, Resolve(net, s, pending, clock)) && Evolves(s, Resolve(net, s, pending, clock))
    decreases |pending|
  {
    hide Consistent, ResolveOne;
    if pending != [] {
      var r := ResolveOne(net, s, pending[0], clock);
      ResolveOneKeeps(net, s, pending[0], clock);
      ForgetCollision(net, r.0, pending[0]);
      var s1 := if r.1 then r.0.(collisions := r.0.collisions - {pending[0]}) else r.0;
      ResolveKeeps(net, s1, pending[1..], clock);
      EvolvesTransitive(s, s1, Resolve(net, s1, pending[1..], clock));
    }
  }

  /** Entry `i` occupies the tried slot that pending entry `id` is waiting for. */
  ghost predicate Blocks(net: Net, s: State, id: int, i: Info) {
    id in s.info && (
      var slot := TriedSlot(net, s.key, s.info[id].service);
      slot in s.triedTable && (var x := s.triedTable[slot]; x in s.info && s.info[x] == i))
  }

  /** The pending id that a draw selects: a place in their ascending order. */
  function Drawn(s: State, draw: nat): int
    requires s.collisions != {}
  {
    Ascending(s.collisions)[draw % |s.collisions|]
  }

  /** SelectTriedCollision_ never looks up an unknown id. It returns the entry in the tried slot
      that the drawn pending id is waiting for. It returns nothing exactly if no id is pending or
      the drawn one is gone, and only a drawn id that is gone leaves the pending ones. */
  lemma SelectionKnown(net: Net, s: State, draw: nat)
    requires Consistent(net, s)
    ensures var (t, r) := SelectTriedCollision(net, s, draw);
      && Consistent(net, t) && Evolves(s, t)
      && r != UnknownId
      && (r == Nothing <==> s.collisions == {} || Drawn(s, draw) !in s.info)
      && (r.Chosen? ==> Drawn(s, draw) in s.collisions && Blocks(net, s, Drawn(s, draw), r.info))
      && t == if r == Nothing && s.collisions != {} then s.(collisions := s.collisions - {Drawn(s, draw)}) else s
  {
    hide IdsAllocated, AddrIndex, RandomIndex, NewSlotsOk, RefCounts;
    EvolvesSelf(s);
    if s.collisions != {} {
      var ids := Ascending(s.collisions);
      var id := ids[draw % |ids|];
      assert id in ids;
      ForgetCollision(net, s, id);
      if id in s.info {
        var slot := TriedSlot(net, s.key, s.info[id].service);
        var x := s.triedTable[slot];
        assert Blocks(net, s, id, s.info[x]);
      }
    }
  }

  /** The draw selects pending id `id`: the occupant of its slot is returned if its entry is
      still there, and nothing otherwise. */
  ghost predicate Selects(net: Net, s: State, draw: nat, id: int)
    requires s.collisions != {}
  {
    Drawn(s, draw) == id && (var r := SelectTriedCollision(net, s, draw).1;
      if id in s.info then r.Chosen? && Blocks(net, s, id, r.info) else r == Nothing)
  }

  /** Every pending id can be selected. */
  lemma EveryOneSelected(net: Net, s: State, id: int)
    requires Consistent(net, s) && id in s.collisions
    ensures exists draw: nat :: draw < |s.collisions| && Selects(net, s, draw, id)
  {
    hide Consistent, SelectTriedCollision, Blocks, Evolves, Drawn;
    var draw := PlaceOf(s, id);
    SelectionKnown(net, s, draw);
    assert Selects(net, s, draw, id);
  }

  lemma PlaceOf(s: State, id: int) returns (draw: nat)
    requires id in s.collisions
    ensures draw < |s.collisions| && Drawn(s, draw) == id
  {
    hide Ascending;
    var ids := Ascending(s.collisions);
    assert id in ids;
    draw :| 0 <= draw < |ids| && ids[draw] == id;
    Powers.SmallMod(draw, |ids|);
  }

  // ----- Every operation, every run -----

  lemma StepKeeps(net: Net, s: State, op: Op)
    requires Consistent(net, s)
    ensures Consistent(net, Step(net, s, op)) && Evolves(s, Step(net, s, op))
  {
    hide Consistent, Good, Add, GetAddrFrom, Resolve, SelectTriedCollision;
    match op
    case OpAdd(a, source, penalty, now, now2, draw) => AddKeeps(net, s, a, source, penalty, now, now2, draw);
    case OpGood(a, test, time) => GoodKeeps(net, s, a, test, time);
    case OpAttempt(a, count, time) => AttemptKeeps(net, s, a, count, time);
    case OpConnected(a, time) => ConnectedKeeps(net, s, a, time);
    case OpSetServices(a, services) => SetServicesKeeps(net, s, a, services);
    case OpGetAddr(draws, nows) => GetAddrKeeps(net, s, [], 0, GetAddrLimit(s), draws, nows);
    case OpResolveCollisions(clock) => ResolveKeeps(net, s, Ascending(s.collisions), clock);
    case OpSelectTriedCollision(draw) => SelectionKnown(net, s, draw);
  }

  lemma AttemptKeeps(net: Net, s: State, a: Service, count: bool, time: int)
    requires Consistent(net, s)
    ensures Consistent(net, Attempt(s, a, count, time)) && Evolves(s, Attempt(s, a, count, time))
  {
    hide Consistent, Evolves;
    if Hit(s, a) {
      var id := s.addrs[a.net];
      StatsConsistent(net, s, id, Attempt(s, a, count, time).info[id]);
    } else {
      EvolvesSelf(s);
    }
  }

  lemma ConnectedKeeps(net: Net, s: State, a: Service, time: int)
    requires Consistent(net, s)
    ensures Consistent(net, Connected(s, a, time)) && Evolves(s, Connected(s, a, time))
  {
    hide Consistent, Evolves;
    EvolvesSelf(s);
    if Hit(s, a) {
      var id := s.addrs[a.net];
      StatsConsistent(net, s, id, s.info[id].(nTime := AsUint32(time)));
    }
  }

  lemma SetServicesKeeps(net: Net, s: State, a: Service, services: bv64)
    requires Consistent(net, s)
    ensures Consistent(net, SetServices(s, a, services)) && Evolves(s, SetServices(s, a, services))
  {
    hide Consistent, Evolves;
    if Hit(s, a) {
      var id := s.addrs[a.net];
      StatsConsistent(net, s, id, s.info[id].(services := services));
    } else {
      EvolvesSelf(s);
    }
  }

  /** Every run of operations keeps every index, counter and pending collision consistent. */
  lemma {:induction false} RunKeeps(net: Net, s: State, ops: seq<Op>)
    requires Consistent(net, s)
    ensures Consistent(net, Run(net, s, ops)) && Evolves(s, Run(net, s, ops))
    decreases |ops|
  {
    hide Consistent, Step, Evolves;
    if ops == [] {
      EvolvesSelf(s);
    } else {
      var t := Step(net, s, ops[0]);
      StepKeeps(net, s, ops[0]);
      RunKeeps(net, t, ops[1..]);
      EvolvesTransitive(s, t, Run(net, t, ops[1..]));
    }
  }

  // ----- The clauses about times -----

  ghost predicate SameTimes(i: Info, j: Info) {
    j.lastTry == i.lastTry && j.lastSuccess == i.lastSuccess && (j.inTried ==> i.inTried)
  }

  lemma TimesFrame(s: State, t: State)
    requires TimesOk(s)
    requires forall x :: x in t.info ==> x in s.info && SameTimes(s.info[x], t.info[x])
    ensures TimesOk(t)
  {
  }

  /** The times at which Good_ keeps the self-check passing: positive ones, or any when the
      address is not known, or zero when the entry stays out of the tried table. */
  ghost predicate GoodTimeFits(net: Net, s: State, a: Service, test: bool, time: int) {
    Hit(s, a) ==>
      || time > 0
      || (time == 0 && test && !s.info[s.addrs[a.net]].inTried && TriedSlot(net, s.key, a) in s.triedTable)
  }

  lemma GoodTimes(net: Net, s: State, a: Service, test: bool, time: int)
    requires Consistent(net, s) && TimesOk(s)
    ensures TimesOk(Good(net, s, a, test, time)) <==> GoodTimeFits(net, s, a, test, time)
  {
    hide Indexed, Tabled, CollisionsPending, Ops.MakeTried, TriedSlot, Slots, Evolves;
    if Hit(s, a) {
      var id := s.addrs[a.net];
      BucketFoundIf(net, s, id);
      var i := s.info[id].(lastSuccess := time, lastTry := time, attempts := 0);
      var s0 := s.(lastGood := time);
      var s1 := Ops.WithInfo(s0, id, i);
      assert s1.info[id] == i;
      var t := Good(net, s, a, test, time);
      if !s.info[id].inTried && !(test && TriedSlot(net, s.key, a) in s.triedTable) {
        LastGoodOnly(net, s, time);
        StatsConsistent(net, s0, id, i);
        Ops.MakeTriedKeeps(net, s1, id);
        assert t == Ops.MakeTried(net, s1, id);
        assert Ops.StableCore(s1.info[id], t.info[id]);
        MovedTimes(s, id, time, s1, t);
      } else {
        assert t.info == s1.info;
      }
    }
  }

  lemma BucketFoundIf(net: Net, s: State, id: int)
    requires Consistent(net, s) && id in s.info
    ensures s.info[id].inTried || Slots(s.newTable, id) != {}
  {
    hide Indexed, CollisionsPending, Counted;
    if !s.info[id].inTried {
      BucketFound(net, s, id);
    }
  }

  lemma MovedTimes(s: State, id: int, time: int, s1: State, t: State)
    requires TimesOk(s) && id in s.info && s1.info.Keys == s.info.Keys
    requires forall x :: x in s.info && x != id ==> s1.info[x] == s.info[x]
    requires s1.info[id].lastTry == time && s1.info[id].lastSuccess == time
    requires forall x :: x in t.info ==>
      x in s1.info && Ops.StableCore(s1.info[x], t.info[x]) && (t.info[x].inTried ==> x == id || s1.info[x].inTried)
    requires id in t.info && t.info[id].inTried
    ensures TimesOk(t) <==> time > 0
  {
    forall x | x in t.info
      ensures x in s.info && t.info[x].lastTry == s1.info[x].lastTry && t.info[x].lastSuccess == s1.info[x].lastSuccess
    {
      assert x in s1.info.Keys && Ops.StableCore(s1.info[x], t.info[x]);
    }
  }

  lemma AttemptTimes(net: Net, s: State, a: Service, count: bool, time: int)
    requires Consistent(net, s) && TimesOk(s)
    ensures TimesOk(Attempt(s, a, count, time)) <==> (Hit(s, a) ==> time >= 0)
  {
    hide Consistent;
    if Hit(s, a) {
      var id := s.addrs[a.net];
      assert Attempt(s, a, count, time).info[id].lastTry == time;
    }
  }

  lemma IntroduceTimes(s: State, a: Address, source: NetAddr, penalty: int)
    requires TimesOk(s)
    ensures TimesOk(Introduce(s, a, source, penalty))
  {
  }

  lemma AddTimes(net: Net, s: State, a: Address, source: NetAddr, timePenalty: int, now: int, now2: int, draw: nat)
    requires Consistent(net, s) && TimesOk(s)
    ensures TimesOk(Add(net, s, a, source, timePenalty, now, now2, draw).0)
  {
    hide Indexed, Tabled, CollisionsPending, Place, IsTerrible, Evolves, Introduce, TimesOk, MayReference;
    KnownIs(s, a.service.net);
    var penalty := if a.service.net == source then 0 else timePenalty;
    if net.routable(a.service.net) {
      if Known(s, a.service.net) {
        var id := s.addrs[a.service.net];
        var i := Refreshed(s.info[id], a, penalty, now);
        var s1 := Ops.WithInfo(s, id, i);
        TimesFrame(s, s1);
        StatsConsistent(net, s, id, i);
        if MayReference(i, a, draw) {
          Ops.Tighten(net, s1, {}, {id});
          PlaceTimes(net, s1, id, source, now2);
        }
      } else {
        IntroduceKeeps(net, s, a, source, penalty);
        IntroduceTimes(s, a, source, penalty);
        PlaceTimes(net, Introduce(s, a, source, penalty), s.idCount, source, now2);
      }
    }
  }

  /** Placing an entry changes places and reference counts only, or drops entries. */
  lemma PlaceEntries(net: Net, s: State, id: int, source: NetAddr, now: int)
    requires Shape(net, s, {id}) && id in s.info
    ensures var t := Place(net, s, id, source, now);
      t.idCount == s.idCount && forall x :: x in t.info ==> x in s.info && Ops.Recounted(s.info[x], t.info[x])
  {
    hide IdsAllocated, AddrIndex, TriedIndex, NewSlotsOk, RefCounts, Ops.ClearedFrom, Ops.ClearNew, Ops.Delete, IsTerrible, NewSlot;
    var u := NewSlot(net, s.key, s.info[id].service, source);
    Ops.ClearNewKeeps(net, s, u, {id});
    ClearedEntries(s, u, Ops.ClearNew(s, u));
    Ops.DeleteEntries(s, id);
    var d := Ops.Delete(s, id);
    forall x | x in d.info ensures x in s.info && Ops.Recounted(s.info[x], d.info[x]) {
      assert x in d.info.Keys && Ops.Moved(s.info[x], d.info[x]);
    }
  }

  lemma ClearedEntries(s: State, u: Slot, t: State)
    requires Ops.ClearedFrom(s, u, t)
    ensures t.idCount == s.idCount && forall x :: x in t.info ==> x in s.info && Ops.Recounted(s.info[x], t.info[x])
  {
  }

  lemma PlaceTimes(net: Net, s: State, id: int, source: NetAddr, now: int)
    requires Shape(net, s, {id}) && id in s.info && TimesOk(s)
    ensures TimesOk(Place(net, s, id, source, now))
  {
    hide Shape, Place;
    PlaceEntries(net, s, id, source, now);
    var t := Place(net, s, id, source, now);
    forall x | x in t.info ensures x in s.info && SameTimes(s.info[x], t.info[x]) {
      assert Ops.Recounted(s.info[x], t.info[x]);
    }
    TimesFrame(s, t);
  }

  /** The times an operation may be called with to keep the self-check passing. */
  ghost predicate Timely(op: Op) {
    match op
    case OpGood(_, _, time) => time > 0
    case OpAttempt(_, _, time) => time >= 0
    case OpResolveCollisions(clock) => forall id, k :: clock(id, k) > 0
    case _ => true
  }

  lemma GetAddrTimes(net: Net, s: State, draws: nat -> nat, clock: nat -> int)
    requires Consistent(net, s) && TimesOk(s)
    ensures TimesOk(GetAddrFrom(s, [], 0, GetAddrLimit(s), draws, clock).0)
  {
    hide Consistent, Evolves;
    GetAddrKeeps(net, s, [], 0, GetAddrLimit(s), draws, clock);
    var t := GetAddrFrom(s, [], 0, GetAddrLimit(s), draws, clock).0;
    forall x | x in t.info ensures x in s.info && SameTimes(s.info[x], t.info[x]) {
      assert x in t.info.Keys && Ops.Moved(s.info[x], t.info[x]);
    }
    TimesFrame(s, t);
  }

  lemma ResolveOneTimes(net: Net, s: State, id: int, clock: (int, nat) -> int)
    requires Consistent(net, s) && TimesOk(s) && forall x, k :: clock(x, k) > 0
    ensures TimesOk(ResolveOne(net, s, id, clock).0)
  {
    hide Consistent, Good, TimesOk;
    if id in s.info {
      var a := s.info[id].service;
      GoodTimes(net, s, a, false, clock(id, 3));
      GoodTimes(net, s, a, false, clock(id, 0));
    }
  }

  lemma {:induction false} ResolveTimes(net: Net, s: State, pending: seq<int>, clock: (int, nat) -> int)
    requires Consistent(net, s) && TimesOk(s) && forall x, k :: clock(x, k) > 0
    ensures TimesOk(Resolve(net, s, pending, clock))
    decreases |pending|
  {
    hide Consistent, ResolveOne, Evolves;
    if pending != [] {
      var r := ResolveOne(net, s, pending[0], clock);
      ResolveOneKeeps(net, s, pending[0], clock);
      ResolveOneTimes(net, s, pending[0], clock);
      ForgetCollision(net, r.0, pending[0]);
      ResolveTimes(net, if r.1 then r.0.(collisions := r.0.collisions - {pending[0]}) else r.0, pending[1..], clock);
    }
  }

  lemma StepTimes(net: Net, s: State, op: Op)
    requires Consistent(net, s) && TimesOk(s) && Timely(op)
    ensures TimesOk(Step(net, s, op))
  {
    hide Consistent, Good, Add, GetAddrFrom, Resolve;
    match op
    case OpAdd(a, source, penalty, now, now2, draw) => AddTimes(net, s, a, source, penalty, now, now2, draw);
    case OpGood(a, test, time) => GoodTimes(net, s, a, test, time);
    case OpAttempt(a, count, time) => AttemptTimes(net, s, a, count, time);
    case OpConnected(a, time) =>
    case OpSetServices(a, services) =>
    case OpGetAddr(draws, nows) => GetAddrTimes(net, s, draws, nows);
    case OpResolveCollisions(clock) => ResolveTimes(net, s, Ascending(s.collisions), clock);
    case OpSelectTriedCollision(draw) =>
  }

  lemma {:induction false} RunTimes(net: Net, s: State, ops: seq<Op>)
    requires Consistent(net, s) && TimesOk(s) && forall i :: 0 <= i < |ops| ==> Timely(ops[i])
    ensures TimesOk(Run(net, s, ops))
    decreases |ops|
  {
    hide Consistent, TimesOk, Step, Evolves, Timely;
    if ops != [] {
      StepKeeps(net, s, ops[0]);
      StepTimes(net, s, ops[0]);
      RunTimes(net, Step(net, s, ops[0]), ops[1..]);
    }
  }

  /** From construction with a non-null key, after any run with sensible times the source's
      own self-check finds nothing wrong. */
  lemma RunPassesCheck(net: Net, key: nat, ops: seq<Op>)
    requires key != 0 && forall i :: 0 <= i < |ops| ==> Timely(ops[i])
    ensures PassesCheck(net, Run(net, Empty(key), ops))
  {
    hide Consistent, TimesOk, Step, PassesCheck, Timely;
    EmptyConsistent(net, key);
    RunKeeps(net, Empty(key), ops);
    RunTimes(net, Empty(key), ops);
    ConsistentPassesCheck(net, Run(net, Empty(key), ops));
  }

  /** A counterexample to unconditional self-checking: Good_ at time zero moves an entry that
      was never successfully connected to into the tried table. */
  lemma GoodAtTimeZeroFailsCheck(net: Net, s: State, a: Service)
    requires Consistent(net, s) && TimesOk(s) && Hit(s, a)
    ensures !PassesCheck(net, Good(net, s, a, false, 0))
  {
    hide Consistent, Good, PassesCheck, TimesOk;
    GoodTimes(net, s, a, false, 0);
    if PassesCheck(net, Good(net, s, a, false, 0)) {
      PassesCheckTimes(net, Good(net, s, a, false, 0));
    }
  }
}
