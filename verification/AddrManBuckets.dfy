/** How far addresses spread over the buckets (src/addrman.h:95-119): nobody who controls few
    address ranges can fill the tables. */
module AddrManBuckets {
  import opened AddrManState
  import Ops = AddrManOps
  import opened AddrManRun
  import opened AddrManTheorems
  import opened AddrManOutcomes
  import opened SortedSets

  /** The one slot of an address in the tried table, and its slot in the new table for a source. */
  lemma SlotsAre(net: Net, key: nat, a: Service, source: NetAddr)
    ensures var b := net.triedHash(key, net.group(a.net), net.addressHash(key, a) % 8) % 256;
      TriedSlot(net, key, a) == Slot(b, net.positionHash(key, false, b, a) % 64)
    ensures var b := net.newHash(key, net.group(source), net.groupsHash(key, net.group(a.net), net.group(source)) % 64) % 1024;
      NewSlot(net, key, a, source) == Slot(b, net.positionHash(key, true, b, a) % 64)
  {
  }

  // ----- Tried buckets of a range -----

  /** The tried buckets that the first `n` of a range's selections give. */
  ghost function RangeBuckets(net: Net, key: nat, g: nat, n: nat): (r: set<nat>)
    ensures |r| <= n
    ensures forall i: nat :: i < n ==> net.triedHash(key, g, i) % 256 in r
  {
    if n == 0 then {} else
    RangeBuckets(net, key, g, n - 1) + {net.triedHash(key, g, n - 1) % 256}
  }

  lemma TriedBucketOf(net: Net, key: nat, a: Service)
    ensures TriedBucket(net, key, a) in RangeBuckets(net, key, net.group(a.net), 8)
  {
    hide RangeBuckets;
    assert net.addressHash(key, a) % 8 < 8;
  }

  /** The tried buckets with an address of range `g`. */
  ghost function TriedBucketsOf(net: Net, s: State, g: nat): set<nat> {
    set slot | slot in s.triedTable && s.triedTable[slot] in s.info
      && net.group(s.info[s.triedTable[slot]].service.net) == g :: slot.bucket
  }

  /** The tried addresses of one range are in at most eight of the 256 buckets. */
  lemma TriedSpread(net: Net, s: State, g: nat)
    requires Consistent(net, s)
    ensures |TriedBucketsOf(net, s, g)| <= 8
  {
    hide Indexed, NewSlotsOk, RefCounts, Counted, CollisionsPending, RangeBuckets;
    var all := RangeBuckets(net, s.key, g, 8);
    forall b | b in TriedBucketsOf(net, s, g) ensures b in all {
      var slot :| slot in s.triedTable && s.triedTable[slot] in s.info
        && net.group(s.info[s.triedTable[slot]].service.net) == g && slot.bucket == b;
      TriedBucketOf(net, s.key, s.info[s.triedTable[slot]].service);
    }
    SubsetSize(TriedBucketsOf(net, s, g), all);
  }

  // ----- New buckets of the sources -----

  /** The new buckets that the first `n` selections of a range of sources give. */
  ghost function SourceBuckets(net: Net, key: nat, g: nat, n: nat): (r: set<nat>)
    ensures |r| <= n
    ensures forall i: nat :: i < n ==> net.newHash(key, g, i) % 1024 in r
  {
    if n == 0 then {} else
    SourceBuckets(net, key, g, n - 1) + {net.newHash(key, g, n - 1) % 1024}
  }

  lemma NewBucketOf(net: Net, key: nat, a: Service, source: NetAddr)
    ensures NewBucket(net, key, a, source) in SourceBuckets(net, key, net.group(source), 64)
  {
    hide SourceBuckets;
    assert net.groupsHash(key, net.group(a.net), net.group(source)) % 64 < 64;
  }

  /** All addresses of one range that sources of one range announce go into one bucket. */
  lemma RangesDecide(net: Net, key: nat, a: Service, source: NetAddr, a': Service, source': NetAddr)
    requires net.group(a.net) == net.group(a'.net) && net.group(source) == net.group(source')
    ensures NewBucket(net, key, a, source) == NewBucket(net, key, a', source')
  {
  }

  /** The new buckets that any of these ranges of sources selects. */
  ghost function BucketsOf(net: Net, key: nat, groups: set<nat>): (r: set<nat>)
    ensures |r| <= 64 * |groups|
    ensures forall b :: b in r <==> exists g :: g in groups && b in SourceBuckets(net, key, g, 64)
  {
    if groups == {} then {} else
    var g :| g in groups;
    var rest := BucketsOf(net, key, groups - {g});
    var own := SourceBuckets(net, key, g, 64);
    assert |rest + own| == |rest| + |own| - |rest * own|;
    assert forall x :: x in groups <==> x == g || x in groups - {g};
    rest + own
  }

  /** All entries were announced by these ranges, and all references are in their buckets. */
  ghost predicate FromGroups(net: Net, s: State, groups: set<nat>) {
    && (forall id :: id in s.info ==> net.group(s.info[id].source) in groups)
    && (forall slot :: slot in s.newTable ==> slot.bucket in BucketsOf(net, s.key, groups))
  }

  lemma SlotFrom(net: Net, key: nat, a: Service, source: NetAddr, groups: set<nat>)
    requires net.group(source) in groups
    ensures NewSlot(net, key, a, source).bucket in BucketsOf(net, key, groups)
  {
    hide SourceBuckets, NewBucket, BucketsOf;
    NewBucketOf(net, key, a, source);
  }

  /** Entries only disappear or keep their source. */
  ghost predicate SameSources(s: State, t: State) {
    forall x :: x in t.info ==> x in s.info && t.info[x].source == s.info[x].source
  }

  lemma FromSame(net: Net, s: State, t: State, groups: set<nat>)
    requires FromGroups(net, s, groups) && SameSources(s, t) && t.newTable == s.newTable && t.key == s.key
    ensures FromGroups(net, t, groups)
  {
    hide BucketsOf;
  }

  /** One slot that a source of these ranges selects was taken, if any. */
  lemma FromOneMore(net: Net, s: State, t: State, u: Slot, id: int, groups: set<nat>)
    requires FromGroups(net, s, groups) && t.key == s.key && u.bucket in BucketsOf(net, s.key, groups)
    requires t.newTable == s.newTable || t.newTable == s.newTable[u := id]
    requires forall x :: x in t.info ==> net.group(t.info[x].source) in groups
    ensures FromGroups(net, t, groups)
  {
    hide BucketsOf;
  }

  lemma AddFrom(net: Net, s: State, a: Address, source: NetAddr, penalty: int, now: int, now2: int, draw: nat, groups: set<nat>)
    requires Consistent(net, s) && FromGroups(net, s, groups) && net.group(source) in groups
    ensures FromGroups(net, Add(net, s, a, source, penalty, now, now2, draw).0, groups)
  {
    hide Consistent, Add, MayTake, BucketsOf, NewSlot, Reannounced, NewTime, Penalized, GivesWay, FromGroups, Renewed, Entered;
    AddOutcome(net, s, a, source, penalty, now, now2, draw);
    if net.routable(a.service.net) {
      AddEntryOutcome(net, s, a, source, penalty, now, now2, draw);
      var t, p := Add(net, s, a, source, penalty, now, now2, draw).0, if a.service.net == source then 0 else penalty;
      if a.service.net in s.addrs {
        var id := s.addrs[a.service.net];
        RenewedSources(net, s, id, a, p, now, t, groups);
        SlotFrom(net, s.key, s.info[id].service, source, groups);
        FromOneMore(net, s, t, NewSlot(net, s.key, s.info[id].service, source), id, groups);
      } else {
        EnteredSources(net, s, a, source, p, t, groups);
        SlotFrom(net, s.key, a.service, source, groups);
        FromOneMore(net, s, t, NewSlot(net, s.key, a.service, source), s.idCount, groups);
      }
    }
  }

  lemma RenewedSources(net: Net, s: State, id: int, a: Address, p: int, now: int, t: State, groups: set<nat>)
    requires FromGroups(net, s, groups) && Renewed(s, id, a, p, now, t)
    ensures forall x :: x in t.info ==> net.group(t.info[x].source) in groups
  {
    hide BucketsOf, NewTime;
    forall x | x in t.info ensures net.group(t.info[x].source) in groups {
      assert x in s.info && net.group(s.info[x].source) in groups;
    }
  }

  lemma EnteredSources(net: Net, s: State, a: Address, source: NetAddr, p: int, t: State, groups: set<nat>)
    requires FromGroups(net, s, groups) && Entered(s, a, source, p, t) && net.group(source) in groups
    ensures forall x :: x in t.info ==> net.group(t.info[x].source) in groups
  {
    hide BucketsOf, Penalized;
    forall x | x in t.info ensures net.group(t.info[x].source) in groups {
      assert x != s.idCount ==> x in s.info && net.group(s.info[x].source) in groups;
    }
  }

  /** A move to the tried table gives the displaced entry a slot that its own source selects. */
  lemma MoveFrom(net: Net, s: State, id: int, test: bool, time: int, t: State, groups: set<nat>)
    requires FromGroups(net, s, groups) && id in s.info && GoodMoves(net, s, id, test, time, t) && t.key == s.key
    ensures FromGroups(net, t, groups)
  {
    hide BucketsOf, NewSlot, TriedSlot, FromGroups, NewTableAfterMove;
    MovedSources(net, s, id, test, time, t, groups);
    var k := TriedSlot(net, s.key, s.info[id].service);
    MovedTables(net, s, id, k, groups);
    var cleared := t.(newTable := s.newTable - Slots(s.newTable, id));
    FewerFrom(net, s, cleared, groups);
    if t.newTable == s.newTable {
      FewerFrom(net, s, t, groups);
    } else if k in s.triedTable && s.triedTable[k] in s.info {
      var e := s.triedTable[k];
      SlotFrom(net, s.key, s.info[e].service, s.info[e].source, groups);
      FromOneMore(net, cleared, t, NewSlot(net, s.key, s.info[e].service, s.info[e].source), e, groups);
    } else {
      FewerFrom(net, s, t, groups);
    }
  }

  lemma MovedTables(net: Net, s: State, id: int, k: Slot, groups: set<nat>)
    requires FromGroups(net, s, groups)
    ensures var cleared := s.newTable - Slots(s.newTable, id);
      NewTableAfterMove(net, s, id, k) == if k in s.triedTable && s.triedTable[k] in s.info
        then var e := s.triedTable[k]; cleared[NewSlot(net, s.key, s.info[e].service, s.info[e].source) := e] else cleared
    ensures k in s.triedTable && s.triedTable[k] in s.info ==> net.group(s.info[s.triedTable[k]].source) in groups
  {
    hide BucketsOf, NewSlot, Slots;
  }

  lemma FewerFrom(net: Net, s: State, t: State, groups: set<nat>)
    requires FromGroups(net, s, groups) && t.key == s.key && t.newTable.Keys <= s.newTable.Keys
    requires forall x :: x in t.info ==> net.group(t.info[x].source) in groups
    ensures FromGroups(net, t, groups)
  {
    hide BucketsOf;
  }

  lemma MovedSources(net: Net, s: State, id: int, test: bool, time: int, t: State, groups: set<nat>)
    requires FromGroups(net, s, groups) && id in s.info && GoodMoves(net, s, id, test, time, t)
    ensures forall x :: x in t.info ==> net.group(t.info[x].source) in groups
  {
    hide BucketsOf, NewTableAfterMove, TriedSlot;
    forall x | x in t.info ensures net.group(t.info[x].source) in groups {
      assert x != id ==> x in s.info && Ops.StableCore(s.info[x], t.info[x]);
      assert net.group(s.info[x].source) in groups;
    }
  }

  lemma GoodFrom(net: Net, s: State, a: Service, test: bool, time: int, groups: set<nat>)
    requires Consistent(net, s) && FromGroups(net, s, groups)
    ensures FromGroups(net, Good(net, s, a, test, time), groups)
  {
    hide Consistent, Good, GoodMoves, FromGroups;
    GoodOutcome(net, s, a, test, time);
    GoodKeeps(net, s, a, test, time);
    var t := Good(net, s, a, test, time);
    if Hit(s, a) {
      MoveFrom(net, s, s.addrs[a.net], test, time, t, groups);
    } else {
      FromSame(net, s, t, groups);
    }
  }

  lemma {:induction false} ResolveFrom(net: Net, s: State, pending: seq<int>, clock: (int, nat) -> int, groups: set<nat>)
    requires Consistent(net, s) && FromGroups(net, s, groups)
    ensures FromGroups(net, Resolve(net, s, pending, clock), groups)
    decreases |pending|
  {
    hide Consistent, ResolveOne, FromGroups, Evolves;
    if pending != [] {
      var r := ResolveOne(net, s, pending[0], clock);
      ResolveOneKeeps(net, s, pending[0], clock);
      ResolveOneFrom(net, s, pending[0], clock, groups);
      ForgetCollision(net, r.0, pending[0]);
      FromSame(net, r.0, r.0.(collisions := r.0.collisions - {pending[0]}), groups);
      ResolveFrom(net, if r.1 then r.0.(collisions := r.0.collisions - {pending[0]}) else r.0, pending[1..], clock, groups);
    }
  }

  lemma ResolveOneFrom(net: Net, s: State, id: int, clock: (int, nat) -> int, groups: set<nat>)
    requires Consistent(net, s) && FromGroups(net, s, groups)
    ensures FromGroups(net, ResolveOne(net, s, id, clock).0, groups)
  {
    hide Consistent, Good, FromGroups;
    if id in s.info {
      var a := s.info[id].service;
      GoodFrom(net, s, a, false, clock(id, 3), groups);
      GoodFrom(net, s, a, false, clock(id, 0), groups);
    }
  }

  lemma GetAddrFromSame(net: Net, s: State, draws: nat -> nat, clock: nat -> int, groups: set<nat>)
    requires Consistent(net, s) && FromGroups(net, s, groups)
    ensures FromGroups(net, GetAddrFrom(s, [], 0, GetAddrLimit(s), draws, clock).0, groups)
  {
    hide Consistent, Evolves, FromGroups, GetAddrFrom;
    GetAddrKeeps(net, s, [], 0, GetAddrLimit(s), draws, clock);
    var t := GetAddrFrom(s, [], 0, GetAddrLimit(s), draws, clock).0;
    forall x | x in t.info ensures x in s.info && t.info[x].source == s.info[x].source {
      assert x in t.info.Keys && Ops.Moved(s.info[x], t.info[x]);
    }
    GetAddrTables(s, [], 0, GetAddrLimit(s), draws, clock);
    FromSame(net, s, t, groups);
  }

  lemma {:induction false} GetAddrTables(s: State, picked: seq<int>, n: nat, limit: nat, draws: nat -> nat, clock: nat -> int)
    requires n <= |s.random|
    ensures var t := GetAddrFrom(s, picked, n, limit, draws, clock).0; t.newTable == s.newTable && t.key == s.key
    decreases |s.random| - n
  {
    hide IsTerrible, Ops.SwapRandom, GetAddrFrom, WithPick;
    GetAddrUnfold(s, picked, n, limit, draws, clock);
    if n < |s.random| && |picked| < limit {
      var t := Ops.SwapRandom(s, n, draws(n) % (|s.random| - n) + n);
      Ops.SwapFields(s, n, draws(n) % (|s.random| - n) + n);
      GetAddrTables(t, WithPick(t, picked, n, clock(n)), n + 1, limit, draws, clock);
    }
  }

  /** Addresses are announced by sources of these ranges only. */
  ghost predicate Announces(net: Net, op: Op, groups: set<nat>) {
    op.OpAdd? ==> net.group(op.source) in groups
  }

  lemma StepFrom(net: Net, s: State, op: Op, groups: set<nat>)
    requires Consistent(net, s) && FromGroups(net, s, groups) && Announces(net, op, groups)
    ensures FromGroups(net, Step(net, s, op), groups)
  {
    hide Consistent, Good, Add, GetAddrFrom, Resolve, SelectTriedCollision, FromGroups;
    match op
    case OpAdd(a, source, penalty, now, now2, draw) => AddFrom(net, s, a, source, penalty, now, now2, draw, groups);
    case OpGood(a, test, time) => GoodFrom(net, s, a, test, time, groups);
    case OpGetAddr(draws, nows) => GetAddrFromSame(net, s, draws, nows, groups);
    case OpResolveCollisions(clock) => ResolveFrom(net, s, Ascending(s.collisions), clock, groups);
    case OpSelectTriedCollision(draw) => SelectFrom(net, s, draw, groups);
    case _ => QuietFrom(net, s, op, groups);
  }

  lemma SelectFrom(net: Net, s: State, draw: nat, groups: set<nat>)
    requires Consistent(net, s) && FromGroups(net, s, groups)
    ensures FromGroups(net, SelectTriedCollision(net, s, draw).0, groups)
  {
    hide Consistent, FromGroups, SelectTriedCollision, Evolves, Blocks, Drawn;
    SelectionKnown(net, s, draw);
    FromSame(net, s, SelectTriedCollision(net, s, draw).0, groups);
  }

  lemma QuietFrom(net: Net, s: State, op: Op, groups: set<nat>)
    requires FromGroups(net, s, groups) && (op.OpAttempt? || op.OpConnected? || op.OpSetServices?)
    ensures FromGroups(net, Step(net, s, op), groups)
  {
    hide FromGroups, Good, Add, GetAddrFrom, Resolve, SelectTriedCollision;
    FromSame(net, s, Step(net, s, op), groups);
  }

  lemma {:induction false} RunFrom(net: Net, s: State, ops: seq<Op>, groups: set<nat>)
    requires Consistent(net, s) && FromGroups(net, s, groups)
    requires forall i :: 0 <= i < |ops| ==> Announces(net, ops[i], groups)
    ensures FromGroups(net, Run(net, s, ops), groups)
    decreases |ops|
  {
    hide Consistent, Step, Evolves, FromGroups;
    if ops != [] {
      assert Announces(net, ops[0], groups);
      StepKeeps(net, s, ops[0]);
      StepFrom(net, s, ops[0], groups);
      RunFrom(net, Step(net, s, ops[0]), ops[1..], groups);
    }
  }

  ghost function NewBucketsUsed(s: State): set<nat> {
    set slot | slot in s.newTable :: slot.bucket
  }

  // ----- Slots -----

  /** The slots of a bucket below position `n`. */
  ghost function SlotsBelow(b: nat, n: nat): (r: set<Slot>)
    ensures |r| <= n && forall slot :: slot in r <==> slot.bucket == b && slot.pos < n
  {
    if n == 0 then {} else
    var r := SlotsBelow(b, n - 1) + {Slot(b, n - 1)};
    assert forall slot: Slot :: slot.bucket == b && slot.pos < n ==> slot.pos < n - 1 || slot == Slot(b, n - 1);
    r
  }

  /** A table whose positions are below 64 has at most 64 slots for each bucket. */
  lemma {:induction false} SlotsPerBucket(slots: set<Slot>, buckets: set<nat>)
    requires forall slot :: slot in slots ==> slot.bucket in buckets && slot.pos < 64
    ensures |slots| <= 64 * |buckets|
    decreases |buckets|
  {
    if buckets == {} {
      assert slots == {};
    } else {
      var b :| b in buckets;
      var here := SlotsBelow(b, 64);
      SlotsPerBucket(slots - here, buckets - {b});
      SubsetSize(slots, (slots - here) + here);
    }
  }

  /** Positions in a bucket are below 64. */
  lemma PositionsFit(net: Net, s: State, slot: Slot)
    requires Consistent(net, s) && slot in s.newTable
    ensures slot.pos < 64
  {
    hide Indexed, TriedIndex, RefCounts, Counted, CollisionsPending;
  }

  /** So sources of k ranges fill at most 4096 * k new slots. */
  lemma RunSlots(net: Net, key: nat, ops: seq<Op>, groups: set<nat>)
    requires forall i :: 0 <= i < |ops| ==> Announces(net, ops[i], groups)
    ensures |Run(net, Empty(key), ops).newTable| <= 4096 * |groups|
  {
    hide Consistent, Run, Evolves, TriedBucketsOf;
    var t := Run(net, Empty(key), ops);
    RunSpread(net, key, ops, groups, 0);
    EmptyConsistent(net, key);
    RunKeeps(net, Empty(key), ops);
    forall slot | slot in t.newTable.Keys ensures slot.bucket in NewBucketsUsed(t) && slot.pos < 64 {
      PositionsFit(net, t, slot);
    }
    SlotsPerBucket(t.newTable.Keys, NewBucketsUsed(t));
  }

  /** Whatever is done, sources of k address ranges fill at most 64 * k of the 1024 new buckets,
      and addresses of one range are in at most eight of the 256 tried ones. */
  lemma RunSpread(net: Net, key: nat, ops: seq<Op>, groups: set<nat>, g: nat)
    requires forall i :: 0 <= i < |ops| ==> Announces(net, ops[i], groups)
    ensures |NewBucketsUsed(Run(net, Empty(key), ops))| <= 64 * |groups|
    ensures |TriedBucketsOf(net, Run(net, Empty(key), ops), g)| <= 8
  {
    hide Consistent, Run, BucketsOf, Evolves, TriedBucketsOf;
    var t := Run(net, Empty(key), ops);
    EmptyConsistent(net, key);
    RunFrom(net, Empty(key), ops, groups);
    RunKeeps(net, Empty(key), ops);
    TriedSpread(net, t, g);
    SubsetSize(NewBucketsUsed(t), BucketsOf(net, t.key, groups));
  }
}
