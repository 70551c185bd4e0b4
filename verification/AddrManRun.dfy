/** The public operations of the address manager (src/addrman.cpp:190-349, 476-619), and
    what holds after every run of them. Clock readings and random draws are arguments. */
module AddrManRun {
  import opened AddrManState
  import Ops = AddrManOps
  import opened Powers
  import opened SortedSets

  function AsUint32(x: int): nat {
    x % 0x1_0000_0000
  }

  function NonNegative(x: int): nat {
    if x < 0 then 0 else x
  }

  /** `Find`: whether an entry is known for the IP address of `a`. */
  predicate Known(s: State, a: NetAddr) {
    a in s.addrs && s.addrs[a] in s.info
  }

  /** Known under exactly this service, port included. */
  predicate Hit(s: State, a: Service) {
    Known(s, a.net) && (var id := s.addrs[a.net]; s.info[id].service == a)
  }

  function Good(net: Net, s: State, a: Service, testBeforeEvict: bool, time: int): State {
    var s0 := s.(lastGood := time);
    if !Hit(s, a) then s0 else
    var id := s.addrs[a.net];
    var s1 := Ops.WithInfo(s0, id, s.info[id].(lastSuccess := time, lastTry := time, attempts := 0));
    if s.info[id].inTried then s1
    else if Slots(s.newTable, id) == {} then s1
    else if testBeforeEvict && TriedSlot(net, s.key, a) in s.triedTable then
      if |s.collisions| < SET_TRIED_COLLISION_SIZE then s1.(collisions := s.collisions + {id}) else s1
    else Ops.MakeTried(net, s1, id)
  }

  /** Puts `id` into the new bucket chosen by `source`, or drops it when the slot is taken. */
  function Place(net: Net, s: State, id: int, source: NetAddr, now: int): State
    requires id in s.info
  {
    var u := NewSlot(net, s.key, s.info[id].service, source);
    if u in s.newTable && s.newTable[u] == id then s
    else if Overwrites(s, u, id, now) then Ops.List(Ops.ClearNew(s, u), u, id)
    else if s.info[id].refCount == 0 then Ops.Delete(s, id)
    else s
  }

  predicate Overwrites(s: State, u: Slot, id: int, now: int)
    requires id in s.info
  {
    || u !in s.newTable
    || (var x := s.newTable[u];
        x in s.info && (IsTerrible(s.info[x], now) || (s.info[x].refCount > 1 && s.info[id].refCount == 0)))
  }

  /** The refreshed statistics of a known entry that is announced again. */
  function Refreshed(i: Info, a: Address, penalty: int, now: int): Info {
    var interval := if now - a.nTime < 24 * 60 * 60 then 60 * 60 else 24 * 60 * 60;
    var nTime := if a.nTime != 0 && (i.nTime == 0 || i.nTime < a.nTime - interval - penalty)
                 then AsUint32(NonNegative(a.nTime - penalty)) else i.nTime;
    i.(nTime := nTime, services := i.services | a.services)
  }

  /** Whether a known, refreshed entry may get one more reference. */
  predicate MayReference(i: Info, a: Address, draw: nat) {
    && a.nTime != 0 && !(i.nTime != 0 && a.nTime <= i.nTime)
    && !i.inTried
    && i.refCount != NEW_BUCKETS_PER_ADDRESS
    && (var factor := Pow(2, NonNegative(i.refCount)); factor > 1 ==> draw % factor == 0)
  }

  function Add(net: Net, s: State, a: Address, source: NetAddr, timePenalty: int, now: int, now2: int, draw: nat): (State, bool) {
    if !net.routable(a.service.net) then (s, false) else
    var penalty := if a.service.net == source then 0 else timePenalty;
    if Known(s, a.service.net) then
      var id := s.addrs[a.service.net];
      var i := Refreshed(s.info[id], a, penalty, now);
      var s1 := Ops.WithInfo(s, id, i);
      (if MayReference(i, a, draw) then Place(net, s1, id, source, now2) else s1, false)
    else
      (Place(net, Introduce(s, a, source, penalty), s.idCount, source, now2), true)
  }

  /** A new entry, not yet in any table. */
  function Introduce(s: State, a: Address, source: NetAddr, penalty: int): State {
    Ops.Create(s, a.(nTime := AsUint32(NonNegative(a.nTime - penalty))), source).(nNew := s.nNew + 1)
  }

  function Attempt(s: State, a: Service, countFailure: bool, time: int): State {
    if !Hit(s, a) then s else
    var id := s.addrs[a.net];
    var i := s.info[id].(lastTry := time);
    Ops.WithInfo(s, id, if countFailure && i.lastCountAttempt < s.lastGood
                        then i.(lastCountAttempt := time, attempts := i.attempts + 1) else i)
  }

  function Connected(s: State, a: Service, time: int): State {
    if !Hit(s, a) then s else
    var id := s.addrs[a.net];
    if time - s.info[id].nTime > 20 * 60 then Ops.WithInfo(s, id, s.info[id].(nTime := AsUint32(time))) else s
  }

  function SetServices(s: State, a: Service, services: bv64): State {
    if !Hit(s, a) then s else
    var id := s.addrs[a.net];
    Ops.WithInfo(s, id, s.info[id].(services := services))
  }

  function GetAddrLimit(s: State): nat {
    var n := GETADDR_MAX_PCT * |s.random| / 100;
    if n > GETADDR_MAX then GETADDR_MAX else n
  }

  /** The selection loop from its n-th round on: `draws(n)` picks among the remaining ids. */
  function GetAddrFrom(s: State, picked: seq<int>, n: nat, limit: nat, draws: nat -> nat, clock: nat -> int): (State, seq<int>)
    requires n <= |s.random|
    decreases |s.random| - n
  {
    if n == |s.random| || |picked| >= limit then (s, picked) else
    var t := Ops.SwapRandom(s, n, draws(n) % (|s.random| - n) + n);
    GetAddrFrom(t, WithPick(t, picked, n, clock(n)), n + 1, limit, draws, clock)
  }

  /** Adds the n-th id of the random order unless its entry is terrible. */
  function WithPick(t: State, picked: seq<int>, n: nat, now: int): seq<int>
    requires n < |t.random|
  {
    var id := t.random[n];
    if id in t.info && !IsTerrible(t.info[id], now) then picked + [id] else picked
  }

  lemma PickIs(t: State, picked: seq<int>, n: nat, now: int)
    requires n < |t.random| && (var id := t.random[n]; id in t.info)
    ensures var id := t.random[n]; WithPick(t, picked, n, now) == if IsTerrible(t.info[id], now) then picked else picked + [id]
  {
    hide IsTerrible;
  }

  lemma GetAddrUnfold(s: State, ids: seq<int>, n: nat, limit: nat, draws: nat -> nat, clock: nat -> int)
    requires n <= |s.random|
    ensures GetAddrFrom(s, ids, n, limit, draws, clock) ==
      if n == |s.random| || |ids| >= limit then (s, ids) else
      var t := Ops.SwapRandom(s, n, draws(n) % (|s.random| - n) + n);
      GetAddrFrom(t, WithPick(t, ids, n, clock(n)), n + 1, limit, draws, clock)
  {
    hide Ops.SwapRandom, IsTerrible;
  }

  /** One pending collision. `clock(id, k)` is the k-th reading of the time spent on it. */
  function ResolveOne(net: Net, s: State, id: int, clock: (int, nat) -> int): (State, bool) {
    if id !in s.info then (s, true) else
    var a := s.info[id].service;
    var k := TriedSlot(net, s.key, a);
    if !net.valid(a.net) then (s, true)
    else if k in s.triedTable && s.triedTable[k] in s.info then
      var idOld := s.triedTable[k];
      var occupant := s.info[idOld];
      if clock(id, 0) - occupant.lastSuccess < REPLACEMENT_HOURS * 60 * 60 then (s, true)
      else if clock(id, 1) - occupant.lastTry < REPLACEMENT_HOURS * 60 * 60 then
        if clock(id, 2) - occupant.lastTry > 60 then (Good(net, s, a, false, clock(id, 3)), true) else (s, false)
      else if clock(id, 2) - s.info[id].lastSuccess > TEST_WINDOW then (Good(net, s, a, false, clock(id, 3)), true)
      else (s, false)
    else (Good(net, s, a, false, clock(id, 0)), true)
  }

  function Resolve(net: Net, s: State, pending: seq<int>, clock: (int, nat) -> int): State
    decreases |pending|
  {
    if pending == [] then s else
    var r := ResolveOne(net, s, pending[0], clock);
    var s1 := if r.1 then r.0.(collisions := r.0.collisions - {pending[0]}) else r.0;
    Resolve(net, s1, pending[1..], clock)
  }

  /** `UnknownId` stands for the look-up of an id that `mapInfo` does not have. */
  datatype Selection = Nothing | Chosen(info: Info) | UnknownId

  function SelectTriedCollision(net: Net, s: State, draw: nat): (State, Selection) {
    if s.collisions == {} then (s, Nothing) else
    var ids := Ascending(s.collisions);
    var id := ids[draw % |ids|];
    if id !in s.info then (s.(collisions := s.collisions - {id}), Nothing) else
    var k := TriedSlot(net, s.key, s.info[id].service);
    if k in s.triedTable && s.triedTable[k] in s.info then
      var idOld := s.triedTable[k];
      (s, Chosen(s.info[idOld]))
    else (s, UnknownId)
  }

  datatype Op =
    | OpAdd(addr: Address, source: NetAddr, penalty: int, now: int, now2: int, draw: nat)
    | OpGood(service: Service, testBeforeEvict: bool, time: int)
    | OpAttempt(service: Service, countFailure: bool, time: int)
    | OpConnected(service: Service, time: int)
    | OpSetServices(service: Service, services: bv64)
    | OpGetAddr(draws: nat -> nat, nows: nat -> int)
    | OpResolveCollisions(clock: (int, nat) -> int)
    | OpSelectTriedCollision(draw: nat)

  function Step(net: Net, s: State, op: Op): State {
    match op
    case OpAdd(a, source, penalty, now, now2, draw) => Add(net, s, a, source, penalty, now, now2, draw).0
    case OpGood(a, test, time) => Good(net, s, a, test, time)
    case OpAttempt(a, count, time) => Attempt(s, a, count, time)
    case OpConnected(a, time) => Connected(s, a, time)
    case OpSetServices(a, services) => SetServices(s, a, services)
    case OpGetAddr(draws, nows) => GetAddrFrom(s, [], 0, GetAddrLimit(s), draws, nows).0
    case OpResolveCollisions(clock) => Resolve(net, s, Ascending(s.collisions), clock)
    case OpSelectTriedCollision(draw) => SelectTriedCollision(net, s, draw).0
  }

  function Run(net: Net, s: State, ops: seq<Op>): State
    decreases |ops|
  {
    if ops == [] then s else Run(net, Step(net, s, ops[0]), ops[1..])
  }
}
