/** Reading back what was written restores the address manager up to one renaming of ids. */
module AddrManRoundTrip {
  import opened AddrManState
  import Ops = AddrManOps
  import opened AddrManSave
  import opened SortedSets

  // ----- The order in which entries are written -----

  lemma {:induction false} ListedFacts(info: Infos, ids: seq<int>)
    requires IsAscending(ids)
    ensures IsAscending(Listed(info, ids))
    ensures forall x :: x in Listed(info, ids) <==> x in ids && x in info && info[x].refCount != 0
  {
    if ids != [] {
      var last, front := ids[|ids| - 1], ids[..|ids| - 1];
      ListedFacts(info, front);
      Split(ids);
      Appended(Listed(info, front), front, last, last in info && info[last].refCount != 0);
    }
  }

  lemma {:induction false} TriedFacts(info: Infos, ids: seq<int>)
    requires IsAscending(ids)
    ensures IsAscending(Tried(info, ids))
    ensures forall x :: x in Tried(info, ids) <==> x in ids && x in info && info[x].inTried
  {
    if ids != [] {
      var last, front := ids[|ids| - 1], ids[..|ids| - 1];
      TriedFacts(info, front);
      Split(ids);
      Appended(Tried(info, front), front, last, last in info && info[last].inTried);
    }
  }

  lemma Split(ids: seq<int>)
    requires ids != [] && IsAscending(ids)
    ensures var last, front := ids[|ids| - 1], ids[..|ids| - 1];
      && IsAscending(front) && (forall x :: x in ids <==> x in front || x == last) && (forall x :: x in front ==> x < last)
  {
    var last, front := ids[|ids| - 1], ids[..|ids| - 1];
    assert ids == front + [last];
  }

  lemma Appended(a: seq<int>, front: seq<int>, last: int, more: bool)
    requires IsAscending(a) && (forall x :: x in a ==> x in front) && (forall x :: x in front ==> x < last)
    ensures var b := a + if more then [last] else [];
      IsAscending(b) && forall x :: x in b <==> x in a || (more && x == last)
  {
    var b := a + if more then [last] else [];
    forall i, j | 0 <= i < j < |b| ensures b[i] < b[j] {
      if j == |a| {
        var x := a[i];
        assert x in a;
      }
    }
  }

  /** An entry is written under its position in the list of referenced ids. */
  lemma {:induction false} IndexFacts(info: Infos, ids: seq<int>, id: int)
    requires IsAscending(ids) && id in Listed(info, ids)
    ensures var a, k := Listed(info, ids), Index(info, ids, id); k < |a| && a[k] == id
  {
    var last, front := ids[|ids| - 1], ids[..|ids| - 1];
    Split(ids);
    ListedFacts(info, ids);
    ListedFacts(info, front);
    if last == id {
      if front != [] {
        var x := front[|front| - 1];
        assert x in front;
      }
      assert Index(info, front, id) == |Listed(info, front)|;
    } else {
      assert id in Listed(info, front);
      IndexFacts(info, front, id);
    }
  }

  lemma {:induction false} EntriesAt(info: Infos, ids: seq<int>)
    requires forall i :: 0 <= i < |ids| ==> var id := ids[i]; id in info
    ensures |Entries(info, ids)| == |ids|
    ensures forall i :: 0 <= i < |ids| ==> var id := ids[i]; Entries(info, ids)[i] == TEntry(Save(info[id]))
  {
    if ids != [] {
      var id := ids[|ids| - 1];
      EntriesAt(info, ids[..|ids| - 1]);
    }
  }

  // ----- The written ids -----

  /** The ids in the order they are written: new entries first, then tried ones. The entry at
      place `i` is read back under id `i`. */
  ghost function Written(s: State): seq<int> {
    var ids := Ascending(s.info.Keys);
    Listed(s.info, ids) + Tried(s.info, ids)
  }

  ghost predicate Enumerates(s: State, l: seq<int>) {
    && |l| == s.nNew + s.nTried && s.nNew >= 0 && s.nTried >= 0
    && (forall i :: 0 <= i < |l| ==> var id := l[i]; id in s.info && (s.info[id].inTried <==> i >= s.nNew))
    && (forall i, j :: 0 <= i < j < |l| ==> l[i] != l[j])
    && (forall id :: id in s.info ==> id in l)
  }

  lemma ReferencedIffNew(net: Net, s: State, x: int)
    requires Consistent(net, s) && x in s.info
    ensures s.info[x].refCount != 0 <==> !s.info[x].inTried
  {
    hide Indexed, TriedIndex, CollisionsPending, Counted;
    if s.info[x].inTried { Ops.NoSlots(net, s, x, {}); }
  }

  lemma WrittenParts(net: Net, s: State)
    requires Consistent(net, s)
    ensures var ids := Ascending(s.info.Keys);
      && Lists(Listed(s.info, ids), NewIds(s.info)) && |Listed(s.info, ids)| == s.nNew
      && Lists(Tried(s.info, ids), TriedIds(s.info)) && |Tried(s.info, ids)| == s.nTried
  {
    hide Shape, CollisionsPending, IsAscending;
    var ids := Ascending(s.info.Keys);
    var a, b := Listed(s.info, ids), Tried(s.info, ids);
    ListedFacts(s.info, ids);
    TriedFacts(s.info, ids);
    forall x | x in s.info ensures s.info[x].refCount != 0 <==> !s.info[x].inTried {
      ReferencedIffNew(net, s, x);
    }
    AscendingLists(a, NewIds(s.info));
    AscendingLists(b, TriedIds(s.info));
  }

  /** `a` lists the elements of `ids`, each once. */
  ghost predicate Lists(a: seq<int>, ids: set<int>) {
    && (forall i :: 0 <= i < |a| ==> var x := a[i]; x in ids)
    && (forall i, j :: 0 <= i < j < |a| ==> a[i] != a[j])
    && (forall x :: x in ids ==> x in a)
  }

  lemma AscendingLists(a: seq<int>, ids: set<int>)
    requires IsAscending(a) && forall x :: x in a <==> x in ids
    ensures Lists(a, ids) && |a| == |ids|
  {
    forall i | 0 <= i < |a| ensures var x := a[i]; x in ids {
      var x := a[i];
      assert x in a;
    }
    RandomCounts(a, ids);
  }

  lemma Concat(s: State, a: seq<int>, b: seq<int>)
    requires Lists(a, NewIds(s.info)) && Lists(b, TriedIds(s.info)) && |a| == s.nNew && |b| == s.nTried
    ensures Enumerates(s, a + b)
  {
    var l := a + b;
    forall i | 0 <= i < |l| ensures var id := l[i]; id in s.info && (s.info[id].inTried <==> i >= s.nNew) {
      var id := l[i];
      if i < |a| { assert id == a[i]; } else { assert id == b[i - |a|]; }
    }
    forall i, j | 0 <= i < j < |l| ensures l[i] != l[j] {
      if i < |a| && j >= |a| {
        var x, y := a[i], b[j - |a|];
        assert x in NewIds(s.info) && y in TriedIds(s.info);
      }
    }
    forall id | id in s.info ensures id in l {
      assert id in NewIds(s.info) || id in TriedIds(s.info);
    }
  }

  lemma WrittenEnumerates(net: Net, s: State)
    requires Consistent(net, s)
    ensures Enumerates(s, Written(s))
  {
    hide Consistent, Lists;
    WrittenParts(net, s);
    var ids := Ascending(s.info.Keys);
    Concat(s, Listed(s.info, ids), Tried(s.info, ids));
  }

  // ----- Reading the entries back -----

  /** The entry read back for `i`: memory-only statistics are reset. */
  ghost function Copy(i: Info, pos: int, refs: int): Info {
    Load(Save(i)).(randomPos := pos, inTried := i.inTried, refCount := refs)
  }

  /** The first `k` written entries are back, counting the references of the slots in `done`. */
  ghost predicate EntriesBack(s: State, l: seq<int>, k: int, done: set<Slot>, info: Infos)
    requires 0 <= k <= |l|
  {
    && (forall i :: i in info <==> 0 <= i < k)
    && (forall i :: 0 <= i < k ==> var id := l[i]; id in s.info && info[i] == Copy(s.info[id], i, |Slots(s.newTable, id) * done|))
  }

  ghost predicate AddrsBack(s: State, l: seq<int>, k: int, addrs: map<NetAddr, int>)
    requires 0 <= k <= |l|
  {
    && (forall i :: 0 <= i < k ==> var id := l[i]; id in s.info && s.info[id].service.net in addrs && addrs[s.info[id].service.net] == i)
    && (forall a :: a in addrs ==> var i := addrs[a]; 0 <= i < k && (var id := l[i]; id in s.info && s.info[id].service.net == a))
  }

  ghost predicate Counting(random: seq<int>, k: int) {
    |random| == k && forall i :: 0 <= i < k ==> random[i] == i
  }

  ghost predicate EntryPart(s: State, l: seq<int>, k: int, done: set<Slot>, t: State)
    requires 0 <= k <= |l|
  {
    EntriesBack(s, l, k, done, t.info) && AddrsBack(s, l, k, t.addrs) && Counting(t.random, k)
  }

  /** The other fields, which reading entries does not touch. */
  ghost predicate RestSame(t: State, t': State) {
    && t'.key == t.key && t'.nTried == t.nTried && t'.nNew == t.nNew && t'.newTable == t.newTable
    && t'.lastGood == t.lastGood && t'.collisions == t.collisions
  }

  lemma EntryBack(s: State, l: seq<int>, k: int, info: Infos, i: Info)
    requires Enumerates(s, l) && 0 <= k < |l| && EntriesBack(s, l, k, {}, info)
    requires var id := l[k]; i == Copy(s.info[id], k, 0)
    ensures EntriesBack(s, l, k + 1, {}, info[k := i])
  {
    hide Copy, Slots;
    var id := l[k];
    assert id in s.info && Slots(s.newTable, id) * {} == {};
    var info' := info[k := i];
    forall j | 0 <= j < k + 1
      ensures var x := l[j]; x in s.info && info'[j] == Copy(s.info[x], j, |Slots(s.newTable, x) * {}|)
    {
      var x := l[j];
    }
  }

  lemma AddrBack(s: State, l: seq<int>, k: int, addrs: map<NetAddr, int>)
    requires Indexed(s) && Enumerates(s, l) && 0 <= k < |l| && AddrsBack(s, l, k, addrs)
    ensures var id := l[k]; AddrsBack(s, l, k + 1, addrs[s.info[id].service.net := k])
  {
    hide RandomIndex, IdsAllocated;
    var id := l[k];
    var a := s.info[id].service.net;
    var addrs' := addrs[a := k];
    forall i | 0 <= i < k + 1
      ensures var x := l[i]; x in s.info && s.info[x].service.net in addrs' && addrs'[s.info[x].service.net] == i
    {
      var x := l[i];
      if i < k {
        assert s.addrs[s.info[x].service.net] == x && s.addrs[a] == id && x != id;
      }
    }
  }

  lemma EntryPartMore(s: State, l: seq<int>, k: int, t: State, i: Info)
    requires Indexed(s) && Enumerates(s, l) && 0 <= k < |l| && EntryPart(s, l, k, {}, t)
    requires var id := l[k]; i == Copy(s.info[id], k, 0)
    ensures var id := l[k];
      EntryPart(s, l, k + 1, {}, t.(info := t.info[k := i], addrs := t.addrs[s.info[id].service.net := k], random := t.random + [k]))
  {
    hide Indexed, EntriesBack, AddrsBack;
    EntryBack(s, l, k, t.info, i);
    AddrBack(s, l, k, t.addrs);
  }

  lemma {:induction false} LoadNewAll(net: Net, s: State, l: seq<int>, t: State, rest: seq<Token>, n: int)
    requires Indexed(s) && Enumerates(s, l) && 0 <= n <= s.nNew == t.nNew && EntryPart(s, l, n, {}, t)
    requires Follow(s, l, n, s.nNew, rest)
    ensures var r := LoadNew(net, t, rest, n, true);
      && r.Parsed? && r.rest == After(rest, s.nNew - n) && EntryPart(s, l, s.nNew, {}, r.state)
      && RestSame(t, r.state) && r.state.triedTable == t.triedTable && r.state.idCount == t.idCount
    decreases s.nNew - n
  {
    hide Indexed, EntryPart, NewSlot, Ops.List, LoadNew, After, Follow;
    LoadNewUnfold(net, t, rest, n, true);
    AfterNone(rest);
    if n < s.nNew {
      var id := l[n];
      FollowNext(s, l, n, s.nNew, rest);
      assert rest[0] == TEntry(Save(s.info[id]));
      var e := rest[0].entry;
      CountingOf(s, l, n, t);
      EntryPartMore(s, l, n, t, Load(e).(randomPos := n));
      LoadNewAll(net, s, l, WithNew(net, t, e, n, true), rest[1..], n + 1);
      AfterNext(rest, s.nNew - n);
    }
  }

  ghost function EntryToken(s: State, l: seq<int>, i: int): Token
    requires Enumerates(s, l) && 0 <= i < |l|
  {
    var id := l[i];
    TEntry(Save(s.info[id]))
  }

  /** `rest` starts with the entries from place `m` up to place `n`. */
  ghost predicate Follow(s: State, l: seq<int>, m: int, n: int, rest: seq<Token>)
    requires Enumerates(s, l) && 0 <= m <= n <= |l|
  {
    |rest| >= n - m && forall j :: 0 <= j < n - m ==> rest[j] == EntryToken(s, l, m + j)
  }

  lemma FollowNext(s: State, l: seq<int>, m: int, n: int, rest: seq<Token>)
    requires Enumerates(s, l) && 0 <= m < n <= |l| && Follow(s, l, m, n, rest)
    ensures |rest| >= n - m && rest[0] == EntryToken(s, l, m) && Follow(s, l, m + 1, n, rest[1..])
  {
    forall j | 0 <= j < n - m - 1 ensures rest[1..][j] == EntryToken(s, l, m + 1 + j) {
      assert rest[1..][j] == rest[j + 1];
    }
  }

  lemma CountingOf(s: State, l: seq<int>, n: int, t: State)
    requires 0 <= n <= |l| && EntryPart(s, l, n, {}, t)
    ensures |t.random| == n
  {
  }

  ghost predicate WantedBy(net: Net, s: State, id: int, slot: Slot) {
    id in s.info && slot == TriedSlot(net, s.key, s.info[id].service)
  }

  ghost predicate HeldBy(net: Net, s: State, id: int, table: Table, i: int)
    requires id in s.info
  {
    var slot := TriedSlot(net, s.key, s.info[id].service);
    slot in table && table[slot] == i
  }

  ghost predicate TriedBack(net: Net, s: State, l: seq<int>, k: int, table: Table)
    requires 0 <= k <= |l|
  {
    && (forall i :: s.nNew <= i < k && 0 <= i ==> var id := l[i]; id in s.info && HeldBy(net, s, id, table, i))
    && (forall slot :: slot in table ==> var i := table[slot]; s.nNew <= i < k && 0 <= i && WantedBy(net, s, l[i], slot))
  }

  lemma SlotOwner(net: Net, s: State, id: int, slot: Slot)
    requires TriedIndex(net, s.key, s.info, s.triedTable) && WantedBy(net, s, id, slot) && s.info[id].inTried
    ensures slot in s.triedTable && s.triedTable[slot] == id
  {
  }

  /** No tried entry is lost: different tried entries were written from different slots. */
  lemma TriedMore(net: Net, s: State, l: seq<int>, k: int, table: Table)
    requires TriedIndex(net, s.key, s.info, s.triedTable) && Enumerates(s, l)
    requires s.nNew <= k < |l| && TriedBack(net, s, l, k, table)
    ensures var id := l[k];
      && TriedSlot(net, s.key, s.info[id].service) !in table
      && TriedBack(net, s, l, k + 1, table[TriedSlot(net, s.key, s.info[id].service) := k])
  {
    hide TriedSlot, TriedIndex;
    var id := l[k];
    var slot := TriedSlot(net, s.key, s.info[id].service);
    SlotOwner(net, s, id, slot);
    forall x | x in table ensures x != slot {
      var i := table[x];
      SlotOwner(net, s, l[i], x);
    }
    var table' := table[slot := k];
    forall i | s.nNew <= i < k + 1 && 0 <= i ensures var x := l[i]; x in s.info && HeldBy(net, s, x, table', i) {
      var x := l[i];
      assert i < k ==> HeldBy(net, s, x, table, i);
    }
    forall x | x in table' ensures var i := table'[x]; s.nNew <= i < k + 1 && 0 <= i && WantedBy(net, s, l[i], x) {
      assert x == slot || x in table;
    }
  }

  ghost predicate TriedPart(net: Net, s: State, l: seq<int>, k: int, t: State)
    requires 0 <= k <= |l|
  {
    EntryPart(s, l, k, {}, t) && TriedBack(net, s, l, k, t.triedTable) && t.idCount == k && t.key == s.key
  }

  lemma WithTriedPart(net: Net, s: State, l: seq<int>, k: int, t: State)
    requires Indexed(s) && TriedIndex(net, s.key, s.info, s.triedTable) && Enumerates(s, l)
    requires s.nNew <= k < |l| && TriedPart(net, s, l, k, t)
    ensures var id := l[k];
      && TriedSlot(net, t.key, s.info[id].service) !in t.triedTable
      && TriedPart(net, s, l, k + 1, WithTried(net, t, Save(s.info[id])))
      && RestSame(t, WithTried(net, t, Save(s.info[id])))
  {
    hide Indexed, TriedIndex, EntryPart, TriedBack, TriedSlot;
    var id := l[k];
    CountingOf(s, l, k, t);
    EntryPartMore(s, l, k, t, Load(Save(s.info[id])).(randomPos := k, inTried := true));
    TriedMore(net, s, l, k, t.triedTable);
    EntryPartFrame(s, l, k + 1,
      t.(info := t.info[k := Load(Save(s.info[id])).(randomPos := k, inTried := true)],
         addrs := t.addrs[s.info[id].service.net := k], random := t.random + [k]),
      WithTried(net, t, Save(s.info[id])));
  }

  lemma EntryPartFrame(s: State, l: seq<int>, k: int, t: State, t': State)
    requires 0 <= k <= |l| && EntryPart(s, l, k, {}, t) && t'.info == t.info && t'.addrs == t.addrs && t'.random == t.random
    ensures EntryPart(s, l, k, {}, t')
  {
    hide EntriesBack, AddrsBack;
  }

  /** One step of reading tried entries when nothing was lost so far and the slot is free. */
  lemma NoneLost(net: Net, t: State, rest: seq<Token>, n: int)
    ensures n >= t.nTried ==> LoadTried(net, t, rest, n, 0) == Parsed(t, rest)
    ensures n < t.nTried && rest != [] && rest[0].TEntry? && TriedSlot(net, t.key, rest[0].entry.service) !in t.triedTable ==>
      LoadTried(net, t, rest, n, 0) == LoadTried(net, WithTried(net, t, rest[0].entry), rest[1..], n + 1, 0)
  {
    hide WithTried, TriedSlot, LoadTried;
    LoadTriedUnfold(net, t, rest, n, 0);
    assert t.(nTried := t.nTried - 0) == t;
  }

  lemma {:induction false} LoadTriedAll(net: Net, s: State, l: seq<int>, t: State, rest: seq<Token>, n: int)
    requires Indexed(s) && TriedIndex(net, s.key, s.info, s.triedTable) && Enumerates(s, l)
    requires 0 <= n <= s.nTried == t.nTried && TriedPart(net, s, l, s.nNew + n, t)
    requires Follow(s, l, s.nNew + n, s.nNew + s.nTried, rest)
    ensures var r := LoadTried(net, t, rest, n, 0);
      && r.Parsed? && r.rest == After(rest, s.nTried - n) && TriedPart(net, s, l, s.nNew + s.nTried, r.state)
      && RestSame(t, r.state)
    decreases s.nTried - n
  {
    hide Indexed, TriedIndex, TriedPart, LoadTried, WithTried, TriedSlot, Follow, Enumerates, RestSame, After;
    NoneLost(net, t, rest, n);
    AfterNone(rest);
    Sizes(s, l);
    RestSelf(t);
    if n < s.nTried {
      TriedStep(net, s, l, s.nNew + n, s.nNew + s.nTried, t, rest);
      var t' := WithTried(net, t, rest[0].entry);
      LoadTriedAll(net, s, l, t', rest[1..], n + 1);
      RestTransitive(t, t', LoadTried(net, t', rest[1..], n + 1, 0).state);
      AfterNext(rest, s.nTried - n);
    }
  }

  lemma TriedStep(net: Net, s: State, l: seq<int>, k: int, n: int, t: State, rest: seq<Token>)
    requires Indexed(s) && TriedIndex(net, s.key, s.info, s.triedTable) && Enumerates(s, l)
    requires s.nNew <= k < n <= |l| && 0 <= k && TriedPart(net, s, l, k, t) && Follow(s, l, k, n, rest)
    ensures |rest| >= n - k && rest[0].TEntry? && Follow(s, l, k + 1, n, rest[1..])
    ensures var t' := WithTried(net, t, rest[0].entry);
      && TriedSlot(net, t.key, rest[0].entry.service) !in t.triedTable
      && TriedPart(net, s, l, k + 1, t') && RestSame(t, t')
  {
    hide Indexed, TriedIndex, TriedPart, WithTried, TriedSlot, Follow, RestSame;
    var id := l[k];
    FollowNext(s, l, k, n, rest);
    assert rest[0] == TEntry(Save(s.info[id]));
    WithTriedPart(net, s, l, k, t);
  }

  /** What follows the first `n` tokens. */
  function After(rest: seq<Token>, n: int): seq<Token> {
    if 0 <= n <= |rest| then rest[n..] else []
  }

  lemma AfterNext(rest: seq<Token>, n: int)
    requires 0 < n <= |rest|
    ensures After(rest[1..], n - 1) == After(rest, n)
  {
  }

  lemma AfterNone(rest: seq<Token>)
    ensures After(rest, 0) == rest
  {
  }

  lemma Sizes(s: State, l: seq<int>)
    requires Enumerates(s, l)
    ensures |l| == s.nNew + s.nTried && s.nNew >= 0 && s.nTried >= 0
  {
  }

  lemma RestSelf(t: State)
    ensures RestSame(t, t)
  {
  }

  // ----- Reading the new buckets back -----

  /** The occupied slots before position `p` of bucket `b`, in the order they are written. */
  ghost function Upto(table: Table, b: nat, p: nat): set<Slot> {
    set slot | slot in table && (slot.bucket < b || (slot.bucket == b && slot.pos < p))
  }

  ghost predicate NewBack(s: State, l: seq<int>, done: set<Slot>, table: Table) {
    && table.Keys == done
    && (forall slot :: slot in table ==>
          slot in s.newTable && (var i := table[slot]; 0 <= i < |l| && i < s.nNew && l[i] == s.newTable[slot]))
  }

  ghost predicate SlotPart(s: State, l: seq<int>, done: set<Slot>, t: State) {
    EntriesBack(s, l, |l|, done, t.info) && NewBack(s, l, done, t.newTable) && t.key == s.key && t.nNew == s.nNew
  }

  ghost predicate OnlySlotsChanged(t: State, t': State) {
    && t'.key == t.key && t'.idCount == t.idCount && t'.addrs == t.addrs && t'.random == t.random
    && t'.nTried == t.nTried && t'.triedTable == t.triedTable && t'.nNew == t.nNew
    && t'.lastGood == t.lastGood && t'.collisions == t.collisions
  }

  lemma RefsMore(s: State, id: int, slot: Slot, done: set<Slot>)
    requires slot !in done && slot in s.newTable
    ensures |Slots(s.newTable, id) * (done + {slot})| == |Slots(s.newTable, id) * done| + if s.newTable[slot] == id then 1 else 0
    ensures s.newTable[slot] == id ==> |Slots(s.newTable, id) * done| < |Slots(s.newTable, id)|
  {
    var slots := Slots(s.newTable, id);
    if s.newTable[slot] == id {
      assert slots * (done + {slot}) == slots * done + {slot};
      assert slots == (slots - done - {slot}) + (slots * done) + {slot};
      assert |slots| == |slots - done - {slot}| + |slots * done| + 1;
    } else {
      assert slots * (done + {slot}) == slots * done;
    }
  }

  lemma EntriesMore(s: State, l: seq<int>, slot: Slot, done: set<Slot>, info: Infos, k: int)
    requires Enumerates(s, l) && EntriesBack(s, l, |l|, done, info) && slot !in done && slot in s.newTable
    requires 0 <= k < |l| && l[k] == s.newTable[slot]
    ensures EntriesBack(s, l, |l|, done + {slot}, info[k := info[k].(refCount := info[k].refCount + 1)])
  {
    hide Copy, Slots, Enumerates;
    var info' := info[k := info[k].(refCount := info[k].refCount + 1)];
    forall i | 0 <= i < |l|
      ensures var id := l[i]; id in s.info && info'[i] == Copy(s.info[id], i, |Slots(s.newTable, id) * (done + {slot})|)
    {
      var id := l[i];
      RefsMore(s, id, slot, done);
      Differ(s, l, i, k);
      CopyMore(s.info[id], i, |Slots(s.newTable, id) * done|);
    }
  }

  lemma Differ(s: State, l: seq<int>, i: int, k: int)
    requires Enumerates(s, l) && 0 <= i < |l| && 0 <= k < |l|
    ensures l[i] == l[k] ==> i == k
  {
    hide Slots;
  }

  lemma CopyMore(i: Info, pos: int, refs: int)
    ensures var c := Copy(i, pos, refs); c.(refCount := c.refCount + 1) == Copy(i, pos, refs + 1)
  {
  }

  lemma SlotMore(net: Net, s: State, l: seq<int>, slot: Slot, done: set<Slot>, t: State, k: int)
    requires Enumerates(s, l) && SlotPart(s, l, done, t) && slot !in done && slot in s.newTable
    requires NewSlotsOk(net, s.key, s.info, s.newTable) && RefCounts(s.info, s.newTable, {})
    requires 0 <= k < s.nNew && l[k] == s.newTable[slot]
    ensures var t' := WithSlot(net, t, slot.bucket, k, true); SlotPart(s, l, done + {slot}, t') && OnlySlotsChanged(t, t')
  {
    hide EntriesBack, NewBack, RefCounts, NewSlotsOk, NewSlotIn;
    CanList(net, s, l, slot, done, t, k);
    EntriesMore(s, l, slot, done, t.info, k);
    NewMore(s, l, slot, done, t.newTable, k);
    assert WithSlot(net, t, slot.bucket, k, true) == Ops.List(t, slot, k);
  }

  lemma CanList(net: Net, s: State, l: seq<int>, slot: Slot, done: set<Slot>, t: State, k: int)
    requires Enumerates(s, l) && SlotPart(s, l, done, t) && slot !in done && slot in s.newTable
    requires NewSlotsOk(net, s.key, s.info, s.newTable) && RefCounts(s.info, s.newTable, {})
    requires 0 <= k < s.nNew && l[k] == s.newTable[slot]
    ensures k in t.info && slot == NewSlotIn(net, t.key, slot.bucket, t.info[k].service) && slot !in t.newTable
    ensures t.info[k].refCount < NEW_BUCKETS_PER_ADDRESS
  {
    hide NewSlotIn, Slots;
    var id := l[k];
    RefsMore(s, id, slot, done);
    assert k in t.info && t.info[k] == Copy(s.info[id], k, |Slots(s.newTable, id) * done|);
    assert slot !in t.newTable.Keys;
  }

  lemma NewMore(s: State, l: seq<int>, slot: Slot, done: set<Slot>, table: Table, k: int)
    requires NewBack(s, l, done, table) && slot in s.newTable && 0 <= k < |l| && k < s.nNew && l[k] == s.newTable[slot]
    ensures NewBack(s, l, done + {slot}, table[slot := k])
  {
  }

  lemma UptoNext(table: Table, b: nat, p: nat)
    ensures Upto(table, b, p + 1) == Upto(table, b, p) + if Slot(b, p) in table then {Slot(b, p)} else {}
    ensures Slot(b, p) !in Upto(table, b, p)
  {
    forall x ensures x in Upto(table, b, p + 1) <==> x in Upto(table, b, p) || (x == Slot(b, p) && x in table) {
      var Slot(xb, xp) := x;
    }
  }

  /** Everything the slots are read back from. */
  ghost predicate Source(net: Net, s: State, ids: seq<int>, l: seq<int>) {
    && Enumerates(s, l) && NewSlotsOk(net, s.key, s.info, s.newTable) && RefCounts(s.info, s.newTable, {})
    && IsAscending(ids) && |Listed(s.info, ids)| == s.nNew && Listed(s.info, ids) <= l
    && (forall slot :: slot in s.newTable ==> var id := s.newTable[slot]; id in Listed(s.info, ids))
  }

  lemma IndexOfSlot(net: Net, s: State, ids: seq<int>, l: seq<int>, slot: Slot)
    requires Source(net, s, ids, l) && slot in s.newTable
    ensures var id := s.newTable[slot]; var k := Index(s.info, ids, id); 0 <= k < s.nNew && k < |l| && l[k] == id
  {
    hide NewSlotsOk, RefCounts, Enumerates, Index, Listed;
    var id := s.newTable[slot];
    IndexFacts(s.info, ids, id);
  }

  lemma {:induction false} LoadSlotsAll(net: Net, s: State, ids: seq<int>, l: seq<int>, t: State, rest: seq<Token>,
    b: nat, p: nat, n: int, size: int)
    requires Source(net, s, ids, l) && p <= BUCKET_SIZE && SlotPart(s, l, Upto(s.newTable, b, p), t)
    requires size - n == Occupied(s.newTable, b, p)
    ensures var r := LoadSlots(net, t, SlotTokens(s.info, ids, s.newTable, b, p) + rest, b, n, size, true);
      && r.Parsed? && r.rest == rest && SlotPart(s, l, Upto(s.newTable, b, BUCKET_SIZE), r.state) && OnlySlotsChanged(t, r.state)
    decreases BUCKET_SIZE - p
  {
    hide Source, SlotPart, LoadSlots, WithSlot, Index, Upto, SlotTokens, Occupied, OnlySlotsChanged;
    var tokens := SlotTokens(s.info, ids, s.newTable, b, p) + rest;
    LoadSlotsUnfold(net, t, tokens, b, n, size, true);
    SlotTokensUnfold(s.info, ids, s.newTable, b, p);
    OccupiedUnfold(s.newTable, b, p);
    SlotsSelf(t);
    if p == BUCKET_SIZE {
      assert tokens == rest;
    } else {
      var slot := Slot(b, p);
      UptoNext(s.newTable, b, p);
      if slot in s.newTable {
        var id := s.newTable[slot];
        var k := Index(s.info, ids, id);
        IndexOfSlot(net, s, ids, l, slot);
        SlotRead(net, s, ids, l, slot, Upto(s.newTable, b, p), t, k);
        FirstToken(TInt(k), SlotTokens(s.info, ids, s.newTable, b, p + 1), rest);
        var t' := WithSlot(net, t, b, k, true);
        LoadSlotsAll(net, s, ids, l, t', rest, b, p + 1, n + 1, size);
        SlotsTransitive(t, t', LoadSlots(net, t', SlotTokens(s.info, ids, s.newTable, b, p + 1) + rest, b, n + 1, size, true).state);
      } else {
        assert [] + SlotTokens(s.info, ids, s.newTable, b, p + 1) == SlotTokens(s.info, ids, s.newTable, b, p + 1);
        assert Upto(s.newTable, b, p) + {} == Upto(s.newTable, b, p);
        LoadSlotsAll(net, s, ids, l, t, rest, b, p + 1, n, size);
      }
    }
  }

  lemma FirstToken(first: Token, tokens: seq<Token>, rest: seq<Token>)
    ensures var all := [first] + tokens + rest; all != [] && all[0] == first && all[1..] == tokens + rest
  {
  }

  lemma SlotsSelf(t: State)
    ensures OnlySlotsChanged(t, t)
  {
  }

  lemma SlotsTransitive(t: State, u: State, v: State)
    requires OnlySlotsChanged(t, u) && OnlySlotsChanged(u, v)
    ensures OnlySlotsChanged(t, v)
  {
  }

  lemma SlotRead(net: Net, s: State, ids: seq<int>, l: seq<int>, slot: Slot, done: set<Slot>, t: State, k: int)
    requires Source(net, s, ids, l) && SlotPart(s, l, done, t) && slot !in done && slot in s.newTable
    requires 0 <= k < s.nNew && k < |l| && l[k] == s.newTable[slot]
    ensures var t' := WithSlot(net, t, slot.bucket, k, true); SlotPart(s, l, done + {slot}, t') && OnlySlotsChanged(t, t')
  {
    hide Enumerates, NewSlotsOk, RefCounts, SlotPart, WithSlot, OnlySlotsChanged, Listed;
    SlotMore(net, s, l, slot, done, t, k);
  }

  lemma UptoWrap(net: Net, s: State, b: nat)
    requires NewSlotsOk(net, s.key, s.info, s.newTable)
    ensures Upto(s.newTable, b, BUCKET_SIZE) == Upto(s.newTable, b + 1, 0)
    ensures Upto(s.newTable, NEW_BUCKET_COUNT, 0) == s.newTable.Keys
    ensures Upto(s.newTable, 0, 0) == {}
  {
    forall slot | slot in s.newTable ensures slot.pos < BUCKET_SIZE && slot.bucket < NEW_BUCKET_COUNT {
      var id := s.newTable[slot];
      assert slot == NewSlotIn(net, s.key, slot.bucket, s.info[id].service);
    }
    assert Upto(s.newTable, b, BUCKET_SIZE) == Upto(s.newTable, b + 1, 0);
    assert Upto(s.newTable, NEW_BUCKET_COUNT, 0) == s.newTable.Keys;
    assert Upto(s.newTable, 0, 0) == {};
  }

  lemma {:induction false} LoadBucketsAll(net: Net, s: State, ids: seq<int>, l: seq<int>, t: State, b: nat)
    requires Source(net, s, ids, l) && b <= NEW_BUCKET_COUNT && SlotPart(s, l, Upto(s.newTable, b, 0), t)
    ensures var r := LoadBuckets(net, t, BucketTokens(s.info, ids, s.newTable, b), b, NEW_BUCKET_COUNT, true);
      && r.Parsed? && r.rest == [] && SlotPart(s, l, s.newTable.Keys, r.state) && OnlySlotsChanged(t, r.state)
    decreases NEW_BUCKET_COUNT - b
  {
    hide SlotPart, LoadSlots, Occupied, SlotTokens, Upto, RefCounts, Listed, NewSlotsOk;
    UptoWrap(net, s, b);
    var tokens := BucketTokens(s.info, ids, s.newTable, b);
    if b < NEW_BUCKET_COUNT {
      var more := BucketTokens(s.info, ids, s.newTable, b + 1);
      var size := Occupied(s.newTable, b, 0);
      assert tokens[0] == TInt(size) && tokens[1..] == SlotTokens(s.info, ids, s.newTable, b, 0) + more;
      LoadSlotsAll(net, s, ids, l, t, more, b, 0, 0, size);
      var t' := LoadSlots(net, t, tokens[1..], b, 0, size, true).state;
      LoadBucketsAll(net, s, ids, l, t', b + 1);
    }
  }

  // ----- Capacity: the written counts pass the limits checked on reading -----

  /** A table cannot refer to more ids than it has slots. */
  lemma TableCapacity(ids: set<int>, table: Table, buckets: nat)
    requires forall slot :: slot in table ==> slot.bucket < buckets && slot.pos < BUCKET_SIZE
    requires forall id :: id in ids ==> exists slot :: slot in table && table[slot] == id
    ensures |ids| <= buckets * BUCKET_SIZE
  {
    var place := map id | id in ids :: var slot :| slot in table && table[slot] == id; slot;
    var code := map id | id in ids :: SlotNumber(place[id]);
    forall x, y | x in ids && y in ids && x != y ensures code[x] != code[y] {
      if SlotNumber(place[x]) == SlotNumber(place[y]) { SlotNumberInjective(place[x], place[y]); }
    }
    forall id | id in ids ensures 0 <= code[id] < buckets * BUCKET_SIZE {
      var slot := place[id];
      assert slot.bucket < buckets && slot.pos < BUCKET_SIZE;
    }
    Pigeonhole(ids, code, buckets * BUCKET_SIZE);
  }

  lemma CountsFit(net: Net, s: State)
    requires Consistent(net, s)
    ensures 0 <= s.nNew <= NEW_BUCKET_COUNT * BUCKET_SIZE && 0 <= s.nTried <= TRIED_BUCKET_COUNT * BUCKET_SIZE
  {
    hide Indexed, CollisionsPending;
    forall id | id in NewIds(s.info) ensures exists slot :: slot in s.newTable && s.newTable[slot] == id {
      assert |Slots(s.newTable, id)| >= 1;
      if !exists slot :: slot in Slots(s.newTable, id) { assert false; }
    }
    TableCapacity(NewIds(s.info), s.newTable, NEW_BUCKET_COUNT);
    forall id | id in TriedIds(s.info) ensures exists slot :: slot in s.triedTable && s.triedTable[slot] == id {
      assert TriedSlot(net, s.key, s.info[id].service) in s.triedTable;
    }
    forall slot | slot in s.triedTable ensures slot.bucket < TRIED_BUCKET_COUNT && slot.pos < BUCKET_SIZE {
      var id := s.triedTable[slot];
      assert slot == TriedSlot(net, s.key, s.info[id].service);
    }
    TableCapacity(TriedIds(s.info), s.triedTable, TRIED_BUCKET_COUNT);
  }

  // ----- The round trip -----

  /** Every entry is tried or referenced. */
  ghost predicate AllUsed(info: Infos) {
    forall id :: id in info ==> info[id].inTried || info[id].refCount != 0
  }

  lemma {:induction false} PruneNone(t: State, ids: seq<int>)
    requires AllUsed(t.info)
    ensures Prune(t, ids) == t
    decreases |ids|
  {
    if ids != [] {
      PruneNone(t, ids[1..]);
    }
  }

  /** `t` is `s` with id `l[i]` renamed to `i`: same key, counts, slots, references and saved
      statistics, and every address is found under its new id. */
  ghost predicate Renamed(s: State, t: State, l: seq<int>) {
    && Enumerates(s, l)
    && t.key == s.key && t.nNew == s.nNew && t.nTried == s.nTried
    && AllSaved(s, l, t.info)
    && SameSlots(l, s.newTable, t.newTable)
    && SameSlots(l, s.triedTable, t.triedTable)
    && SameAddrs(l, s.addrs, t.addrs)
  }

  ghost predicate AllSaved(s: State, l: seq<int>, info: Infos) {
    && (forall i :: i in info <==> 0 <= i < |l|)
    && (forall i :: 0 <= i < |l| ==> var id := l[i]; id in s.info && SameSaved(s.info[id], info[i]))
  }

  ghost predicate SameAddrs(l: seq<int>, addrs: map<NetAddr, int>, addrs': map<NetAddr, int>) {
    && addrs'.Keys == addrs.Keys
    && (forall a :: a in addrs' ==> var i := addrs'[a]; 0 <= i < |l| && l[i] == addrs[a])
  }

  ghost predicate SameSaved(i: Info, j: Info) {
    Save(j) == Save(i) && j.refCount == i.refCount && j.inTried == i.inTried
  }

  ghost predicate SameSlots(l: seq<int>, table: Table, table': Table) {
    && table'.Keys == table.Keys
    && (forall slot :: slot in table' ==> var i := table'[slot]; 0 <= i < |l| && l[i] == table[slot])
  }

  lemma EntriesRenamed(s: State, l: seq<int>, info: Infos)
    requires Enumerates(s, l) && EntriesBack(s, l, |l|, s.newTable.Keys, info) && RefCounts(s.info, s.newTable, {})
    ensures AllSaved(s, l, info)
  {
    hide Copy, SameSaved, Enumerates, Slots;
    forall i | 0 <= i < |l| ensures var id := l[i]; id in s.info && SameSaved(s.info[id], info[i]) {
      var id := l[i];
      AllKeys(s.newTable, id);
      assert info[i] == Copy(s.info[id], i, |Slots(s.newTable, id)|);
      CopySaved(s.info[id], i);
    }
  }

  lemma AllKeys(table: Table, id: int)
    ensures Slots(table, id) * table.Keys == Slots(table, id)
  {
  }

  lemma CopySaved(i: Info, pos: int)
    ensures SameSaved(i, Copy(i, pos, i.refCount))
  {
  }

  lemma AddrsRenamed(s: State, l: seq<int>, addrs: map<NetAddr, int>)
    requires Enumerates(s, l) && AddrsBack(s, l, |l|, addrs) && AddrIndex(s.info, s.addrs)
    ensures SameAddrs(l, s.addrs, addrs)
  {
    forall a | a in s.addrs ensures a in addrs {
      var id := s.addrs[a];
      assert id in l;
      var i :| 0 <= i < |l| && l[i] == id;
    }
    forall a | a in addrs ensures a in s.addrs && (var i := addrs[a]; 0 <= i < |l| && l[i] == s.addrs[a]) {
      var i := addrs[a];
      var id := l[i];
      assert s.addrs[s.info[id].service.net] == id;
    }
  }

  lemma TriedRenamed(net: Net, s: State, l: seq<int>, table: Table)
    requires Enumerates(s, l) && TriedBack(net, s, l, |l|, table) && TriedIndex(net, s.key, s.info, s.triedTable)
    ensures SameSlots(l, s.triedTable, table)
  {
    hide TriedSlot;
    forall slot | slot in table ensures slot in s.triedTable && (var i := table[slot]; 0 <= i < |l| && l[i] == s.triedTable[slot]) {
      var i := table[slot];
      SlotOwner(net, s, l[i], slot);
    }
    forall slot | slot in s.triedTable ensures slot in table {
      var id := s.triedTable[slot];
      assert id in l;
      var i :| 0 <= i < |l| && l[i] == id;
      assert HeldBy(net, s, id, table, i);
    }
  }

  lemma AllRenamed(net: Net, s: State, l: seq<int>, t: State)
    requires Consistent(net, s) && Enumerates(s, l) && SlotPart(s, l, s.newTable.Keys, t)
    requires AddrsBack(s, l, |l|, t.addrs) && TriedBack(net, s, l, |l|, t.triedTable) && t.nTried == s.nTried
    ensures Renamed(s, t, l)
    ensures AllUsed(t.info)
  {
    hide AddrsBack, TriedBack, IdsAllocated, AddrIndex, RandomIndex, TriedIndex, NewSlotsOk, CollisionsPending, Counted,
      NewBack, SameSlots, SameAddrs, AllSaved, RefCounts, EntriesBack, Enumerates, AllUsed;
    EntriesRenamed(s, l, t.info);
    AddrsRenamed(s, l, t.addrs);
    TriedRenamed(net, s, l, t.triedTable);
    NewRenamed(s, l, t.newTable);
    StillReferenced(s, l, t.info);
  }

  lemma NewRenamed(s: State, l: seq<int>, table: Table)
    requires NewBack(s, l, s.newTable.Keys, table)
    ensures SameSlots(l, s.newTable, table)
  {
  }

  lemma StillReferenced(s: State, l: seq<int>, info: Infos)
    requires Enumerates(s, l) && EntriesBack(s, l, |l|, s.newTable.Keys, info) && RefCounts(s.info, s.newTable, {})
    requires AllSaved(s, l, info)
    ensures AllUsed(info)
  {
    hide Copy, Enumerates, EntriesBack, Slots;
    forall i | i in info ensures info[i].inTried || info[i].refCount != 0 {
      var id := l[i];
      assert SameSaved(s.info[id], info[i]);
    }
  }

  lemma SourceOf(net: Net, s: State)
    requires Consistent(net, s)
    ensures Source(net, s, Ascending(s.info.Keys), Written(s))
  {
    hide TriedIndex, Indexed, CollisionsPending, Enumerates, Listed, Tried, NewSlotsOk, RefCounts, IsAscending;
    WrittenEnumerates(net, s);
    WrittenParts(net, s);
    var ids := Ascending(s.info.Keys);
    SlotsListed(net, s, Listed(s.info, ids));
  }

  lemma SlotsListed(net: Net, s: State, l: seq<int>)
    requires NewSlotsOk(net, s.key, s.info, s.newTable) && Lists(l, NewIds(s.info))
    ensures forall slot :: slot in s.newTable ==> var id := s.newTable[slot]; id in l
  {
    hide NewSlotIn;
    forall slot | slot in s.newTable ensures var id := s.newTable[slot]; id in l {
      var id := s.newTable[slot];
      assert id in NewIds(s.info);
    }
  }

  lemma FollowFrom(s: State, l: seq<int>, a: seq<int>, m: int, more: seq<Token>)
    requires Enumerates(s, l) && 0 <= m && m + |a| <= |l| && a == l[m..m + |a|]
    ensures Follow(s, l, m, m + |a|, Entries(s.info, a) + more) && |Entries(s.info, a)| == |a|
  {
    forall i | 0 <= i < |a| ensures var id := a[i]; id in s.info {
      var id := a[i];
      assert id == l[m + i];
    }
    EntriesAt(s.info, a);
    forall j | 0 <= j < |a| ensures (Entries(s.info, a) + more)[j] == EntryToken(s, l, m + j) {
      var id := a[j];
      assert id == l[m + j];
    }
  }

  /** The state before any entry is read. */
  ghost function Start(s: State, collisions: set<int>): State {
    Empty(s.key).(nNew := s.nNew, nTried := s.nTried, collisions := collisions)
  }

  lemma NewRead(net: Net, s: State, l: seq<int>, a: seq<int>, collisions: set<int>, more: seq<Token>)
    requires Indexed(s) && Enumerates(s, l) && |a| == s.nNew && a == l[..s.nNew]
    ensures var r := LoadNew(net, Start(s, collisions), Entries(s.info, a) + more, 0, true);
      && r.Parsed? && r.rest == more && EntryPart(s, l, s.nNew, {}, r.state)
      && RestSame(Start(s, collisions), r.state) && r.state.triedTable == map[]
  {
    hide Indexed, LoadNew, EntryPart, Follow, Entries;
    FollowFrom(s, l, a, 0, more);
    StartParts(net, s, l, Start(s, collisions));
    LoadNewAll(net, s, l, Start(s, collisions), Entries(s.info, a) + more, 0);
    assert (Entries(s.info, a) + more)[|a|..] == more;
  }

  lemma TriedRead(net: Net, s: State, l: seq<int>, b: seq<int>, t: State, more: seq<Token>)
    requires Indexed(s) && TriedIndex(net, s.key, s.info, s.triedTable) && Enumerates(s, l) && |b| == s.nTried && b == l[s.nNew..]
    requires EntryPart(s, l, s.nNew, {}, t) && t.triedTable == map[] && t.idCount == s.nNew && t.key == s.key && t.nTried == s.nTried
    ensures var r := LoadTried(net, t, Entries(s.info, b) + more, 0, 0);
      r.Parsed? && r.rest == more && TriedPart(net, s, l, |l|, r.state) && RestSame(t, r.state)
  {
    hide Indexed, TriedIndex, LoadTried, EntryPart, TriedBack, Follow, Entries;
    FollowFrom(s, l, b, s.nNew, more);
    NoTriedYet(net, s, l);
    LoadTriedAll(net, s, l, t, Entries(s.info, b) + more, 0);
    assert (Entries(s.info, b) + more)[|b|..] == more;
  }

  /** Reading the entries back, new ones first. */
  lemma EntriesRead(net: Net, s: State, collisions: set<int>, more: seq<Token>)
    requires Consistent(net, s)
    ensures var ids := Ascending(s.info.Keys); var l := Written(s);
      var ea, eb := Entries(s.info, Listed(s.info, ids)), Entries(s.info, Tried(s.info, ids));
      var r1 := LoadNew(net, Start(s, collisions), ea + eb + more, 0, true);
      r1.Parsed? && (
        var r2 := LoadTried(net, r1.state.(idCount := r1.state.nNew), r1.rest, 0, 0);
        && r2.Parsed? && r2.rest == more && Enumerates(s, l) && TriedPart(net, s, l, |l|, r2.state)
        && RestSame(Start(s, collisions), r2.state))
  {
    hide Shape, CollisionsPending, Counted, Enumerates, LoadNew, LoadTried, EntryPart, TriedPart, Listed, Tried, Lists, Entries,
      IsAscending, RestSame;
    WrittenEnumerates(net, s);
    WrittenParts(net, s);
    ShapeParts(net, s);
    var ids, l := Ascending(s.info.Keys), Written(s);
    var a, b := Listed(s.info, ids), Tried(s.info, ids);
    assert a == l[..s.nNew] && b == l[s.nNew..];
    var ea, eb := Entries(s.info, a), Entries(s.info, b);
    assert ea + eb + more == ea + (eb + more);
    NewRead(net, s, l, a, collisions, eb + more);
    var r1 := LoadNew(net, Start(s, collisions), ea + eb + more, 0, true);
    SameRest(s, collisions, r1.state);
    var t1 := r1.state.(idCount := r1.state.nNew);
    EntryPartFrame(s, l, s.nNew, r1.state, t1);
    TriedRead(net, s, l, b, t1, more);
    RestTransitive(Start(s, collisions), t1, LoadTried(net, t1, eb + more, 0, 0).state);
  }

  lemma SameRest(s: State, collisions: set<int>, t: State)
    requires RestSame(Start(s, collisions), t)
    ensures t.key == s.key && t.nNew == s.nNew && t.nTried == s.nTried && RestSame(Start(s, collisions), t.(idCount := t.nNew))
  {
  }

  lemma RestTransitive(t: State, u: State, v: State)
    requires RestSame(t, u) && RestSame(u, v)
    ensures RestSame(t, v)
  {
  }

  lemma ShapeParts(net: Net, s: State)
    requires Shape(net, s, {})
    ensures Indexed(s) && TriedIndex(net, s.key, s.info, s.triedTable) && AddrIndex(s.info, s.addrs)
  {
  }

  lemma StartParts(net: Net, s: State, l: seq<int>, t: State)
    requires t.info == map[] && t.addrs == map[] && t.random == []
    ensures EntryPart(s, l, 0, {}, t)
  {
  }

  lemma NoTriedYet(net: Net, s: State, l: seq<int>)
    requires 0 <= s.nNew <= |l|
    ensures TriedBack(net, s, l, s.nNew, map[])
  {
  }

  /** The whole stream was read, nothing was lost, and the manager that was read is consistent
      unless collisions were still pending in the one it was read into. */
  ghost predicate ReadBack(net: Net, s: State, l: seq<int>, collisions: set<int>, r: Parsed) {
    && r.Parsed? && r.rest == [] && Renamed(s, r.state, l) && r.state.collisions == collisions
    && (collisions == {} ==> Consistent(net, r.state))
  }

  /** What Unserialize finds in a written stream. */
  lemma StreamParts(s: State, body: seq<Token>)
    requires 0 <= s.nNew <= NEW_BUCKET_COUNT * BUCKET_SIZE && 0 <= s.nTried <= TRIED_BUCKET_COUNT * BUCKET_SIZE
    requires var ids := Ascending(s.info.Keys);
      body == Entries(s.info, Listed(s.info, ids)) + Entries(s.info, Tried(s.info, ids)) + BucketTokens(s.info, ids, s.newTable, 0)
    ensures var stream := Serialize(s);
      && WellFramed(stream) && stream[2].key == s.key && stream[3].value == s.nNew && stream[4].value == s.nTried
      && stream[6..] == body && Usable(stream) && BucketCount(stream) == NEW_BUCKET_COUNT
  {
    hide Entries, Listed, Tried, BucketTokens, Ascending;
    assert Serialize(s) == Header(s) + body;
  }

  /** Unserialize(Serialize(s)) succeeds, reads the whole stream, loses no entry and gives back
      `s` up to the renaming of ids by their order of writing. */
  lemma RoundTrip(net: Net, s: State, collisions: set<int>)
    requires Consistent(net, s)
    ensures ReadBack(net, s, Written(s), collisions, Unserialize(net, Serialize(s), collisions))
  {
    hide Consistent, Renamed, Written, LoadNew, LoadTried, LoadBuckets, Entries, Listed, Tried, BucketTokens,
      TriedPart, SlotPart, Source, Enumerates, Prune, IsAscending, Ascending, AllUsed, RestSame, WellFramed, BucketCount, Usable, Serialize;
    var ids, l := Ascending(s.info.Keys), Written(s);
    var ea, eb := Entries(s.info, Listed(s.info, ids)), Entries(s.info, Tried(s.info, ids));
    var bt := BucketTokens(s.info, ids, s.newTable, 0);
    CountsFit(net, s);
    StreamParts(s, ea + eb + bt);
    EntriesRead(net, s, collisions, bt);
    var r1 := LoadNew(net, Start(s, collisions), ea + eb + bt, 0, true);
    var r2 := LoadTried(net, r1.state.(idCount := r1.state.nNew), r1.rest, 0, 0);
    BucketsRead(net, s, ids, l, r2.state, collisions);
    var r3 := LoadBuckets(net, r2.state, bt, 0, NEW_BUCKET_COUNT, true);
    PruneNone(r3.state, Ascending(r3.state.info.Keys));
  }

  lemma BucketsRead(net: Net, s: State, ids: seq<int>, l: seq<int>, t: State, collisions: set<int>)
    requires Consistent(net, s) && ids == Ascending(s.info.Keys) && l == Written(s) && Enumerates(s, l)
    requires TriedPart(net, s, l, |l|, t) && RestSame(Start(s, collisions), t)
    ensures var r := LoadBuckets(net, t, BucketTokens(s.info, ids, s.newTable, 0), 0, NEW_BUCKET_COUNT, true);
      ReadBack(net, s, l, collisions, r) && AllUsed(r.state.info)
  {
    hide Renamed, Written, LoadBuckets, BucketTokens, Source, Enumerates, EntriesBack, AddrsBack, TriedBack,
      Upto, Indexed, TriedIndex, CollisionsPending, RefCounts;
    SourceOf(net, s);
    UptoWrap(net, s, 0);
    assert t.newTable.Keys == {};
    NoSlotsYet(s, l);
    LoadBucketsAll(net, s, ids, l, t, 0);
    var r := LoadBuckets(net, t, BucketTokens(s.info, ids, s.newTable, 0), 0, NEW_BUCKET_COUNT, true);
    AllRenamed(net, s, l, r.state);
    ReadConsistent(net, s, l, r.state);
  }

  /** What was read back is consistent in itself. */
  lemma ReadConsistent(net: Net, s: State, l: seq<int>, t: State)
    requires Consistent(net, s) && Renamed(s, t, l) && SlotPart(s, l, s.newTable.Keys, t)
    requires AddrsBack(s, l, |l|, t.addrs) && TriedBack(net, s, l, |l|, t.triedTable)
    requires t.idCount == |l| && Counting(t.random, |l|)
    ensures t.collisions == {} ==> Consistent(net, t)
  {
    hide Renamed, AddrsBack, TriedBack, IdsAllocated, AddrIndex, RandomIndex, TriedIndex, NewSlotsOk, RefCounts, NewBack, Enumerates,
      EntriesBack, AllSaved, SameSlots, Counting, Column, NewIds, TriedIds;
    RenamedParts(s, t, l);
    ReadEntries(s, l, t.info);
    ReadAddrs(s, l, t.info, t.addrs);
    ReadRandom(s, l, t.info, t.random);
    ReadTried(net, s, l, t.info, t.triedTable);
    ReadNew(net, s, l, t.info, t.newTable);
    ReadRefs(s, l, t.info, t.newTable);
    ReadCounts(s, l, t.info);
  }

  lemma RenamedParts(s: State, t: State, l: seq<int>)
    requires Renamed(s, t, l)
    ensures Enumerates(s, l) && t.key == s.key && t.nNew == s.nNew && t.nTried == s.nTried && SameSlots(l, s.newTable, t.newTable)
    ensures AllSaved(s, l, t.info)
  {
  }

  /** The entries read back, without their reference counts. */
  ghost predicate Column(s: State, l: seq<int>, info: Infos) {
    && (forall i :: i in info <==> 0 <= i < |l|)
    && (forall i :: 0 <= i < |l| ==> var id := l[i]; id in s.info && Mirrors(s.info[id], info[i], i))
  }

  ghost predicate Mirrors(i: Info, j: Info, pos: int) {
    j.service == i.service && j.inTried == i.inTried && j.randomPos == pos && j.refCount == i.refCount
  }

  lemma ReadEntries(s: State, l: seq<int>, info: Infos)
    requires Enumerates(s, l) && EntriesBack(s, l, |l|, s.newTable.Keys, info)
    requires AllSaved(s, l, info)
    ensures Column(s, l, info) && IdsAllocated(info, |l|)
  {
    hide Enumerates, Slots;
    forall i | 0 <= i < |l| ensures var id := l[i]; id in s.info && Mirrors(s.info[id], info[i], i) {
      var id := l[i];
      assert SameSaved(s.info[id], info[i]);
    }
  }

  lemma ReadAddrs(s: State, l: seq<int>, info: Infos, addrs: map<NetAddr, int>)
    requires Column(s, l, info) && AddrsBack(s, l, |l|, addrs)
    ensures AddrIndex(info, addrs)
  {
    forall i | i in info ensures info[i].service.net in addrs && addrs[info[i].service.net] == i {
      var id := l[i];
      assert Mirrors(s.info[id], info[i], i);
    }
    forall a | a in addrs ensures var i := addrs[a]; i in info && info[i].service.net == a {
      var i := addrs[a];
      var id := l[i];
      assert Mirrors(s.info[id], info[i], i);
    }
  }

  lemma ReadRandom(s: State, l: seq<int>, info: Infos, random: seq<int>)
    requires Column(s, l, info) && Counting(random, |l|)
    ensures RandomIndex(info, random)
  {
    forall i | 0 <= i < |l| ensures i in info && info[i].randomPos == i {
      var id := l[i];
      assert Mirrors(s.info[id], info[i], i);
    }
  }

  lemma ReadTried(net: Net, s: State, l: seq<int>, info: Infos, table: Table)
    requires Enumerates(s, l) && Column(s, l, info) && TriedBack(net, s, l, |l|, table)
    ensures TriedIndex(net, s.key, info, table)
  {
    hide TriedSlot;
    forall slot | slot in table
      ensures var i := table[slot]; i in info && info[i].inTried && slot == TriedSlot(net, s.key, info[i].service)
    {
      var i := table[slot];
      var id := l[i];
      assert WantedBy(net, s, id, slot) && Mirrors(s.info[id], info[i], i);
    }
    forall i | i in info && info[i].inTried
      ensures TriedSlot(net, s.key, info[i].service) in table && table[TriedSlot(net, s.key, info[i].service)] == i
    {
      var id := l[i];
      assert Mirrors(s.info[id], info[i], i) && HeldBy(net, s, id, table, i);
    }
  }

  lemma ReadNew(net: Net, s: State, l: seq<int>, info: Infos, table: Table)
    requires Column(s, l, info) && SameSlots(l, s.newTable, table) && NewSlotsOk(net, s.key, s.info, s.newTable)
    ensures NewSlotsOk(net, s.key, info, table)
  {
    hide NewSlotIn;
    forall slot | slot in table
      ensures slot.bucket < NEW_BUCKET_COUNT
      ensures var i := table[slot]; i in info && !info[i].inTried && slot == NewSlotIn(net, s.key, slot.bucket, info[i].service)
    {
      var i := table[slot];
      var id := l[i];
      assert slot in s.newTable.Keys && Mirrors(s.info[id], info[i], i);
    }
  }

  lemma ReadRefs(s: State, l: seq<int>, info: Infos, table: Table)
    requires Enumerates(s, l) && Column(s, l, info) && SameSlots(l, s.newTable, table) && RefCounts(s.info, s.newTable, {})
    ensures RefCounts(info, table, {})
  {
    hide Slots, Enumerates, SameSlots;
    forall i | i in info
      ensures info[i].refCount == |Slots(table, i)| && info[i].refCount <= NEW_BUCKETS_PER_ADDRESS
      ensures !info[i].inTried ==> info[i].refCount >= 1
    {
      var id := l[i];
      assert Mirrors(s.info[id], info[i], i);
      SameReferences(s, l, table, i);
    }
  }

  lemma SameReferences(s: State, l: seq<int>, table: Table, i: int)
    requires Enumerates(s, l) && SameSlots(l, s.newTable, table) && 0 <= i < |l|
    ensures Slots(table, i) == Slots(s.newTable, l[i])
  {
    forall slot ensures slot in Slots(table, i) <==> slot in Slots(s.newTable, l[i]) {
      assert slot in table.Keys <==> slot in s.newTable.Keys;
      if slot in table {
        var j := table[slot];
        assert l[j] == s.newTable[slot];
      }
    }
  }

  lemma ReadCounts(s: State, l: seq<int>, info: Infos)
    requires Enumerates(s, l) && Column(s, l, info)
    ensures |NewIds(info)| == s.nNew && |TriedIds(info)| == s.nTried
  {
    forall i | 0 <= i < |l| ensures i in info && (info[i].inTried <==> i >= s.nNew) {
      var id := l[i];
      assert Mirrors(s.info[id], info[i], i);
    }
    CountBetween(NewIds(info), 0, s.nNew);
    CountBetween(TriedIds(info), s.nNew, s.nTried);
  }

  lemma {:induction false} CountBetween(ids: set<int>, lo: int, n: nat)
    requires forall x :: x in ids <==> lo <= x < lo + n
    ensures |ids| == n
  {
    if n == 0 {
      if ids != {} {
        Inhabited(ids);
        assert false;
      }
    } else {
      CountBetween(ids - {lo + n - 1}, lo, n - 1);
    }
  }

  lemma NoSlotsYet(s: State, l: seq<int>)
    ensures NewBack(s, l, {}, map[])
  {
  }
}
