/** The on-disk form, field by field (src/addrman.h:269-299). */
module AddrManLayout {
  import opened AddrManState
  import opened AddrManSave
  import opened AddrManRoundTrip
  import opened SortedSets

  // ----- Ascending lists -----

  /** A set has one ascending list. */
  lemma {:induction false} AscendingUnique(a: seq<int>, s: set<int>)
    requires IsAscending(a) && forall x :: x in a <==> x in s
    ensures a == Ascending(s)
  {
    var b := Ascending(s);
    AscendingLists(a, s);
    AscendingLists(b, s);
    forall k: nat | k < |a| ensures a[k] == b[k] {
      RankAt(a, s, k);
      RankAt(b, s, k);
      assert a[k] in b && b[k] in a;
      var j :| 0 <= j < |b| && b[j] == a[k];
      RankAt(b, s, j);
    }
  }

  ghost function Smaller(s: set<int>, x: int): set<int> {
    set y | y in s && y < x
  }

  /** The k-th element of an ascending list has k smaller ones. */
  lemma {:induction false} RankAt(a: seq<int>, s: set<int>, k: nat)
    requires IsAscending(a) && (forall x :: x in a <==> x in s) && k < |a|
    ensures |Smaller(s, a[k])| == k
  {
    if k == 0 {
      assert Smaller(s, a[0]) == {};
    } else {
      RankAt(a, s, k - 1);
      assert a[k - 1] in a;
      assert Smaller(s, a[k]) == Smaller(s, a[k - 1]) + {a[k - 1]};
    }
  }

  // ----- Header and entries -----

  /** What is written of an entry. */
  ghost predicate IsSaved(t: Token, i: Info) {
    t == TEntry(Saved(i.service, i.services, i.nTime, i.source, i.lastSuccess, i.attempts))
  }

  lemma ListedIs(net: Net, s: State)
    requires Consistent(net, s)
    ensures var ids := Ascending(s.info.Keys);
      && Listed(s.info, ids) == Ascending(NewIds(s.info)) && |NewIds(s.info)| == s.nNew
      && Tried(s.info, ids) == Ascending(TriedIds(s.info)) && |TriedIds(s.info)| == s.nTried
  {
    hide Consistent, IsAscending, Ascending;
    var ids := Ascending(s.info.Keys);
    WrittenParts(net, s);
    ListedFacts(s.info, ids);
    TriedFacts(s.info, ids);
    forall x | x in s.info ensures s.info[x].refCount != 0 <==> !s.info[x].inTried {
      ReferencedIffNew(net, s, x);
    }
    AscendingUnique(Listed(s.info, ids), NewIds(s.info));
    AscendingUnique(Tried(s.info, ids), TriedIds(s.info));
  }

  /** From place `at` on the stream has the entries of these ids in ascending order. */
  ghost predicate EntriesFrom(stream: seq<Token>, at: nat, info: Infos, ids: set<int>) {
    at + |ids| <= |stream| && forall k :: 0 <= k < |ids| ==> var id := Ascending(ids)[k];
      id in info && IsSaved(stream[at + k], info[id])
  }

  lemma EntriesThere(info: Infos, ids: set<int>, before: seq<Token>, after: seq<Token>)
    requires forall id :: id in ids ==> id in info
    ensures |Entries(info, Ascending(ids))| == |ids|
    ensures EntriesFrom(before + (Entries(info, Ascending(ids)) + after), |before|, info, ids)
  {
    hide Entries, Ascending;
    var a := Ascending(ids);
    forall i | 0 <= i < |a| ensures var id := a[i]; id in info {
      assert a[i] in a;
    }
    EntriesAt(info, a);
  }

  /** The version, the key size and the key, both counts, and the number of new buckets with bit 30
      flipped. Then the untried entries, the tried ones, and the buckets. */
  ghost predicate Layout(s: State, stream: seq<Token>) {
    var a, b := NewIds(s.info), TriedIds(s.info);
    && |a| == s.nNew && |b| == s.nTried && 6 + |a| + |b| <= |stream|
    && stream[..6] == [TByte(1), TByte(32), TKey(s.key), TInt(s.nNew), TInt(s.nTried), TInt(1024 + 0x4000_0000)]
    && EntriesFrom(stream, 6, s.info, a) && EntriesFrom(stream, 6 + |a|, s.info, b)
    && stream[6 + |a| + |b|..] == BucketTokens(s.info, Ascending(s.info.Keys), s.newTable, 0)
  }

  lemma SavedLayout(net: Net, s: State)
    requires Consistent(net, s)
    ensures Layout(s, Serialize(s))
  {
    hide Consistent, Entries, Ascending, BucketTokens, Listed, Tried, EntriesFrom;
    ListedIs(net, s);
    var ea, eb := Entries(s.info, Ascending(NewIds(s.info))), Entries(s.info, Ascending(TriedIds(s.info)));
    var bt := BucketTokens(s.info, Ascending(s.info.Keys), s.newTable, 0);
    EntriesThere(s.info, NewIds(s.info), Header(s), eb + bt);
    EntriesThere(s.info, TriedIds(s.info), Header(s) + ea, bt);
    Parts(Header(s), ea, eb, bt);
  }

  lemma Parts(h: seq<Token>, a: seq<Token>, b: seq<Token>, c: seq<Token>)
    ensures h + a + b + c == h + (a + (b + c)) == (h + a) + (b + c)
    ensures (h + a + b + c)[..|h|] == h && (h + a + b + c)[|h| + |a| + |b|..] == c
  {
  }

  // ----- Buckets -----

  /** The occupied positions of a bucket from `p` on. */
  ghost function Positions(table: Table, b: nat, p: nat): set<int> {
    set q: int | p <= q < BUCKET_SIZE && Slot(b, q) in table
  }

  /** An untried entry is written under the number of untried entries with a smaller id. */
  lemma SavedIndex(net: Net, s: State, id: int)
    requires Consistent(net, s) && id in s.info && !s.info[id].inTried
    ensures Index(s.info, Ascending(s.info.Keys), id) == |Smaller(NewIds(s.info), id)|
  {
    hide Consistent, Ascending, Index, Listed, Smaller;
    var ids := Ascending(s.info.Keys);
    ListedIs(net, s);
    var a := Ascending(NewIds(s.info));
    assert id in NewIds(s.info) && id in a;
    IndexFacts(s.info, ids, id);
    RankAt(a, NewIds(s.info), Index(s.info, ids, id));
  }

  /** These tokens are the numbers of the entries at these positions. */
  ghost predicate Matching(info: Infos, ids: seq<int>, table: Table, b: nat, tokens: seq<Token>, qs: seq<int>) {
    |tokens| == |qs| && forall j :: 0 <= j < |qs| ==> var q := qs[j];
      q >= 0 && Slot(b, q) in table && tokens[j] == TInt(Index(info, ids, table[Slot(b, q)]))
  }

  lemma MatchingMore(info: Infos, ids: seq<int>, table: Table, b: nat, tokens: seq<Token>, qs: seq<int>, p: nat)
    requires Matching(info, ids, table, b, tokens, qs) && Slot(b, p) in table
    ensures Matching(info, ids, table, b, [TInt(Index(info, ids, table[Slot(b, p)]))] + tokens, [p] + qs)
  {
    hide Index;
  }

  lemma {:induction false} SlotTokensAre(info: Infos, ids: seq<int>, table: Table, b: nat, p: nat)
    requires p <= BUCKET_SIZE
    ensures var qs := Ascending(Positions(table, b, p));
      |qs| == Occupied(table, b, p) && Matching(info, ids, table, b, SlotTokens(info, ids, table, b, p), qs)
    decreases BUCKET_SIZE - p
  {
    hide Index, Ascending, Positions, SlotTokens, Occupied, Matching;
    SlotTokensUnfold(info, ids, table, b, p);
    if p == BUCKET_SIZE {
      assert Matching(info, ids, table, b, [], []) by {
        MatchingNone(info, ids, table, b);
      }
    } else {
      SlotTokensAre(info, ids, table, b, p + 1);
      PositionsFrom(table, b, p);
      var tokens, qs := SlotTokens(info, ids, table, b, p + 1), Ascending(Positions(table, b, p + 1));
      if Slot(b, p) in table {
        MatchingMore(info, ids, table, b, tokens, qs, p);
      } else {
        assert [] + qs == qs;
      }
    }
  }

  lemma MatchingNone(info: Infos, ids: seq<int>, table: Table, b: nat)
    ensures Matching(info, ids, table, b, [], [])
  {
  }

  lemma SlotTokensUnfold(info: Infos, ids: seq<int>, table: Table, b: nat, p: nat)
    requires p <= BUCKET_SIZE
    ensures p == BUCKET_SIZE ==> Positions(table, b, p) == {} && SlotTokens(info, ids, table, b, p) == [] && Occupied(table, b, p) == 0
    ensures p < BUCKET_SIZE && Slot(b, p) in table ==>
      && SlotTokens(info, ids, table, b, p) == [TInt(Index(info, ids, table[Slot(b, p)]))] + SlotTokens(info, ids, table, b, p + 1)
      && Occupied(table, b, p) == 1 + Occupied(table, b, p + 1)
    ensures p < BUCKET_SIZE && Slot(b, p) !in table ==>
      && SlotTokens(info, ids, table, b, p) == SlotTokens(info, ids, table, b, p + 1)
      && Occupied(table, b, p) == Occupied(table, b, p + 1)
  {
    hide Index;
  }

  lemma PositionsFrom(table: Table, b: nat, p: nat)
    requires p < BUCKET_SIZE
    ensures Ascending(Positions(table, b, p)) ==
      (if Slot(b, p) in table then [p] else []) + Ascending(Positions(table, b, p + 1))
  {
    hide Ascending;
    var here := if Slot(b, p) in table then [p] else [];
    var rest := Ascending(Positions(table, b, p + 1));
    var all := here + rest;
    forall i, j | 0 <= i < j < |all| ensures all[i] < all[j] {
      assert all[j] in rest || j < |here|;
    }
    forall x ensures x in all <==> x in Positions(table, b, p) {
      assert x in all <==> x in here || x in rest;
    }
    AscendingUnique(all, Positions(table, b, p));
  }

  /** The j-th reference of a bucket, by position. */
  ghost predicate ReferenceAt(s: State, here: seq<Token>, b: nat, j: nat)
    requires j < |Positions(s.newTable, b, 0)|
  {
    var q := Ascending(Positions(s.newTable, b, 0))[j];
    && q >= 0 && Slot(b, q) in s.newTable && 1 + j < |here|
    && here[1 + j] == TInt(|Smaller(NewIds(s.info), s.newTable[Slot(b, q)])|)
  }

  /** A bucket is the number of its references and then, by position, the numbers under which the
      referenced entries were written. The next bucket follows, after the last one nothing. */
  lemma SavedBucket(net: Net, s: State, b: nat)
    requires Consistent(net, s) && b < NEW_BUCKET_COUNT
    ensures var ids, n := Ascending(s.info.Keys), |Positions(s.newTable, b, 0)|;
      var here, next := BucketTokens(s.info, ids, s.newTable, b), BucketTokens(s.info, ids, s.newTable, b + 1);
      && 1 + n <= |here| && here[0] == TInt(n) && here[1 + n..] == next && (b == NEW_BUCKET_COUNT - 1 ==> next == [])
      && forall j: nat :: j < n ==> ReferenceAt(s, here, b, j)
  {
    hide Ascending, Consistent, ReferenceAt, Positions, SlotTokens;
    var ids, n := Ascending(s.info.Keys), |Positions(s.newTable, b, 0)|;
    SlotTokensAre(s.info, ids, s.newTable, b, 0);
    var refs, next := SlotTokens(s.info, ids, s.newTable, b, 0), BucketTokens(s.info, ids, s.newTable, b + 1);
    forall j: nat | j < n ensures ReferenceAt(s, [TInt(n)] + refs + next, b, j) {
      SavedReference(net, s, b, j, next);
    }
  }

  lemma SavedReference(net: Net, s: State, b: nat, j: nat, next: seq<Token>)
    requires Consistent(net, s) && j < |Positions(s.newTable, b, 0)|
    ensures var ids, n := Ascending(s.info.Keys), |Positions(s.newTable, b, 0)|;
      ReferenceAt(s, [TInt(n)] + SlotTokens(s.info, ids, s.newTable, b, 0) + next, b, j)
  {
    hide Ascending, Consistent, Positions, SlotTokens, Index, Smaller;
    SlotTokensAre(s.info, Ascending(s.info.Keys), s.newTable, b, 0);
    var q := Ascending(Positions(s.newTable, b, 0))[j];
    UntriedSlot(net, s, Slot(b, q));
    SavedIndex(net, s, s.newTable[Slot(b, q)]);
  }

  lemma UntriedSlot(net: Net, s: State, slot: Slot)
    requires Consistent(net, s) && slot in s.newTable
    ensures var id := s.newTable[slot]; id in s.info && !s.info[id].inTried
  {
    hide Indexed, TriedIndex, RefCounts, Counted, CollisionsPending;
  }

  // ----- Files with other buckets -----

  /** The new slot that the source of the m-th entry selects, entries counting from `n`. */
  ghost predicate Selects(net: Net, key: nat, rest: seq<Token>, n: int, u: Slot, m: int) {
    n <= m < n + |rest| && rest[m - n].TEntry? && NewSlot(net, key, rest[m - n].entry.service, rest[m - n].entry.source) == u
  }

  ghost predicate FirstFor(net: Net, key: nat, rest: seq<Token>, n: int, u: Slot, m: int) {
    Selects(net, key, rest, n, u, m) && forall j :: n <= j < m ==> !Selects(net, key, rest, n, u, j)
  }

  /** Without usable buckets every slot goes to the first entry whose own source selects it. */
  lemma {:induction false} ForeignNew(net: Net, t: State, rest: seq<Token>, n: int, u: Slot, m: int)
    requires n <= m < t.nNew && u !in t.newTable && FirstFor(net, t.key, rest, n, u, m)
    requires LoadNew(net, t, rest, n, false).Parsed?
    ensures var r := LoadNew(net, t, rest, n, false).state; u in r.newTable && r.newTable[u] == m
    decreases t.nNew - n
  {
    hide NewSlot;
    var t1 := WithNew(net, t, rest[0].entry, n, false);
    if m == n {
      assert u in t1.newTable && t1.newTable[u] == n;
      ForeignKept(net, t1, rest[1..], n + 1, u);
    } else {
      assert !Selects(net, t.key, rest, n, u, n);
      FirstLater(net, t.key, rest, n, u, m);
      ForeignNew(net, t1, rest[1..], n + 1, u, m);
    }
  }

  lemma FirstLater(net: Net, key: nat, rest: seq<Token>, n: int, u: Slot, m: int)
    requires FirstFor(net, key, rest, n, u, m) && m > n
    ensures FirstFor(net, key, rest[1..], n + 1, u, m)
  {
    hide NewSlot;
    var later, next := rest[1..], n + 1;
    forall j | next <= j < m ensures !Selects(net, key, later, next, u, j) {
      assert !Selects(net, key, rest, n, u, j);
    }
  }

  lemma {:induction false} ForeignKept(net: Net, t: State, rest: seq<Token>, n: int, u: Slot)
    requires u in t.newTable && LoadNew(net, t, rest, n, false).Parsed?
    ensures var r := LoadNew(net, t, rest, n, false).state; u in r.newTable && r.newTable[u] == t.newTable[u]
    decreases t.nNew - n
  {
    hide NewSlot;
    if n < t.nNew {
      ForeignKept(net, WithNew(net, t, rest[0].entry, n, false), rest[1..], n + 1, u);
    }
  }

  /** And the buckets of such a file are skipped. */
  lemma {:induction false} ForeignBuckets(net: Net, t: State, rest: seq<Token>, bucket: nat, count: int)
    requires LoadBuckets(net, t, rest, bucket, count, false).Parsed?
    ensures LoadBuckets(net, t, rest, bucket, count, false).state == t
    decreases count - bucket
  {
    if bucket < count {
      ForeignSlots(net, t, rest[1..], bucket, 0, rest[0].value);
      ForeignBuckets(net, t, LoadSlots(net, t, rest[1..], bucket, 0, rest[0].value, false).rest, bucket + 1, count);
    }
  }

  lemma {:induction false} ForeignSlots(net: Net, t: State, rest: seq<Token>, bucket: nat, n: int, size: int)
    ensures LoadSlots(net, t, rest, bucket, n, size, false).Parsed? ==> LoadSlots(net, t, rest, bucket, n, size, false).state == t
    decreases size - n
  {
    if n < size && rest != [] && rest[0].TInt? {
      ForeignSlots(net, t, rest[1..], bucket, n + 1, size);
    }
  }

  // ----- Tried entries that share a slot -----

  /** The tried slot of the m-th entry. */
  ghost predicate Wants(net: Net, key: nat, rest: seq<Token>, n: int, u: Slot, m: int) {
    n <= m < n + |rest| && rest[m - n].TEntry? && TriedSlot(net, key, rest[m - n].entry.service) == u
  }

  ghost predicate FirstTried(net: Net, key: nat, rest: seq<Token>, n: int, u: Slot, m: int) {
    Wants(net, key, rest, n, u, m) && forall j :: n <= j < m ==> !Wants(net, key, rest, n, u, j)
  }

  /** A tried entry as it was read. */
  ghost predicate TriedAs(t: State, u: Slot, e: Saved) {
    u in t.triedTable && (var id := t.triedTable[u]; id in t.info && t.info[id].inTried && Save(t.info[id]) == e && id < t.idCount)
  }

  /** Of several tried entries in a file with one slot, the first gets it. */
  lemma {:induction false} FirstTriedKept(net: Net, t: State, rest: seq<Token>, n: int, lost: nat, u: Slot, m: int)
    requires n <= m < t.nTried && t.idCount >= 0 && u !in t.triedTable && FirstTried(net, t.key, rest, n, u, m)
    requires LoadTried(net, t, rest, n, lost).Parsed?
    ensures TriedAs(LoadTried(net, t, rest, n, lost).state, u, rest[m - n].entry)
    decreases t.nTried - n
  {
    hide TriedSlot, LoadTried;
    LoadTriedUnfold(net, t, rest, n, lost);
    var k := TriedSlot(net, t.key, rest[0].entry.service);
    if m == n {
      assert TriedAs(WithTried(net, t, rest[0].entry), u, rest[0].entry);
      TriedKept(net, WithTried(net, t, rest[0].entry), rest[1..], n + 1, lost, u, rest[0].entry);
    } else {
      assert !Wants(net, t.key, rest, n, u, n);
      TriedLater(net, t.key, rest, n, u, m);
      if k in t.triedTable {
        FirstTriedKept(net, t, rest[1..], n + 1, lost + 1, u, m);
      } else {
        FirstTriedKept(net, WithTried(net, t, rest[0].entry), rest[1..], n + 1, lost, u, m);
      }
    }
  }

  lemma TriedLater(net: Net, key: nat, rest: seq<Token>, n: int, u: Slot, m: int)
    requires FirstTried(net, key, rest, n, u, m) && m > n
    ensures FirstTried(net, key, rest[1..], n + 1, u, m)
  {
    hide TriedSlot;
    var later, next := rest[1..], n + 1;
    forall j | next <= j < m ensures !Wants(net, key, later, next, u, j) {
      assert !Wants(net, key, rest, n, u, j);
    }
  }

  lemma {:induction false} TriedKept(net: Net, t: State, rest: seq<Token>, n: int, lost: nat, u: Slot, e: Saved)
    requires TriedAs(t, u, e) && t.idCount >= 0 && LoadTried(net, t, rest, n, lost).Parsed?
    ensures TriedAs(LoadTried(net, t, rest, n, lost).state, u, e)
    decreases t.nTried - n
  {
    hide TriedSlot, LoadTried;
    LoadTriedUnfold(net, t, rest, n, lost);
    if n < t.nTried {
      if TriedSlot(net, t.key, rest[0].entry.service) in t.triedTable {
        TriedKept(net, t, rest[1..], n + 1, lost + 1, u, e);
      } else {
        TriedKept(net, WithTried(net, t, rest[0].entry), rest[1..], n + 1, lost, u, e);
      }
    }
  }
}
