/** Compact block relay (src/blockencodings.h, src/blockencodings.cpp, BIP 152): from short ids
    and what the mempool has, the receiver rebuilds the block. */
module CompactBlocks {
  import opened SortedSets
  import opened Wrappers

  type Tx = nat

  /** The short id of a transaction hash under the block's key, and the witness hash of a
      transaction. */
  datatype Env = Env(shortId: nat -> nat, fullId: Tx -> nat)

  /** A transaction offered by the mempool or the extra pool under its hash. */
  datatype Candidate = Candidate(hash: nat, tx: Tx)

  /** `index` counts the slots skipped since the last prefilled one. */
  datatype Prefilled = Prefilled(index: nat, tx: Option<Tx>)

  datatype Compact = Compact(headerNull: bool, ids: seq<nat>, prefilled: seq<Prefilled>)

  datatype Status = Ok | Invalid | Failed | CheckFailed

  const MAX_INDEX: nat := 65535
  const MAX_TXN: nat := 100000

  type Slots = seq<Option<Tx>>

  function TxCount(c: Compact): nat {
    |c.ids| + |c.prefilled|
  }

  // ----- Free slots -----

  /** The empty slots below `n`, in order. */
  function FreeTo(a: Slots, n: nat): (f: seq<nat>)
    requires n <= |a|
    ensures |f| <= n && forall i :: 0 <= i < |f| ==> f[i] < n && a[f[i]].None?
    ensures forall i, j :: 0 <= i < j < |f| ==> f[i] < f[j]
  {
    if n == 0 then [] else if a[n - 1].None? then FreeTo(a, n - 1) + [n - 1] else FreeTo(a, n - 1)
  }

  function Free(a: Slots): seq<nat> {
    FreeTo(a, |a|)
  }

  /** Every empty slot is listed. */
  lemma {:induction false} FreeComplete(a: Slots, n: nat, j: nat)
    requires j < n <= |a| && a[j].None?
    ensures j in FreeTo(a, n)
  {
    if j < n - 1 {
      FreeComplete(a, n - 1, j);
    }
  }

  lemma {:induction false} FreePrefix(a: Slots, m: nat, n: nat)
    requires m <= n <= |a|
    ensures FreeTo(a, m) <= FreeTo(a, n)
  {
    if m < n {
      FreePrefix(a, m, n - 1);
    }
  }

  /** An empty slot stands in the list at the number of empty slots before it. */
  lemma FreePlace(a: Slots, n: nat)
    requires n < |a| && a[n].None?
    ensures |FreeTo(a, n)| < |Free(a)| && Free(a)[|FreeTo(a, n)|] == n
  {
    FreePrefix(a, n + 1, |a|);
    assert FreeTo(a, n + 1)[|FreeTo(a, n)|] == n;
  }

  lemma {:induction false} FreeSame(a: Slots, b: Slots, n: nat)
    requires n <= |a| && n <= |b| && forall i :: 0 <= i < n ==> a[i].None? == b[i].None?
    ensures FreeTo(a, n) == FreeTo(b, n)
  {
    if n > 0 {
      FreeSame(a, b, n - 1);
    }
  }

  lemma {:induction false} FreeFill(a: Slots, j: nat, tx: Tx, n: nat)
    requires j < n <= |a| && a[j].None?
    ensures |FreeTo(a[j := Some(tx)], n)| == |FreeTo(a, n)| - 1
  {
    if j == n - 1 {
      FreeSame(a, a[j := Some(tx)], j);
    } else {
      FreeFill(a, j, tx, n - 1);
    }
  }

  lemma {:induction false} FreeAll(a: Slots, n: nat)
    requires n <= |a| && forall i :: 0 <= i < |a| ==> a[i].None?
    ensures |FreeTo(a, n)| == n
  {
    if n > 0 {
      FreeAll(a, n - 1);
    }
  }

  // ----- Prefilled transactions -----

  /** The slot of the last of the first `k` prefilled transactions, or -1. */
  function LastIndex(p: seq<Prefilled>, k: nat): (i: int)
    requires k <= |p|
    ensures i >= -1
  {
    if k == 0 then -1 else LastIndex(p, k - 1) + p[k - 1].index + 1
  }

  lemma {:induction false} LastIndexGrows(p: seq<Prefilled>, j: nat, k: nat)
    requires j <= k <= |p|
    ensures LastIndex(p, j) + (k - j) <= LastIndex(p, k)
  {
    if j < k {
      LastIndexGrows(p, j, k - 1);
    }
  }

  /** The source's test of the prefilled transaction at place `k`. */
  /** The index of a prefilled transaction is the number of places since the one before. */
  predicate Distance(p: seq<Prefilled>, at: seq<nat>, j: nat)
    requires |at| == |p| && j < |p|
  {
    at[j] == p[j].index + if j == 0 then 0 else at[j - 1] + 1
  }

  lemma {:induction false} PrefilledPlaces(p: seq<Prefilled>, at: seq<nat>, k: nat)
    requires |at| == |p| && k < |p|
    requires forall j: nat :: j < |p| ==> Distance(p, at, j)
    ensures LastIndex(p, k + 1) == at[k]
  {
    assert Distance(p, at, k);
    assert LastIndex(p, 0) == -1;
    if k > 0 {
      PrefilledPlaces(p, at, k - 1);
    }
  }

  predicate PrefilledFits(c: Compact, k: nat)
    requires k < |c.prefilled|
  {
    c.prefilled[k].tx.Some? && LastIndex(c.prefilled, k + 1) <= MAX_INDEX && LastIndex(c.prefilled, k + 1) <= |c.ids| + k
  }

  ghost predicate PrefilledOk(c: Compact) {
    forall k :: 0 <= k < |c.prefilled| ==> PrefilledFits(c, k)
  }

  /** The slots hold the first `k` prefilled transactions and nothing else. */
  ghost predicate Holds(c: Compact, a: Slots, k: nat)
    requires k <= |c.prefilled|
  {
    && |a| == TxCount(c)
    && (forall j :: 0 <= j < k ==> PrefilledFits(c, j) && HoldsAt(c, a, j))
    && |Free(a)| + k == |a|
    && (forall i :: LastIndex(c.prefilled, k) < i < |a| ==> a[i].None?)
  }

  predicate HoldsAt(c: Compact, a: Slots, j: nat)
    requires j < |c.prefilled|
  {
    var at := LastIndex(c.prefilled, j + 1);
    0 <= at < |a| && a[at] == c.prefilled[j].tx
  }

  lemma HoldsNext(c: Compact, a: Slots, k: nat)
    requires k < |c.prefilled| && Holds(c, a, k) && PrefilledFits(c, k)
    ensures var at := LastIndex(c.prefilled, k + 1); 0 <= at < |a| && Holds(c, a[at := c.prefilled[k].tx], k + 1)
  {
    hide FreeTo, LastIndex;
    LastIndexGrows(c.prefilled, 0, k);
    LastIndexGrows(c.prefilled, k, k + 1);
    LastIndexStart(c.prefilled);
    var at := LastIndex(c.prefilled, k + 1);
    var b := a[at := c.prefilled[k].tx];
    FreeFill(a, at, c.prefilled[k].tx.value, |a|);
    forall j | 0 <= j < k + 1 ensures PrefilledFits(c, j) && HoldsAt(c, b, j) {
      if j < k {
        assert PrefilledFits(c, j) && HoldsAt(c, a, j);
        LastIndexGrows(c.prefilled, j + 1, k + 1);
      }
    }
  }

  lemma LastIndexStart(p: seq<Prefilled>)
    ensures LastIndex(p, 0) == -1
  {
  }

  lemma HoldsStart(c: Compact, a: Slots)
    requires |a| == TxCount(c) && forall i :: 0 <= i < |a| ==> a[i].None?
    ensures Holds(c, a, 0)
  {
    FreeAll(a, |a|);
  }

  // ----- Matching -----

  predicate Matches(env: Env, c: Candidate, id: nat) {
    env.shortId(c.hash) == id
  }

  ghost predicate Seen(env: Env, cs: seq<Candidate>, id: nat) {
    exists k :: 0 <= k < |cs| && Matches(env, cs[k], id)
  }

  /** The transaction is one that was offered under this short id. */
  ghost predicate Offered(env: Env, cs: seq<Candidate>, id: nat, tx: Tx) {
    exists k :: 0 <= k < |cs| && Matches(env, cs[k], id) && cs[k].tx == tx
  }

  ghost predicate IsFirst(env: Env, cs: seq<Candidate>, id: nat, k: int) {
    0 <= k < |cs| && Matches(env, cs[k], id) && forall j :: 0 <= j < k ==> !Matches(env, cs[j], id)
  }

  lemma FirstStays(env: Env, front: seq<Candidate>, c: Candidate, id: nat, r: Option<Tx>)
    requires r.Some? <==> Seen(env, front, id)
    requires r.Some? ==> exists k :: IsFirst(env, front, id, k) && r.value == front[k].tx
    ensures var cs := front + [c];
      && (r.Some? ==> exists k :: IsFirst(env, cs, id, k) && r.value == cs[k].tx)
      && (r.None? && Matches(env, c, id) ==> IsFirst(env, cs, id, |front|))
  {
    hide Matches;
    var cs := front + [c];
    if r.Some? {
      var k :| IsFirst(env, front, id, k) && r.value == front[k].tx;
      assert IsFirst(env, cs, id, k);
    }
  }

  /** The transaction of the first match. */
  function FirstMatch(env: Env, cs: seq<Candidate>, id: nat): (r: Option<Tx>)
    ensures r.Some? <==> Seen(env, cs, id)
    ensures r.Some? ==> Offered(env, cs, id, r.value)
    ensures r.Some? ==> exists k :: IsFirst(env, cs, id, k) && r.value == cs[k].tx
  {
    if cs == [] then None else
    var n := |cs| - 1;
    var r := FirstMatch(env, cs[..n], id);
    SeenMore(env, cs[..n], cs[n], id);
    FirstStays(env, cs[..n], cs[n], id, r);
    assert cs == cs[..n] + [cs[n]];
    if r.Some? then r else if Matches(env, cs[n], id) then Some(cs[n].tx) else None
  }

  lemma FirstMore(env: Env, cs: seq<Candidate>, c: Candidate, id: nat)
    ensures var r := FirstMatch(env, cs, id);
      FirstMatch(env, cs + [c], id) == if r.Some? then r else if Matches(env, c, id) then Some(c.tx) else None
  {
    hide Matches, Seen, Offered;
    assert (cs + [c])[..|cs|] == cs;
  }

  ghost predicate PoolPair(env: Env, pool: seq<Candidate>, id: nat) {
    exists j, k :: 0 <= j < k < |pool| && Matches(env, pool[j], id) && Matches(env, pool[k], id)
  }

  /** Extra candidate `k` matches, and has another witness hash than the offered `tx`. */
  ghost predicate Differs(env: Env, pool: seq<Candidate>, extra: seq<Candidate>, id: nat, k: nat, tx: Tx) {
    && k < |extra| && Matches(env, extra[k], id) && env.fullId(tx) != env.fullId(extra[k].tx)
    && (Offered(env, pool, id, tx) || Offered(env, extra, id, tx))
  }

  /** Two mempool transactions match, or an extra one has another witness hash than some match. */
  ghost predicate Conflict(env: Env, pool: seq<Candidate>, extra: seq<Candidate>, id: nat) {
    PoolPair(env, pool, id) || exists k, tx :: Differs(env, pool, extra, id, k, tx)
  }

  /** The first match, mempool before extra. */
  function FirstOf(env: Env, pool: seq<Candidate>, extra: seq<Candidate>, id: nat): Option<Tx> {
    var r := FirstMatch(env, pool, id);
    if r.Some? then r else FirstMatch(env, extra, id)
  }

  /** What the slot of a short id must hold once these candidates have been looked at: the first
      match, or nothing if the matches conflict. */
  ghost function SlotOf(env: Env, id: nat, pool: seq<Candidate>, extra: seq<Candidate>): Option<Tx> {
    if Conflict(env, pool, extra, id) then None else FirstOf(env, pool, extra, id)
  }

  ghost predicate SlotOk(env: Env, id: nat, slot: Option<Tx>, have: bool, pool: seq<Candidate>, extra: seq<Candidate>) {
    && (have <==> Seen(env, pool, id) || Seen(env, extra, id))
    && slot == SlotOf(env, id, pool, extra)
  }

  lemma SeenMore(env: Env, cs: seq<Candidate>, c: Candidate, id: nat)
    ensures Seen(env, cs + [c], id) <==> Seen(env, cs, id) || Matches(env, c, id)
    ensures forall tx :: Offered(env, cs + [c], id, tx) <==> Offered(env, cs, id, tx) || (Matches(env, c, id) && c.tx == tx)
  {
    hide Matches;
    var ds := cs + [c];
    assert ds[|cs|] == c;
    if Seen(env, cs, id) {
      var k :| 0 <= k < |cs| && Matches(env, cs[k], id);
      assert ds[k] == cs[k];
    }
    forall tx | Offered(env, cs, id, tx) ensures Offered(env, ds, id, tx) {
      var k :| 0 <= k < |cs| && Matches(env, cs[k], id) && cs[k].tx == tx;
      assert ds[k] == cs[k];
    }
  }

  lemma PairMore(env: Env, pool: seq<Candidate>, c: Candidate, id: nat)
    ensures PoolPair(env, pool + [c], id) <==> PoolPair(env, pool, id) || (Seen(env, pool, id) && Matches(env, c, id))
  {
    hide Matches;
    var p := pool + [c];
    if j, k :| 0 <= j < k < |p| && Matches(env, p[j], id) && Matches(env, p[k], id) {
      assert p[j] == pool[j];
    }
    if j, k :| 0 <= j < k < |pool| && Matches(env, pool[j], id) && Matches(env, pool[k], id) {
      assert p[j] == pool[j] && p[k] == pool[k];
    }
    if k :| 0 <= k < |pool| && Matches(env, pool[k], id) && Matches(env, c, id) {
      assert p[k] == pool[k] && p[|pool|] == c;
    }
  }

  lemma PoolOnly(env: Env, pool: seq<Candidate>, id: nat)
    ensures Conflict(env, pool, [], id) <==> PoolPair(env, pool, id)
    ensures FirstOf(env, pool, [], id) == FirstMatch(env, pool, id)
  {
  }

  /** No two mempool matches, and every extra match has the witness hash of `v`. */
  ghost predicate Agree(env: Env, pool: seq<Candidate>, extra: seq<Candidate>, id: nat, v: Tx) {
    && !PoolPair(env, pool, id)
    && (forall k :: 0 <= k < |extra| && Matches(env, extra[k], id) ==> env.fullId(extra[k].tx) == env.fullId(v))
  }

  /** It is enough to compare with the first match. */
  lemma AgreeIff(env: Env, pool: seq<Candidate>, extra: seq<Candidate>, id: nat, v: Tx)
    requires FirstOf(env, pool, extra, id) == Some(v)
    ensures Conflict(env, pool, extra, id) <==> !Agree(env, pool, extra, id, v)
  {
    hide Matches, FirstMatch;
    if !PoolPair(env, pool, id) {
      if k, tx :| Differs(env, pool, extra, id, k, tx) {
        if Offered(env, pool, id, tx) {
          OnlyOffer(env, pool, id, tx, v);
        } else {
          var m :| 0 <= m < |extra| && Matches(env, extra[m], id) && extra[m].tx == tx;
        }
      }
      if k: nat :| k < |extra| && Matches(env, extra[k], id) && env.fullId(extra[k].tx) != env.fullId(v) {
        assert Differs(env, pool, extra, id, k, v);
      }
    }
  }

  lemma OnlyOffer(env: Env, pool: seq<Candidate>, id: nat, tx: Tx, v: Tx)
    requires !PoolPair(env, pool, id) && Offered(env, pool, id, tx) && FirstMatch(env, pool, id) == Some(v)
    ensures tx == v
  {
    hide Matches, FirstMatch;
    var j :| 0 <= j < |pool| && Matches(env, pool[j], id) && pool[j].tx == tx;
    var k :| 0 <= k < |pool| && Matches(env, pool[k], id) && pool[k].tx == v;
    assert !(j < k) && !(k < j);
  }

  lemma AgreeMore(env: Env, pool: seq<Candidate>, extra: seq<Candidate>, c: Candidate, id: nat, v: Tx)
    ensures Agree(env, pool, extra + [c], id, v) <==>
      Agree(env, pool, extra, id, v) && (Matches(env, c, id) ==> env.fullId(c.tx) == env.fullId(v))
  {
    hide Matches, PoolPair;
    var x := extra + [c];
    assert x[|extra|] == c;
    forall k | 0 <= k < |extra| ensures x[k] == extra[k] {
    }
  }

  /** One mempool candidate: an empty slot is filled, a second match empties it again. */
  function AfterPool(slot: Option<Tx>, have: bool, tx: Tx): Option<Tx> {
    if !have then Some(tx) else None
  }

  function AfterExtra(env: Env, slot: Option<Tx>, have: bool, tx: Tx): Option<Tx> {
    if !have then Some(tx)
    else if slot.Some? && env.fullId(slot.value) != env.fullId(tx) then None
    else slot
  }

  lemma PoolStep(env: Env, id: nat, slot: Option<Tx>, have: bool, pool: seq<Candidate>, c: Candidate)
    requires SlotOk(env, id, slot, have, pool, [])
    ensures if Matches(env, c, id) then SlotOk(env, id, AfterPool(slot, have, c.tx), true, pool + [c], [])
      else SlotOk(env, id, slot, have, pool + [c], [])
  {
    hide Matches, Offered, Conflict, Seen, FirstMatch, FirstOf, PoolPair;
    SeenMore(env, pool, c, id);
    NoneSeen(env, id);
    FirstMore(env, pool, c, id);
    PairMore(env, pool, c, id);
    PairSeen(env, pool, id);
    PoolOnly(env, pool, id);
    PoolOnly(env, pool + [c], id);
  }

  lemma PairSeen(env: Env, pool: seq<Candidate>, id: nat)
    ensures PoolPair(env, pool, id) ==> Seen(env, pool, id)
  {
    hide Matches;
  }

  lemma NoneSeen(env: Env, id: nat)
    ensures !Seen(env, [], id)
  {
  }

  lemma ExtraStep(env: Env, id: nat, slot: Option<Tx>, have: bool, pool: seq<Candidate>, extra: seq<Candidate>, c: Candidate)
    requires SlotOk(env, id, slot, have, pool, extra)
    ensures if Matches(env, c, id) then SlotOk(env, id, AfterExtra(env, slot, have, c.tx), true, pool, extra + [c])
      else SlotOk(env, id, slot, have, pool, extra + [c])
  {
    hide Matches, Offered, Conflict, Seen, FirstMatch, PoolPair, Agree;
    SeenMore(env, extra, c, id);
    FirstMore(env, extra, c, id);
    var now, next := FirstOf(env, pool, extra, id), FirstOf(env, pool, extra + [c], id);
    if now.Some? {
      AgreeIff(env, pool, extra, id, now.value);
      AgreeIff(env, pool, extra + [c], id, now.value);
      AgreeMore(env, pool, extra, c, id, now.value);
    } else {
      NoConflict(env, pool, extra, id);
      if next.Some? {
        AgreeIff(env, pool, extra + [c], id, c.tx);
        AgreeMore(env, pool, extra, c, id, c.tx);
        NoneDiffer(env, pool, extra, id, c.tx);
      } else {
        NoConflict(env, pool, extra + [c], id);
      }
    }
  }

  lemma NoConflict(env: Env, pool: seq<Candidate>, extra: seq<Candidate>, id: nat)
    requires FirstOf(env, pool, extra, id).None?
    ensures !Conflict(env, pool, extra, id)
  {
    hide Matches, FirstMatch;
    PairSeen(env, pool, id);
  }

  lemma NoneDiffer(env: Env, pool: seq<Candidate>, extra: seq<Candidate>, id: nat, v: Tx)
    requires FirstOf(env, pool, extra, id).None?
    ensures Agree(env, pool, extra, id, v)
  {
    hide Matches, FirstMatch;
    PairSeen(env, pool, id);
  }

  // ----- Scanning -----

  type Positions = map<nat, nat>

  /** The short ids are distinct and each is mapped to the free slot of its own rank. */
  ghost predicate Mapped(m: Positions, ids: seq<nat>, free: seq<nat>)
    requires |ids| <= |free|
  {
    && (forall i :: 0 <= i < |ids| ==> var id := ids[i]; id in m && m[id] == free[i])
    && (forall id :: id in m ==> id in ids)
    && (forall i, j :: 0 <= i < j < |ids| ==> ids[i] != ids[j])
  }

  /** The ranks of the free slots that have been filled. */
  ghost function Filled(a: Slots, free: seq<nat>): set<int>
    requires forall i :: 0 <= i < |free| ==> free[i] < |a|
  {
    set i | 0 <= i < |free| && a[free[i]].Some?
  }

  /** A strictly ascending list of slots. */
  ghost predicate Ranks(free: seq<nat>, n: nat) {
    && (forall i :: 0 <= i < |free| ==> free[i] < n)
    && (forall i, j :: 0 <= i < j < |free| ==> free[i] < free[j])
  }

  ghost predicate ScanOk(env: Env, ids: seq<nat>, free: seq<nat>, base: Slots, a: Slots, have: seq<bool>,
    pool: seq<Candidate>, extra: seq<Candidate>)
  {
    && |a| == |base| == |have| && |ids| == |free| && Ranks(free, |a|)
    && (forall j: nat :: j < |a| && j !in free ==> a[j] == base[j])
    && (forall i :: 0 <= i < |ids| ==> RankOk(env, ids, free, a, have, pool, extra, i))
  }

  ghost predicate RankOk(env: Env, ids: seq<nat>, free: seq<nat>, a: Slots, have: seq<bool>,
    pool: seq<Candidate>, extra: seq<Candidate>, i: nat)
    requires i < |ids| == |free| && free[i] < |a| == |have|
  {
    var j := free[i];
    SlotOk(env, ids[i], a[j], have[j], pool, extra)
  }

  lemma FilledChange(a: Slots, free: seq<nat>, i: nat, slot: Option<Tx>)
    requires Ranks(free, |a|) && i < |free|
    ensures |Filled(a[free[i] := slot], free)|
      == |Filled(a, free)| - (if a[free[i]].Some? then 1 else 0) + (if slot.Some? then 1 else 0)
  {
    var b, x: int := a[free[i] := slot], i;
    forall k | 0 <= k < |free| ensures b[free[k]] == if k == i then slot else a[free[k]] {
      assert k < i || k == i || i < k;
    }
    var was, now := Filled(a, free), Filled(b, free);
    forall k ensures k in now <==> if k == x then slot.Some? else k in was {
    }
    assert now == if slot.Some? then was + {x} else was - {x};
    assert x in was <==> a[free[i]].Some?;
  }

  /** All ranks are filled when as many are as there are. */
  lemma AllFilled(a: Slots, free: seq<nat>)
    requires Ranks(free, |a|) && |Filled(a, free)| == |free|
    ensures forall i :: 0 <= i < |free| ==> a[free[i]].Some?
  {
    var all := Range(|free|);
    forall i | 0 <= i < |free| ensures a[free[i]].Some? {
      if i !in Filled(a, free) {
        assert Filled(a, free) <= all - {i};
        SubsetSize(Filled(a, free), all - {i});
      }
    }
  }

  /** The slots of all ranks with another id are right. */
  ghost predicate OthersOk(env: Env, ids: seq<nat>, free: seq<nat>, a: Slots, have: seq<bool>,
    pool: seq<Candidate>, extra: seq<Candidate>, id: nat)
    requires |ids| == |free| && |a| == |have| && Ranks(free, |a|)
  {
    forall i :: 0 <= i < |ids| && ids[i] != id ==> RankOk(env, ids, free, a, have, pool, extra, i)
  }

  /** One slot changes: its rank has the id that was matched, and no other rank has. */
  lemma ScanHit(env: Env, ids: seq<nat>, free: seq<nat>, base: Slots, a: Slots, have: seq<bool>, pool: seq<Candidate>,
    extra: seq<Candidate>, m: Positions, r: nat, slot: Option<Tx>)
    requires |a| == |base| == |have| && |ids| == |free| && Ranks(free, |a|) && Mapped(m, ids, free) && r < |ids|
    requires forall j: nat :: j < |a| && j !in free ==> a[j] == base[j]
    requires OthersOk(env, ids, free, a, have, pool, extra, ids[r]) && SlotOk(env, ids[r], slot, true, pool, extra)
    ensures var j := free[r]; ScanOk(env, ids, free, base, a[j := slot], have[j := true], pool, extra)
  {
    hide SlotOk;
    var j := free[r];
    var b, h := a[j := slot], have[j := true];
    forall i | 0 <= i < |ids| ensures RankOk(env, ids, free, b, h, pool, extra, i) {
      if i != r {
        assert ids[i] != ids[r] && free[i] != j;
        assert RankOk(env, ids, free, a, have, pool, extra, i);
      }
    }
  }

  /** No rank has the id. */
  lemma ScanMiss(env: Env, ids: seq<nat>, free: seq<nat>, base: Slots, a: Slots, have: seq<bool>, pool: seq<Candidate>,
    extra: seq<Candidate>, m: Positions, id: nat)
    requires |a| == |base| == |have| && |ids| == |free| && Ranks(free, |a|) && Mapped(m, ids, free) && id !in m
    requires forall j: nat :: j < |a| && j !in free ==> a[j] == base[j]
    requires OthersOk(env, ids, free, a, have, pool, extra, id)
    ensures ScanOk(env, ids, free, base, a, have, pool, extra)
  {
    hide SlotOk;
    forall i | 0 <= i < |ids| ensures RankOk(env, ids, free, a, have, pool, extra, i) {
      var other := ids[i];
      assert other in m;
    }
  }

  lemma ScanPool(env: Env, ids: seq<nat>, free: seq<nat>, base: Slots, a: Slots, have: seq<bool>, pool: seq<Candidate>,
    c: Candidate, m: Positions)
    requires ScanOk(env, ids, free, base, a, have, pool, []) && Mapped(m, ids, free)
    ensures var id := env.shortId(c.hash);
      if id in m then
        m[id] < |a| && ScanOk(env, ids, free, base, a[m[id] := AfterPool(a[m[id]], have[m[id]], c.tx)], have[m[id] := true], pool + [c], [])
      else ScanOk(env, ids, free, base, a, have, pool + [c], [])
  {
    hide SlotOk, AfterPool, AfterExtra;
    var id := env.shortId(c.hash);
    forall i | 0 <= i < |ids|
      ensures if ids[i] == id then SlotOk(env, id, AfterPool(a[free[i]], have[free[i]], c.tx), true, pool + [c], [])
        else SlotOk(env, ids[i], a[free[i]], have[free[i]], pool + [c], [])
    {
      assert RankOk(env, ids, free, a, have, pool, [], i);
      PoolStep(env, ids[i], a[free[i]], have[free[i]], pool, c);
    }
    if id in m {
      var r :| 0 <= r < |ids| && ids[r] == id;
      var j := free[r];
      assert m[id] == j;
      ScanHit(env, ids, free, base, a, have, pool + [c], [], m, r, AfterPool(a[j], have[j], c.tx));
    } else {
      ScanMiss(env, ids, free, base, a, have, pool + [c], [], m, id);
    }
  }

  lemma ScanExtra(env: Env, ids: seq<nat>, free: seq<nat>, base: Slots, a: Slots, have: seq<bool>, pool: seq<Candidate>,
    extra: seq<Candidate>, c: Candidate, m: Positions)
    requires ScanOk(env, ids, free, base, a, have, pool, extra) && Mapped(m, ids, free)
    ensures var id := env.shortId(c.hash);
      if id in m then
        && m[id] < |a|
        && (var a' := a[m[id] := AfterExtra(env, a[m[id]], have[m[id]], c.tx)];
            ScanOk(env, ids, free, base, a', have[m[id] := true], pool, extra + [c]))
      else ScanOk(env, ids, free, base, a, have, pool, extra + [c])
  {
    hide SlotOk, AfterPool, AfterExtra;
    var id := env.shortId(c.hash);
    forall i | 0 <= i < |ids|
      ensures if ids[i] == id then SlotOk(env, id, AfterExtra(env, a[free[i]], have[free[i]], c.tx), true, pool, extra + [c])
        else SlotOk(env, ids[i], a[free[i]], have[free[i]], pool, extra + [c])
    {
      assert RankOk(env, ids, free, a, have, pool, extra, i);
      ExtraStep(env, ids[i], a[free[i]], have[free[i]], pool, extra, c);
    }
    if id in m {
      var r :| 0 <= r < |ids| && ids[r] == id;
      var j := free[r];
      assert m[id] == j;
      ScanHit(env, ids, free, base, a, have, pool, extra + [c], m, r, AfterExtra(env, a[j], have[j], c.tx));
    } else {
      ScanMiss(env, ids, free, base, a, have, pool, extra + [c], m, id);
    }
  }

  lemma ScanStart(env: Env, ids: seq<nat>, free: seq<nat>, base: Slots, have: seq<bool>)
    requires |have| == |base| && |ids| == |free| && free == Free(base) && forall j :: 0 <= j < |have| ==> !have[j]
    ensures ScanOk(env, ids, free, base, base, have, [], []) && Filled(base, free) == {}
  {
    forall i | 0 <= i < |ids| ensures RankOk(env, ids, free, base, have, [], [], i) {
      NoneSeen(env, ids[i]);
    }
  }

  // ----- What InitData leaves -----

  /** Every short id has its transaction. */
  ghost predicate AllTaken(env: Env, ids: seq<nat>, pool: seq<Candidate>, extra: seq<Candidate>) {
    forall i :: 0 <= i < |ids| ==> SlotOf(env, ids[i], pool, extra).Some?
  }

  /** The mempool is looked at up to the first candidate after which all are taken. */
  ghost predicate PoolStops(env: Env, ids: seq<nat>, pool: seq<Candidate>, p: nat) {
    && p <= |pool| && (p < |pool| ==> p > 0 && AllTaken(env, ids, pool[..p], []))
    && (forall q :: 0 < q < p ==> !AllTaken(env, ids, pool[..q], []))
  }

  /** So are the extra transactions, whatever the mempool gave. */
  ghost predicate ExtraStops(env: Env, ids: seq<nat>, pool: seq<Candidate>, extra: seq<Candidate>, x: nat) {
    && x <= |extra| && (x < |extra| ==> x > 0 && AllTaken(env, ids, pool, extra[..x]))
    && (forall y :: 0 < y < x ==> !AllTaken(env, ids, pool, extra[..y]))
  }

  /** How far a scan looks is determined. */
  lemma StopsOnce(env: Env, ids: seq<nat>, pool: seq<Candidate>, p: nat, q: nat)
    requires PoolStops(env, ids, pool, p) && PoolStops(env, ids, pool, q)
    ensures p == q
  {
    hide AllTaken;
    assert p < q ==> p < |pool|;
    assert q < p ==> q < |pool|;
  }

  /** The number of filled slots says whether all are taken. */
  lemma TakenCount(env: Env, ids: seq<nat>, free: seq<nat>, base: Slots, a: Slots, have: seq<bool>, pool: seq<Candidate>,
    extra: seq<Candidate>)
    requires ScanOk(env, ids, free, base, a, have, pool, extra)
    ensures |Filled(a, free)| == |ids| <==> AllTaken(env, ids, pool, extra)
  {
    hide SlotOf;
    forall i | 0 <= i < |ids| ensures a[free[i]] == SlotOf(env, ids[i], pool, extra) {
      assert RankOk(env, ids, free, a, have, pool, extra, i);
    }
    if |Filled(a, free)| == |ids| {
      AllFilled(a, free);
    }
    if AllTaken(env, ids, pool, extra) {
      assert Filled(a, free) == Range(|ids|);
    }
  }

  /** The slot of a short id holds a transaction offered under it, or stays empty because
      none was offered or the offers conflict. */
  ghost predicate SlotResult(env: Env, id: nat, slot: Option<Tx>, pool: seq<Candidate>, extra: seq<Candidate>) {
    if slot.Some? then Offered(env, pool, id, slot.value) || Offered(env, extra, id, slot.value)
    else (!Seen(env, pool, id) && !Seen(env, extra, id)) || Conflict(env, pool, extra, id)
  }

  /** The slots after InitData: the prefilled transactions in their places, and the i-th short
      id at the i-th other slot. */
  ghost predicate Initialized(env: Env, c: Compact, a: Slots, pool: seq<Candidate>, extra: seq<Candidate>) {
    && PrefilledOk(c) && |a| == TxCount(c)
    && (forall k :: 0 <= k < |c.prefilled| ==> HoldsAt(c, a, k))
    && (forall i, j :: 0 <= i < j < |c.ids| ==> c.ids[i] != c.ids[j])
    && exists base: Slots, p: nat, x: nat :: Holds(c, base, |c.prefilled|) && Placed(env, c, base, a, pool, extra, p, x)
  }

  /** The first `p` mempool and the first `x` extra candidates were looked at, and decide every
      slot. */
  ghost predicate Placed(env: Env, c: Compact, base: Slots, a: Slots, pool: seq<Candidate>, extra: seq<Candidate>, p: nat, x: nat) {
    && |base| == |a| && |Free(base)| == |c.ids|
    && PoolStops(env, c.ids, pool, p) && ExtraStops(env, c.ids, pool[..p], extra, x)
    && forall i :: 0 <= i < |c.ids| ==> a[Free(base)[i]] == SlotOf(env, c.ids[i], pool[..p], extra[..x])
  }

  /** Against all candidates: a slot is empty only if none was offered or the offers conflict. */
  lemma SlotReason(env: Env, c: Compact, base: Slots, a: Slots, pool: seq<Candidate>, extra: seq<Candidate>, p: nat, x: nat, i: nat)
    requires Placed(env, c, base, a, pool, extra, p, x) && i < |c.ids|
    ensures SlotResult(env, c.ids[i], a[Free(base)[i]], pool, extra)
  {
    hide FreeTo, Conflict, Seen, Offered, FirstMatch, AllTaken;
    var id, slot := c.ids[i], a[Free(base)[i]];
    LiftOffered(env, pool, p, id);
    LiftOffered(env, extra, x, id);
    if slot.None? {
      if Conflict(env, pool[..p], extra[..x], id) {
        LiftConflict(env, pool, extra, p, x, id);
      } else {
        assert !Seen(env, pool[..p], id) && !Seen(env, extra[..x], id);
        Unseen(env, c.ids, pool, extra, p, x, i);
      }
    }
  }

  /** A scan that stops early has seen every id. */
  lemma Unseen(env: Env, ids: seq<nat>, pool: seq<Candidate>, extra: seq<Candidate>, p: nat, x: nat, i: nat)
    requires PoolStops(env, ids, pool, p) && ExtraStops(env, ids, pool[..p], extra, x) && i < |ids|
    requires !Seen(env, pool[..p], ids[i]) && !Seen(env, extra[..x], ids[i])
    ensures !Seen(env, pool, ids[i]) && !Seen(env, extra, ids[i])
  {
    hide Seen, Conflict, FirstMatch;
    NoneSeen(env, ids[i]);
    assert p == |pool| && pool[..p] == pool;
    assert x == |extra| && extra[..x] == extra;
  }

  /** If no scan stops early, all candidates decide every slot. */
  lemma AllLookedAt(env: Env, c: Compact, base: Slots, a: Slots, pool: seq<Candidate>, extra: seq<Candidate>, p: nat, x: nat)
    requires Placed(env, c, base, a, pool, extra, p, x)
    requires forall q :: 0 < q < |pool| ==> !AllTaken(env, c.ids, pool[..q], [])
    requires forall y :: 0 < y < |extra| ==> !AllTaken(env, c.ids, pool, extra[..y])
    ensures forall i :: 0 <= i < |c.ids| ==> a[Free(base)[i]] == SlotOf(env, c.ids[i], pool, extra)
  {
    hide FreeTo, SlotOf, AllTaken;
    assert p == |pool| && pool[..p] == pool;
    assert x == |extra| && extra[..x] == extra;
  }

  /** A scan that stops early can miss a conflict: the third mempool transaction collides with the
      first, but is not looked at; the extra one then empties the other slot. */
  lemma MissedConflict(env: Env, pool: seq<Candidate>, extra: seq<Candidate>)
    requires env.shortId(1) == 1 && env.shortId(2) == 2 && env.fullId(20) != env.fullId(21)
    requires pool == [Candidate(1, 10), Candidate(2, 20), Candidate(1, 11)] && extra == [Candidate(2, 21)]
    ensures PoolStops(env, [1, 2], pool, 2) && ExtraStops(env, [1, 2], pool[..2], extra, 1)
    ensures SlotOf(env, 1, pool[..2], extra[..1]) == Some(10) && SlotOf(env, 2, pool[..2], extra[..1]) == None
    ensures Conflict(env, pool, extra, 1)
  {
    var a, b, c, e := Candidate(1, 10), Candidate(2, 20), Candidate(1, 11), Candidate(2, 21);
    assert pool[..1] == [a] && pool[..2] == [a, b] && extra[..1] == [e];
    assert Matches(env, pool[0], 1) && Matches(env, pool[2], 1);
    SlotsAfter(env, a, b, e);
    forall q | 0 < q < 2 ensures !AllTaken(env, [1, 2], pool[..q], []) {
      assert [1, 2][1] == 2;
    }
  }

  lemma StartOk(env: Env, id: nat)
    ensures SlotOk(env, id, None, false, [], [])
  {
    NoneSeen(env, id);
    NoConflict(env, [], [], id);
  }

  lemma SlotsAfter(env: Env, a: Candidate, b: Candidate, e: Candidate)
    requires env.shortId(a.hash) == 1 && env.shortId(b.hash) == 2 && env.shortId(e.hash) == 2 && env.fullId(b.tx) != env.fullId(e.tx)
    ensures SlotOf(env, 2, [a], []) == None && AllTaken(env, [1, 2], [a, b], [])
    ensures SlotOf(env, 1, [a, b], [e]) == Some(a.tx) && SlotOf(env, 2, [a, b], [e]) == None
  {
    hide SlotOf, Seen;
    var empty: seq<Candidate> := [];
    StartOk(env, 1);
    StartOk(env, 2);
    assert empty + [a] == [a] && [a] + [b] == [a, b] && empty + [e] == [e];
    PoolStep(env, 1, None, false, empty, a);
    PoolStep(env, 2, None, false, empty, a);
    PoolStep(env, 1, Some(a.tx), true, [a], b);
    PoolStep(env, 2, None, false, [a], b);
    ExtraStep(env, 1, Some(a.tx), true, [a, b], empty, e);
    ExtraStep(env, 2, Some(b.tx), true, [a, b], empty, e);
  }

  lemma LiftOffered(env: Env, cs: seq<Candidate>, p: nat, id: nat)
    requires p <= |cs|
    ensures forall tx :: Offered(env, cs[..p], id, tx) ==> Offered(env, cs, id, tx)
  {
    hide Matches;
    forall tx | Offered(env, cs[..p], id, tx) ensures Offered(env, cs, id, tx) {
      var k :| 0 <= k < p && Matches(env, cs[..p][k], id) && cs[..p][k].tx == tx;
      assert cs[..p][k] == cs[k];
    }
  }

  lemma LiftConflict(env: Env, pool: seq<Candidate>, extra: seq<Candidate>, p: nat, x: nat, id: nat)
    requires p <= |pool| && x <= |extra| && Conflict(env, pool[..p], extra[..x], id)
    ensures Conflict(env, pool, extra, id)
  {
    hide Matches, Offered;
    LiftOffered(env, pool, p, id);
    LiftOffered(env, extra, x, id);
    var q, y := pool[..p], extra[..x];
    if PoolPair(env, q, id) {
      var j, k :| 0 <= j < k < |q| && Matches(env, q[j], id) && Matches(env, q[k], id);
      assert q[j] == pool[j] && q[k] == pool[k];
    } else {
      var k: nat, tx :| Differs(env, q, y, id, k, tx);
      assert y[k] == extra[k];
      assert Differs(env, pool, extra, id, k, tx);
    }
  }

  // ----- The receiver -----

  /** The answer of the block check: good, wrong but perhaps through a collision, or wrong. */
  datatype Checked = Good | Corrupt | Bad

  class PartialBlock {
    var headerNull: bool
    var available: Slots
    var prefilledCount: nat
    var mempoolCount: int

    constructor ()
      ensures headerNull && available == [] && mempoolCount == 0
    {
      headerNull, available, prefilledCount, mempoolCount := true, [], 0, 0;
    }

    /** Puts the prefilled transactions in their slots. */
    method Prefill(c: Compact) returns (ok: bool)
      requires TxCount(c) == |available| && forall i :: 0 <= i < |available| ==> available[i].None?
      modifies `available
      ensures ok <==> PrefilledOk(c)
      ensures ok ==> Holds(c, available, |c.prefilled|)
    {
      hide Holds, FreeTo;
      HoldsStart(c, available);
      var last := -1;
      for i := 0 to |c.prefilled|
        invariant Holds(c, available, i) && last == LastIndex(c.prefilled, i)
        invariant forall k :: 0 <= k < i ==> PrefilledFits(c, k)
      {
        if c.prefilled[i].tx.None? {
          assert !PrefilledFits(c, i);
          return false;
        }
        last := last + c.prefilled[i].index + 1;
        if last > MAX_INDEX || last > |c.ids| + i {
          assert !PrefilledFits(c, i);
          return false;
        }
        HoldsNext(c, available, i);
        available := available[last := c.prefilled[i].tx];
      }
      ok := true;
    }

    /** Maps every short id to a slot. The slot number is kept in 16 bits; up to 65536 slots
        it is the number of the empty slot of the same rank. `crowded` tells where the hash
        table is too uneven. */
    method MapIds(ids: seq<nat>, crowded: nat -> bool) returns (failed: bool, m: Positions)
      requires |Free(available)| == |ids| && |available| <= MAX_INDEX + 1
      ensures !failed ==> |m| == |ids| && Mapped(m, ids, Free(available))
      ensures failed <==> (exists i: nat :: i < |ids| && crowded(i)) || Repeats(ids, |ids|)
    {
      hide FreeTo, MapInv;
      m, failed := map[], false;
      var offset := 0;
      ghost var free := Free(available);
      FreeStart(available);
      MapStart(ids, free);
      for i := 0 to |ids|
        invariant 0 <= offset && i + offset <= |available| && |FreeTo(available, i + offset)| == i
        invariant MapInv(m, ids, free, i)
        invariant forall j: nat :: j < i ==> !crowded(j)
      {
        StillFree(available, i + offset, i);
        while available[i + offset].Some?
          invariant 0 <= offset && i + offset < |available| && |FreeTo(available, i + offset)| == i
          decreases |available| - offset
        {
          FreeSkip(available, i + offset);
          offset := offset + 1;
          StillFree(available, i + offset, i);
        }
        FreePlace(available, i + offset);
        FreeTake(available, i + offset);
        MapNext(m, ids, free, i);
        m := m[ids[i] := (i + offset) % 65536];
        if crowded(i) {
          return true, m;
        }
      }
      MapDone(m, ids, free);
      if |m| != |ids| {
        failed := true;
      }
    }

    method LookInPool(env: Env, m: Positions, ids: seq<nat>, base: Slots, pool: seq<Candidate>)
        returns (have: seq<bool>, ghost looked: nat)
      requires available == base && |Free(base)| == |ids| == |m| && Mapped(m, ids, Free(base)) && mempoolCount == 0
      modifies `available, `mempoolCount
      ensures looked <= |pool| && ScanOk(env, ids, Free(base), base, available, have, pool[..looked], [])
      ensures mempoolCount == |Filled(available, Free(base))| && PoolStops(env, ids, pool, looked)
    {
      hide ScanOk, Mapped, FreeTo, AllTaken, Filled;
      ghost var free := Free(base);
      have := seq(|base|, _ => false);
      looked := 0;
      ScanStart(env, ids, free, base, have);
      ScanShape(env, ids, free, base, available, have, [], []);
      assert pool[..0] == [];
      for i := 0 to |pool|
        invariant looked == i
        invariant ScanOk(env, ids, free, base, available, have, pool[..i], [])
        invariant forall q :: 0 < q <= i ==> !AllTaken(env, ids, pool[..q], [])
        invariant Ranks(free, |available|) && |have| == |available|
        invariant mempoolCount == |Filled(available, free)|
      {
        var c := pool[i];
        assert pool[..i + 1] == pool[..i] + [c];
        ScanPool(env, ids, free, base, available, have, pool[..i], c, m);
        var id := env.shortId(c.hash);
        if id in m {
          var j := m[id];
          RankOf(m, ids, free, id);
          ghost var r :| 0 <= r < |free| && free[r] == j;
          ScanHave(env, ids, free, base, available, have, pool[..i], [], r);
          FilledChange(available, free, r, AfterPool(available[j], have[j], c.tx));
          if !have[j] {
            available := available[j := Some(c.tx)];
            have := have[j := true];
            mempoolCount := mempoolCount + 1;
          } else {
            assert have[j := true] == have;
            if available[j].Some? {
              available := available[j := None];
              mempoolCount := mempoolCount - 1;
            } else {
              assert available[j := None] == available;
            }
          }
        }
        looked := i + 1;
        TakenCount(env, ids, free, base, available, have, pool[..i + 1], []);
        if mempoolCount == |m| {
          break;
        }
      }
    }

    method LookInExtra(env: Env, m: Positions, ids: seq<nat>, ghost base: Slots, have0: seq<bool>, ghost pool: seq<Candidate>,
        extra: seq<Candidate>) returns (ghost have: seq<bool>, ghost looked: nat)
      requires |Free(base)| == |ids| == |m| && Mapped(m, ids, Free(base))
      requires ScanOk(env, ids, Free(base), base, available, have0, pool, [])
      requires mempoolCount == |Filled(available, Free(base))|
      modifies `available, `mempoolCount
      ensures looked <= |extra| && ScanOk(env, ids, Free(base), base, available, have, pool, extra[..looked])
      ensures mempoolCount == |Filled(available, Free(base))| && ExtraStops(env, ids, pool, extra, looked)
    {
      hide ScanOk, Mapped, FreeTo, AllTaken, Filled;
      ghost var free := Free(base);
      var mine := have0;
      have, looked := mine, 0;
      ScanShape(env, ids, free, base, available, mine, pool, []);
      assert extra[..0] == [];
      for i := 0 to |extra|
        invariant looked == i && have == mine
        invariant ScanOk(env, ids, free, base, available, mine, pool, extra[..i])
        invariant forall y :: 0 < y <= i ==> !AllTaken(env, ids, pool, extra[..y])
        invariant Ranks(free, |available|) && |mine| == |available|
        invariant mempoolCount == |Filled(available, free)|
      {
        var c := extra[i];
        assert extra[..i + 1] == extra[..i] + [c];
        ScanExtra(env, ids, free, base, available, mine, pool, extra[..i], c, m);
        var id := env.shortId(c.hash);
        if id in m {
          var j := m[id];
          RankOf(m, ids, free, id);
          ghost var r :| 0 <= r < |free| && free[r] == j;
          ScanHave(env, ids, free, base, available, mine, pool, extra[..i], r);
          FilledChange(available, free, r, AfterExtra(env, available[j], mine[j], c.tx));
          if !mine[j] {
            available := available[j := Some(c.tx)];
            mine := mine[j := true];
            mempoolCount := mempoolCount + 1;
          } else {
            assert mine[j := true] == mine;
            if available[j].Some? && env.fullId(available[j].value) != env.fullId(c.tx) {
              available := available[j := None];
              mempoolCount := mempoolCount - 1;
            } else {
              assert available[j := available[j]] == available;
            }
          }
        }
        have := mine;
        looked := i + 1;
        TakenCount(env, ids, free, base, available, mine, pool, extra[..i + 1]);
        if mempoolCount == |m| {
          break;
        }
      }
    }

    /** Reads a compact block. What is found in the mempool or the extra pool goes into the
        slots of its short id. */
    method InitData(env: Env, c: Compact, pool: seq<Candidate>, extra: seq<Candidate>, crowded: nat -> bool) returns (status: Status)
      requires headerNull && available == [] && mempoolCount == 0 && TxCount(c) <= MAX_INDEX
      modifies this
      ensures status == Invalid <==> c.headerNull || TxCount(c) == 0 || !PrefilledOk(c)
      ensures status == Failed <==> status != Invalid && ((exists i: nat :: i < |c.ids| && crowded(i)) || Repeats(c.ids, |c.ids|))
      ensures status == Ok ==> !headerNull && prefilledCount == |c.prefilled| && Initialized(env, c, available, pool, extra)
      ensures status in {Ok, Invalid, Failed}
    {
      hide Holds, FreeTo, Mapped, PrefilledOk, Initialized;
      if c.headerNull || (|c.ids| == 0 && |c.prefilled| == 0) {
        return Invalid;
      }
      if TxCount(c) > MAX_TXN {
        return Invalid;
      }
      headerNull := false;
      available := seq(TxCount(c), _ => None);
      var fits := Prefill(c);
      if !fits {
        return Invalid;
      }
      prefilledCount := |c.prefilled|;
      var base := available;
      HoldsSizes(c, base);
      var failed, m := MapIds(c.ids, crowded);
      if failed {
        return Failed;
      }
      LookUp(env, c, m, base, pool, extra);
      status := Ok;
    }

    method LookUp(env: Env, c: Compact, m: Positions, base: Slots, pool: seq<Candidate>, extra: seq<Candidate>)
      requires available == base && Holds(c, base, |c.prefilled|) && PrefilledOk(c) && mempoolCount == 0
      requires |Free(base)| == |c.ids| == |m| && Mapped(m, c.ids, Free(base))
      modifies `available, `mempoolCount
      ensures Initialized(env, c, available, pool, extra)
    {
      hide Holds, FreeTo, ScanOk, Mapped, PrefilledOk, Filled, Initialized, PoolStops, ExtraStops;
      var have, p := LookInPool(env, m, c.ids, base, pool);
      ghost var have1, x := LookInExtra(env, m, c.ids, base, have, pool[..p], extra);
      InitDone(env, c, base, available, have1, pool, extra, p, x, m);
    }

    predicate IsTxAvailable(i: nat)
      requires !headerNull && i < |available|
      reads this
    {
      available[i].Some?
    }

    /** Takes the missing transactions in order. If there are too few, the transactions before
        the gap have been moved out already; after the last one the object is empty. */
    method FillBlock(missing: seq<Tx>, check: seq<Tx> -> Checked) returns (status: Status, vtx: seq<Tx>)
      requires !headerNull
      modifies this
      ensures |missing| != |Free(old(available))| ==> status == Invalid
      ensures |missing| == |Free(old(available))| ==> vtx == FilledWith(old(available), missing)
      ensures |missing| == |Free(old(available))| ==>
        status == match check(vtx) case Good => Ok case Corrupt => Failed case Bad => CheckFailed
      ensures |missing| >= |Free(old(available))| ==> headerNull && available == []
      ensures |missing| < |Free(old(available))| ==> !headerNull && MovedOut(old(available), available, Free(old(available))[|missing|])
    {
      hide FreeTo;
      vtx := [];
      var offset := 0;
      var was := available;
      FreeStart(was);
      for i := 0 to |was|
        invariant |vtx| == i && |available| == |was| && !headerNull
        invariant offset == |FreeTo(was, i)| <= |missing|
        invariant forall j :: 0 <= j < i ==> FillsAt(was, missing, vtx, j)
        invariant MovedOut(was, available, i)
      {
        ghost var before := vtx;
        if available[i].None? {
          FreeTake(was, i);
          if |missing| <= offset {
            FreePlace(was, i);
            return Invalid, vtx;
          }
          vtx := vtx + [missing[offset]];
          offset := offset + 1;
        } else {
          FreeSkip(was, i);
          vtx := vtx + [available[i].value];
          available := available[i := None];
        }
        forall j | 0 <= j < i + 1 ensures FillsAt(was, missing, vtx, j) {
          assert j < i ==> FillsAt(was, missing, before, j);
        }
      }
      headerNull, available := true, [];
      if |missing| != offset {
        return Invalid, vtx;
      }
      FilledIs(was, missing, vtx);
      match check(vtx)
      case Good => status := Ok;
      case Corrupt => status := Failed;
      case Bad => status := CheckFailed;
    }
  }

  // ----- Filling -----

  /** The transactions before the gap have been moved out. */
  ghost predicate MovedOut(was: Slots, now: Slots, gap: nat) {
    |now| == |was| && forall j :: 0 <= j < |was| ==> now[j] == if j < gap then None else was[j]
  }

  predicate FillsAt(a: Slots, missing: seq<Tx>, vtx: seq<Tx>, j: nat)
    requires j < |a| && j < |vtx|
  {
    if a[j].Some? then vtx[j] == a[j].value
    else |FreeTo(a, j)| < |missing| && vtx[j] == missing[|FreeTo(a, j)|]
  }

  /** The slots, with the missing transactions in the empty ones in order. */
  function FilledWith(a: Slots, missing: seq<Tx>): (vtx: seq<Tx>)
    requires |missing| == |Free(a)|
    ensures |vtx| == |a| && forall j :: 0 <= j < |a| ==> FillsAt(a, missing, vtx, j)
  {
    FreeRanks(a);
    seq(|a|, j requires 0 <= j < |a| => if a[j].Some? then a[j].value else missing[|FreeTo(a, j)|])
  }

  lemma FreeRanks(a: Slots)
    ensures forall j: nat :: j < |a| && a[j].None? ==> |FreeTo(a, j)| < |Free(a)|
  {
    forall j: nat | j < |a| && a[j].None? ensures |FreeTo(a, j)| < |Free(a)| {
      FreePlace(a, j);
    }
  }

  lemma FilledIs(a: Slots, missing: seq<Tx>, vtx: seq<Tx>)
    requires |missing| == |Free(a)| && |vtx| == |a| && forall j :: 0 <= j < |a| ==> FillsAt(a, missing, vtx, j)
    ensures vtx == FilledWith(a, missing)
  {
    var w := FilledWith(a, missing);
    forall j | 0 <= j < |a| ensures vtx[j] == w[j] {
      assert FillsAt(a, missing, vtx, j) && FillsAt(a, missing, w, j);
    }
  }

  // ----- After InitData -----

  lemma HoldsSizes(c: Compact, a: Slots)
    requires Holds(c, a, |c.prefilled|)
    ensures |Free(a)| == |c.ids| && |a| == TxCount(c)
  {
  }

  lemma InitDone(env: Env, c: Compact, base: Slots, a: Slots, have: seq<bool>, pool: seq<Candidate>, extra: seq<Candidate>,
    p: nat, x: nat, m: Positions)
    requires p <= |pool| && x <= |extra| && Holds(c, base, |c.prefilled|) && |Free(base)| == |c.ids| && Mapped(m, c.ids, Free(base))
    requires PrefilledOk(c) && ScanOk(env, c.ids, Free(base), base, a, have, pool[..p], extra[..x])
    requires PoolStops(env, c.ids, pool, p) && ExtraStops(env, c.ids, pool[..p], extra, x)
    ensures Initialized(env, c, a, pool, extra)
  {
    hide SlotOf, FreeTo, PoolStops, ExtraStops;
    var free := Free(base);
    forall i | 0 <= i < |c.ids| ensures a[free[i]] == SlotOf(env, c.ids[i], pool[..p], extra[..x]) {
      assert RankOk(env, c.ids, free, a, have, pool[..p], extra[..x], i);
    }
    assert Placed(env, c, base, a, pool, extra, p, x);
    forall k | 0 <= k < |c.prefilled| ensures HoldsAt(c, a, k) {
      assert HoldsAt(c, base, k);
      var at := LastIndex(c.prefilled, k + 1);
      assert PrefilledFits(c, k);
      NotFree(base, at);
    }
  }

  lemma NotFree(a: Slots, at: nat)
    requires at < |a| && a[at].Some?
    ensures at !in Free(a)
  {
  }

  // ----- Steps of MapIds -----

  /** The first `n` short ids are distinct and mapped to the slots of their ranks. */
  ghost predicate MappedTo(m: Positions, ids: seq<nat>, free: seq<nat>, n: nat)
    requires n <= |ids| && n <= |free|
  {
    && (forall i :: 0 <= i < n ==> var id := ids[i]; id in m && m[id] == free[i])
    && (forall i, j :: 0 <= i < j < n ==> ids[i] != ids[j])
  }

  ghost predicate Repeats(ids: seq<nat>, n: nat)
    requires n <= |ids|
  {
    exists i, j :: 0 <= i < j < n && ids[i] == ids[j]
  }

  lemma FreeStart(a: Slots)
    ensures |FreeTo(a, 0)| == 0
  {
  }

  lemma FreeSkip(a: Slots, n: nat)
    requires n < |a| && a[n].Some?
    ensures FreeTo(a, n + 1) == FreeTo(a, n)
  {
  }

  lemma FreeTake(a: Slots, n: nat)
    requires n < |a| && a[n].None?
    ensures |FreeTo(a, n + 1)| == |FreeTo(a, n)| + 1
  {
  }

  /** There is an empty slot left, so the search stays in range. */
  lemma StillFree(a: Slots, n: nat, i: nat)
    requires n <= |a| && |FreeTo(a, n)| == i < |Free(a)|
    ensures n < |a|
  {
  }

  ghost predicate MapInv(m: Positions, ids: seq<nat>, free: seq<nat>, i: nat)
    requires i <= |ids| <= |free|
  {
    && |m.Keys| <= i
    && (|m.Keys| == i ==> MappedTo(m, ids, free, i))
    && (|m.Keys| < i ==> Repeats(ids, i))
    && (forall id :: id in m ==> exists k :: 0 <= k < i && ids[k] == id)
  }

  lemma MapStart(ids: seq<nat>, free: seq<nat>)
    requires |ids| <= |free|
    ensures MapInv(map[], ids, free, 0)
  {
  }

  lemma MapNext(m: Positions, ids: seq<nat>, free: seq<nat>, i: nat)
    requires i < |ids| <= |free| && MapInv(m, ids, free, i)
    ensures MapInv(m[ids[i] := free[i]], ids, free, i + 1)
  {
    var x := ids[i];
    var n := m[x := free[i]];
    forall id | id in n ensures exists k :: 0 <= k < i + 1 && ids[k] == id {
      if id != x {
        var k :| 0 <= k < i && ids[k] == id;
      }
    }
    if x in m {
      assert n.Keys == m.Keys;
      var k :| 0 <= k < i && ids[k] == x;
      assert Repeats(ids, i + 1);
    } else {
      assert n.Keys == m.Keys + {x};
      if |m.Keys| == i {
        MapGrows(m, ids, free, i);
      } else {
        var j, k :| 0 <= j < k < i && ids[j] == ids[k];
        assert Repeats(ids, i + 1);
      }
    }
  }

  lemma MapGrows(m: Positions, ids: seq<nat>, free: seq<nat>, i: nat)
    requires i < |ids| <= |free| && MappedTo(m, ids, free, i) && ids[i] !in m
    ensures MappedTo(m[ids[i] := free[i]], ids, free, i + 1)
  {
    var n := m[ids[i] := free[i]];
    forall k | 0 <= k < i + 1 ensures var id := ids[k]; id in n && n[id] == free[k] {
      var id := ids[k];
    }
    forall j, k | 0 <= j < k < i + 1 ensures ids[j] != ids[k] {
      var id := ids[j];
      assert id in m;
    }
  }

  lemma MapDone(m: Positions, ids: seq<nat>, free: seq<nat>)
    requires |ids| <= |free| && MapInv(m, ids, free, |ids|)
    ensures |m| == |m.Keys| <= |ids|
    ensures |m| == |ids| ==> Mapped(m, ids, free) && !Repeats(ids, |ids|)
    ensures |m| < |ids| ==> Repeats(ids, |ids|)
  {
    assert |m| == |m.Keys|;
    forall id | id in m ensures id in ids {
      var k :| 0 <= k < |ids| && ids[k] == id;
    }
  }

  lemma RankOf(m: Positions, ids: seq<nat>, free: seq<nat>, id: nat)
    requires |ids| == |free| && Mapped(m, ids, free) && id in m
    ensures exists r :: 0 <= r < |free| && free[r] == m[id]
  {
    var r :| 0 <= r < |ids| && ids[r] == id;
    assert free[r] == m[id];
  }

  lemma ScanShape(env: Env, ids: seq<nat>, free: seq<nat>, base: Slots, a: Slots, have: seq<bool>, pool: seq<Candidate>,
    extra: seq<Candidate>)
    requires ScanOk(env, ids, free, base, a, have, pool, extra)
    ensures Ranks(free, |a|) && |have| == |a|
  {
  }

  /** A filled slot has its flag set. */
  lemma ScanHave(env: Env, ids: seq<nat>, free: seq<nat>, base: Slots, a: Slots, have: seq<bool>, pool: seq<Candidate>,
    extra: seq<Candidate>, r: nat)
    requires ScanOk(env, ids, free, base, a, have, pool, extra) && r < |free|
    ensures free[r] < |a| == |have| && (a[free[r]].Some? ==> have[free[r]])
  {
    hide Matches;
    assert RankOk(env, ids, free, a, have, pool, extra, r);
  }

  // ----- Reconstruction -----

  /** The compact block was made from these transactions: prefilled ones are in their places
      and the short ids of all others follow in order. */
  ghost predicate Describes(env: Env, c: Compact, vtx: seq<Tx>) {
    && !c.headerNull && TxCount(c) == |vtx| && PrefilledOk(c)
    && (forall k :: 0 <= k < |c.prefilled| ==> var at := LastIndex(c.prefilled, k + 1);
          0 <= at < |vtx| && c.prefilled[k].tx == Some(vtx[at]))
    && (forall base: Slots :: Holds(c, base, |c.prefilled|) && |Free(base)| == |c.ids| && |base| == |vtx| ==>
          forall i :: 0 <= i < |c.ids| ==> c.ids[i] == env.shortId(env.fullId(vtx[Free(base)[i]])))
  }

  /** Short ids tell all these transactions apart. */
  ghost predicate Injective(env: Env, txs: set<Tx>) {
    forall a, b :: a in txs && b in txs && env.shortId(env.fullId(a)) == env.shortId(env.fullId(b)) ==> a == b
  }

  /** Candidates come under their own hash. */
  ghost predicate Honest(env: Env, cs: seq<Candidate>, txs: set<Tx>) {
    forall k :: 0 <= k < |cs| ==> cs[k].hash == env.fullId(cs[k].tx) && cs[k].tx in txs
  }

  /** No slot holds a wrong transaction. */
  ghost predicate Right(a: Slots, vtx: seq<Tx>) {
    |a| == |vtx| && forall j :: 0 <= j < |a| ==> a[j] == None || a[j] == Some(vtx[j])
  }

  lemma OfferedRight(env: Env, cs: seq<Candidate>, txs: set<Tx>, tx: Tx, t: Tx)
    requires Injective(env, txs) && Honest(env, cs, txs) && t in txs
    requires Offered(env, cs, env.shortId(env.fullId(t)), tx)
    ensures tx == t
  {
    var k :| 0 <= k < |cs| && Matches(env, cs[k], env.shortId(env.fullId(t))) && cs[k].tx == tx;
  }

  lemma RightSlots(env: Env, c: Compact, vtx: seq<Tx>, a: Slots, pool: seq<Candidate>, extra: seq<Candidate>, txs: set<Tx>)
    requires Describes(env, c, vtx) && Initialized(env, c, a, pool, extra)
    requires Injective(env, txs) && Honest(env, pool, txs) && Honest(env, extra, txs)
    requires forall t :: t in vtx ==> t in txs
    ensures Right(a, vtx)
  {
    hide Conflict, Seen, Injective, Honest, FreeTo, LastIndex, SlotOf, PoolStops, ExtraStops;
    var base: Slots, p: nat, x: nat :| Holds(c, base, |c.prefilled|) && Placed(env, c, base, a, pool, extra, p, x);
    var free := Free(base);
    forall j: nat | j < |a| ensures a[j] == None || a[j] == Some(vtx[j]) {
      if base[j].None? {
        FreePlace(base, j);
        var i := |FreeTo(base, j)|;
        assert free[i] == j;
        assert c.ids[i] == env.shortId(env.fullId(vtx[j]));
        SlotReason(env, c, base, a, pool, extra, p, x, i);
        assert vtx[j] in vtx;
        if a[j].Some? {
          if Offered(env, pool, c.ids[i], a[j].value) {
            OfferedRight(env, pool, txs, a[j].value, vtx[j]);
          } else {
            OfferedRight(env, extra, txs, a[j].value, vtx[j]);
          }
        }
      } else {
        var k := PrefilledRank(c, base, j);
        assert HoldsAt(c, a, k);
      }
    }
  }

  /** A slot that is full after the prefilling is full because of one of the prefilled. */
  lemma PrefilledRank(c: Compact, base: Slots, j: nat) returns (k: nat)
    requires Holds(c, base, |c.prefilled|) && j < |base| && base[j].Some?
    ensures k < |c.prefilled| && LastIndex(c.prefilled, k + 1) == j
  {
    hide FreeTo;
    k := CountedRank(c, base, |c.prefilled|, j);
  }

  /** By counting: as many slots are full as there are prefilled transactions, in different
      places, so every full slot is one of theirs. */
  lemma {:induction false} CountedRank(c: Compact, base: Slots, n: nat, j: nat) returns (k: nat)
    requires n <= |c.prefilled| && j < |base| && base[j].Some?
    requires |Free(base)| + n == |base|
    requires forall i :: 0 <= i < n ==> PrefilledFits(c, i) && HoldsAt(c, base, i)
    ensures k < n && LastIndex(c.prefilled, k + 1) == j
    decreases n
  {
    if n == 0 {
      FreeFull(base, j);
      assert false;
    } else if LastIndex(c.prefilled, n) == j {
      k := n - 1;
    } else {
      var at := LastIndex(c.prefilled, n);
      assert PrefilledFits(c, n - 1) && HoldsAt(c, base, n - 1);
      var less := base[at := None];
      FreeEmpty(base, at, |base|);
      forall i | 0 <= i < n - 1 ensures PrefilledFits(c, i) && HoldsAt(c, less, i) {
        assert PrefilledFits(c, i) && HoldsAt(c, base, i);
        LastIndexGrows(c.prefilled, i + 1, n);
      }
      k := CountedRank(c, less, n - 1, j);
    }
  }

  lemma {:induction false} FreeEmpty(a: Slots, j: nat, n: nat)
    requires j < n <= |a| && a[j].Some?
    ensures |FreeTo(a[j := None], n)| == |FreeTo(a, n)| + 1
  {
    if j == n - 1 {
      FreeSame(a, a[j := None], j);
    } else {
      FreeEmpty(a, j, n - 1);
    }
  }

  lemma FreeFull(a: Slots, j: nat)
    requires j < |a| && a[j].Some?
    ensures |Free(a)| < |a|
  {
    FreeEmpty(a, j, |a|);
  }

  /** The transactions to ask for. */
  function Missing(a: Slots, vtx: seq<Tx>): (m: seq<Tx>)
    requires |a| == |vtx|
    ensures |m| == |Free(a)| && forall k :: 0 <= k < |m| ==> m[k] == vtx[Free(a)[k]]
  {
    seq(|Free(a)|, k requires 0 <= k < |Free(a)| => vtx[Free(a)[k]])
  }

  /** Right slots and the missing transactions in order give the block. */
  lemma Rebuilds(a: Slots, vtx: seq<Tx>)
    requires Right(a, vtx)
    ensures FilledWith(a, Missing(a, vtx)) == vtx
  {
    hide FreeTo;
    var m := Missing(a, vtx);
    forall j | 0 <= j < |a| ensures FillsAt(a, m, vtx, j) {
      if a[j].None? {
        FreePlace(a, j);
      }
    }
    FilledIs(a, m, vtx);
  }

  // ----- Making a compact block -----

  /** The sender's compact block: the first transaction in full, the others by short id. */
  function MakeCompact(env: Env, vtx: seq<Tx>): Compact
    requires vtx != []
  {
    Compact(false, ShortIds(env, vtx[1..]), [Prefilled(0, Some(vtx[0]))])
  }

  function ShortIds(env: Env, txs: seq<Tx>): (ids: seq<nat>)
    ensures |ids| == |txs| && forall i :: 0 <= i < |txs| ==> ids[i] == env.shortId(env.fullId(txs[i]))
  {
    if txs == [] then [] else [env.shortId(env.fullId(txs[0]))] + ShortIds(env, txs[1..])
  }

  lemma MadeDescribes(env: Env, vtx: seq<Tx>)
    requires vtx != []
    ensures Describes(env, MakeCompact(env, vtx), vtx)
  {
    var c := MakeCompact(env, vtx);
    var p := c.prefilled;
    assert LastIndex(p, 0) == -1 && LastIndex(p, 1) == 0;
    assert PrefilledFits(c, 0);
    forall base: Slots, i: nat | Holds(c, base, 1) && |Free(base)| == |c.ids| && |base| == |vtx| && i < |c.ids|
      ensures Free(base)[i] == i + 1
    {
      assert HoldsAt(c, base, 0);
      OnlyFirst(base, i + 1);
    }
  }

  lemma OnlyFirst(base: Slots, n: nat)
    requires 1 <= n < |base| && base[0].Some? && forall i :: 0 < i < |base| ==> base[i].None?
    ensures n - 1 < |Free(base)| && Free(base)[n - 1] == n
  {
    FreePlace(base, n);
    CountFirst(base, n);
  }

  lemma {:induction false} CountFirst(base: Slots, n: nat)
    requires 1 <= n <= |base| && base[0].Some? && forall i :: 0 < i < |base| ==> base[i].None?
    ensures |FreeTo(base, n)| == n - 1
  {
    if n == 1 {
      FreeSkip(base, 0);
      FreeStart(base);
    } else {
      CountFirst(base, n - 1);
      FreeTake(base, n - 1);
    }
  }

  /** The transactions of the block that the receiver misses, in order. */
  method Request(b: PartialBlock, vtx: seq<Tx>) returns (missing: seq<Tx>)
    requires Right(b.available, vtx) && !b.headerNull
    ensures missing == Missing(b.available, vtx)
  {
    hide FreeTo;
    missing := [];
    FreeStart(b.available);
    for i := 0 to |vtx|
      invariant |missing| == |FreeTo(b.available, i)|
      invariant forall k :: 0 <= k < |missing| ==> missing[k] == vtx[FreeTo(b.available, i)[k]]
    {
      if !b.IsTxAvailable(i) {
        FreeLast(b.available, i);
        missing := missing + [vtx[i]];
      } else {
        FreeSkip(b.available, i);
      }
    }
  }

  /** One relay from end to end: the receiver reads the compact block, asks for what it lacks
      and fills the block. As long as the short ids tell the transactions of the block, the
      mempool and the extra pool apart, every block that can be read is filled with what was
      sent, and reading fails only for a crowded bucket or a transaction sent twice. */
  method Relay(env: Env, vtx: seq<Tx>, pool: seq<Candidate>, extra: seq<Candidate>, crowded: nat -> bool, check: seq<Tx> -> Checked,
      ghost txs: set<Tx>) returns (read: Status, filled: Status, got: seq<Tx>)
    requires 1 <= |vtx| <= MAX_INDEX && check(vtx) == Good
    requires Injective(env, txs) && Honest(env, pool, txs) && Honest(env, extra, txs) && forall t :: t in vtx ==> t in txs
    ensures read == Ok || read == Failed
    ensures read == Failed ==> (exists i: nat :: crowded(i)) || exists i, j :: 0 < i < j < |vtx| && vtx[i] == vtx[j]
    ensures read == Ok ==> filled == Ok && got == vtx
  {
    hide Holds, FreeTo, Injective, Honest, Initialized, Describes, LastIndex, MakeCompact, Right, Missing;
    var c := MakeCompact(env, vtx);
    MadeDescribes(env, vtx);
    var b := new PartialBlock();
    MadeValid(env, vtx);
    read := b.InitData(env, c, pool, extra, crowded);
    filled, got := read, [];
    if read != Ok {
      if Repeats(c.ids, |c.ids|) {
        SameShort(env, vtx, txs);
      }
      return;
    }
    RightSlots(env, c, vtx, b.available, pool, extra, txs);
    Rebuilds(b.available, vtx);
    var missing := Request(b, vtx);
    filled, got := b.FillBlock(missing, check);
  }

  lemma FreeLast(a: Slots, n: nat)
    requires n < |a| && a[n].None?
    ensures FreeTo(a, n + 1) == FreeTo(a, n) + [n]
  {
  }

  lemma MadeValid(env: Env, vtx: seq<Tx>)
    requires 1 <= |vtx| <= MAX_INDEX
    ensures var c := MakeCompact(env, vtx); TxCount(c) == |vtx| && PrefilledOk(c)
  {
    MadeDescribes(env, vtx);
  }

  lemma SameShort(env: Env, vtx: seq<Tx>, txs: set<Tx>)
    requires vtx != [] && Injective(env, txs) && (forall t :: t in vtx ==> t in txs)
    requires var ids := MakeCompact(env, vtx).ids; Repeats(ids, |ids|)
    ensures exists i, j :: 0 < i < j < |vtx| && vtx[i] == vtx[j]
  {
    var ids := MakeCompact(env, vtx).ids;
    var i, j :| 0 <= i < j < |ids| && ids[i] == ids[j];
    var x, y := vtx[1..][i], vtx[1..][j];
    assert x == vtx[i + 1] && y == vtx[j + 1];
    assert vtx[i + 1] in vtx && vtx[j + 1] in vtx;
    assert vtx[i + 1] == vtx[j + 1];
  }

  // ----- Differential indexes -----

  const MAX_UINT64: int := 0xffff_ffff_ffff_ffff

  datatype Result = Read(indexes: seq<nat>) | Error

  /** The number written for the index at place `i`; a negative difference wraps around. */
  function Difference(indexes: seq<nat>, i: nat): nat
    requires i < |indexes|
  {
    var d: int := if i == 0 then indexes[0] as int else indexes[i] as int - (indexes[i - 1] + 1);
    if d < 0 then d % (MAX_UINT64 + 1) else d
  }

  function Differences(indexes: seq<nat>): (d: seq<nat>)
    ensures |d| == |indexes| && forall i :: 0 <= i < |d| ==> d[i] == Difference(indexes, i)
  {
    seq(|indexes|, i requires 0 <= i < |indexes| => Difference(indexes, i))
  }

  /** The index at place `i` that a list of differences stands for. */
  function IndexAt(d: seq<nat>, i: nat): nat
    requires i < |d|
  {
    if i == 0 then d[0] else IndexAt(d, i - 1) + 1 + d[i]
  }

  /** No number and no index exceeds 16 bits. */
  ghost predicate Fits(d: seq<nat>) {
    forall i :: 0 <= i < |d| ==> d[i] <= MAX_INDEX && IndexAt(d, i) <= MAX_INDEX
  }

  ghost predicate Ascending(indexes: seq<nat>) {
    && (forall i :: 0 <= i < |indexes| ==> indexes[i] <= MAX_INDEX)
    && (forall i :: 0 < i < |indexes| ==> indexes[i - 1] < indexes[i])
  }

  lemma {:induction false} IndexesBack(indexes: seq<nat>, i: nat)
    requires Ascending(indexes) && i < |indexes|
    ensures IndexAt(Differences(indexes), i) == indexes[i] && Differences(indexes)[i] <= MAX_INDEX
  {
    if i > 0 {
      IndexesBack(indexes, i - 1);
    }
  }

  /** The writer's loop. */
  method WriteIndexes(indexes: seq<nat>) returns (out: seq<nat>)
    ensures out == Differences(indexes)
  {
    out := [];
    for i := 0 to |indexes|
      invariant |out| == i && forall j :: 0 <= j < i ==> out[j] == Difference(indexes, j)
    {
      out := out + [Difference(indexes, i)];
    }
  }

  /** The reader's two loops: the numbers, each within 16 bits, and then the running sums in
      place. */
  method ReadIndexes(d: seq<nat>) returns (r: Result)
    ensures r.Read? <==> Fits(d)
    ensures r.Read? ==> |r.indexes| == |d| && forall i :: 0 <= i < |d| ==> r.indexes[i] == IndexAt(d, i)
  {
    var indexes: seq<nat> := [];
    for i := 0 to |d|
      invariant indexes == d[..i] && forall j :: 0 <= j < i ==> d[j] <= MAX_INDEX
    {
      if d[i] > MAX_INDEX {
        return Error;
      }
      indexes := indexes + [d[i]];
    }
    var offset := 0;
    for j := 0 to |d|
      invariant |indexes| == |d| && offset == if j == 0 then 0 else IndexAt(d, j - 1) + 1
      invariant forall i :: 0 <= i < j ==> indexes[i] == IndexAt(d, i) <= MAX_INDEX
      invariant forall i :: j <= i < |d| ==> indexes[i] == d[i]
    {
      if indexes[j] + offset > MAX_INDEX {
        assert IndexAt(d, j) > MAX_INDEX;
        return Error;
      }
      indexes := indexes[j := indexes[j] + offset];
      offset := indexes[j] + 1;
    }
    r := Read(indexes);
  }

  /** A list of 16-bit indexes can be read back after writing exactly when it is strictly
      ascending, and then it is read back as it was. */
  lemma IndexesRoundTrip(indexes: seq<nat>)
    requires forall i :: 0 <= i < |indexes| ==> indexes[i] <= MAX_INDEX
    ensures Fits(Differences(indexes)) <==> Ascending(indexes)
    ensures Ascending(indexes) ==> forall i :: 0 <= i < |indexes| ==> IndexAt(Differences(indexes), i) == indexes[i]
  {
    var d := Differences(indexes);
    if Ascending(indexes) {
      forall i | 0 <= i < |indexes| ensures IndexAt(d, i) == indexes[i] && d[i] <= MAX_INDEX {
        IndexesBack(indexes, i);
      }
    } else {
      var i :| 0 < i < |indexes| && indexes[i - 1] >= indexes[i];
      assert d[i] == Difference(indexes, i) > MAX_INDEX;
    }
  }

  /** Conversely every list that can be read is ascending, and writing it gives the numbers. */
  lemma DifferencesBack(d: seq<nat>, indexes: seq<nat>)
    requires Fits(d) && |indexes| == |d| && forall i :: 0 <= i < |d| ==> indexes[i] == IndexAt(d, i)
    ensures Ascending(indexes) && Differences(indexes) == d
  {
    forall i | 0 < i < |d| ensures indexes[i] == indexes[i - 1] + 1 + d[i] {
      assert indexes[i - 1] == IndexAt(d, i - 1);
    }
  }
}
