/** What every run of the check queue keeps, and what its verdicts mean. */
module CheckQueueTheorems {
  import opened SortedSets
  import opened CheckQueueState

  // ----- Held batches -----

  lemma {:induction false} HeldRemove(threads: Threads, t: ThreadId)
    requires t in threads
    ensures Held(threads) == BatchOf(threads[t]) + Held(threads - {t})
    decreases |threads|
  {
    hide BatchOf, Held;
    HeldUnfold(threads);
    var u := Least(threads.Keys);
    if u != t {
      HeldRemove(threads - {u}, t);
      HeldRemove(threads - {t}, u);
      assert threads - {u} - {t} == threads - {t} - {u};
    }
  }

  lemma HeldUnfold(threads: Threads)
    requires threads.Keys != {}
    ensures var t := Least(threads.Keys); Held(threads) == BatchOf(threads[t]) + Held(threads - {t})
  {
    hide BatchOf;
  }

  lemma OthersSame(threads: Threads, t: ThreadId, th: Thread)
    requires t in threads
    ensures exists rest :: Held(threads) == BatchOf(threads[t]) + rest && Held(threads[t := th]) == BatchOf(th) + rest
  {
    hide BatchOf, Held;
    HeldRemove(threads, t);
    HeldRemove(threads[t := th], t);
    assert threads[t := th] - {t} == threads - {t};
  }

  /** `Held` when a thread changes but not its batch, when it takes one and when it drops one. */
  lemma HeldQuiet(threads: Threads, t: ThreadId, th: Thread)
    requires t in threads && BatchOf(th) == BatchOf(threads[t])
    ensures Held(threads[t := th]) == Held(threads)
  {
    hide BatchOf, Held;
    OthersSame(threads, t, th);
  }

  lemma HeldTake(threads: Threads, t: ThreadId, th: Thread)
    requires t in threads && !threads[t].Working?
    ensures Held(threads[t := th]) == Held(threads) + BatchOf(th)
  {
    hide Held;
    OthersSame(threads, t, th);
    var rest :| Held(threads) == BatchOf(threads[t]) + rest && Held(threads[t := th]) == BatchOf(th) + rest;
    assert Held(threads) == rest;
  }

  lemma HeldDrop(threads: Threads, t: ThreadId, th: Thread)
    requires t in threads && !th.Working?
    ensures Held(threads[t := th]) + BatchOf(threads[t]) == Held(threads)
  {
    hide Held;
    OthersSame(threads, t, th);
    var rest :| Held(threads) == BatchOf(threads[t]) + rest && Held(threads[t := th]) == BatchOf(th) + rest;
    assert Held(threads[t := th]) == rest;
  }

  lemma {:induction false} HeldSame(a: Threads, b: Threads)
    requires a.Keys == b.Keys && forall t :: t in a ==> BatchOf(a[t]) == BatchOf(b[t])
    ensures Held(a) == Held(b)
    decreases |a|
  {
    hide BatchOf;
    if a.Keys != {} {
      var t := Least(a.Keys);
      HeldRemove(b, t);
      HeldSame(a - {t}, b - {t});
    }
  }

  /** Checks that are held are held by some thread. */
  lemma {:induction false} HeldBySome(threads: Threads)
    requires Held(threads) != multiset{}
    ensures exists t :: t in threads && BatchOf(threads[t]) != multiset{}
    decreases |threads|
  {
    hide BatchOf;
    var t := Least(threads.Keys);
    if BatchOf(threads[t]) == multiset{} {
      HeldBySome(threads - {t});
      var u :| u in threads - {t} && BatchOf((threads - {t})[u]) != multiset{};
      assert u in threads && BatchOf(threads[u]) != multiset{};
    }
  }

  lemma {:induction false} TopMultiset(queue: seq<Check>, n: nat)
    requires n <= |queue|
    ensures multiset(Top(queue, n)) + multiset(queue[..|queue| - n]) == multiset(queue)
  {
    if n == 0 {
      assert Top(queue, 0) == [];
      assert queue[..|queue|] == queue;
    } else {
      TopMultiset(queue, n - 1);
      var m := |queue| - n;
      assert Top(queue, n) == Top(queue, n - 1) + [queue[m]];
      assert queue[..m + 1] == queue[..m] + [queue[m]];
    }
  }

  // ----- The invariant -----

  ghost predicate SomeFails(eval: Check -> bool, pending: multiset<Check>) {
    exists c :: c in pending && !eval(c)
  }

  ghost predicate AllPass(eval: Check -> bool, pending: multiset<Check>) {
    forall c :: c in pending ==> eval(c)
  }

  /** A batch's running verdict is right about the checks it has run. */
  ghost predicate ThreadOk(eval: Check -> bool, th: Thread, pending: multiset<Check>) {
    th.Working? ==>
      && |th.batch| >= 1 && th.next <= |th.batch|
      && (th.ok ==> forall k :: 0 <= k < th.next ==> eval(th.batch[k]))
      && (!th.ok ==> SomeFails(eval, pending))
  }

  ghost predicate ThreadsOk(eval: Check -> bool, threads: Threads, pending: multiset<Check>) {
    forall t :: t in threads ==> ThreadOk(eval, threads[t], pending)
  }

  /** The checks that are not reported yet. */
  ghost function Open(s: State): multiset<Check> {
    multiset(s.q.queue) + Held(s.threads)
  }

  /** No check of this round is lost or doubled, and `nTodo` counts the open ones. */
  ghost predicate Conserved(s: State, pending: multiset<Check>) {
    Open(s) <= pending && s.q.nTodo == |Open(s)|
  }

  /** `fAllOk` is right about the reported checks. */
  ghost predicate VerdictOk(eval: Check -> bool, s: State, pending: multiset<Check>) {
    if s.q.allOk then AllPass(eval, pending - Open(s)) else SomeFails(eval, pending)
  }

  ghost predicate Counters(s: State) {
    s.q.nIdle == |Idle(s.threads)| && s.q.nTotal == |Inside(s.threads)|
  }

  /** A master that waits has an empty queue, and it is signalled exactly when no work is
      outstanding. */
  ghost predicate MasterOk(s: State) {
    && MASTER in s.threads
    && (s.threads[MASTER].Waiting? ==> s.q.queue == [])
    && (s.threads[MASTER] == Waiting(false) ==> s.q.nTodo > 0)
    && (s.threads[MASTER] == Waiting(true) ==> s.q.nTodo == 0)
  }

  /** `pending` is what was added since the master last returned. */
  ghost predicate Inv(eval: Check -> bool, s: State, pending: multiset<Check>) {
    && ThreadsOk(eval, s.threads, pending)
    && Conserved(s, pending)
    && VerdictOk(eval, s, pending)
    && Counters(s)
    && MasterOk(s)
  }

  function Initial(batchSize: nat, threads: set<ThreadId>): State {
    State(Shared([], 0, 0, true, 0, batchSize), map t | t in threads + {MASTER} :: Out)
  }

  lemma InitialInv(eval: Check -> bool, batchSize: nat, threads: set<ThreadId>)
    ensures Inv(eval, Initial(batchSize, threads), multiset{})
  {
    var s := Initial(batchSize, threads);
    if Held(s.threads) != multiset{} {
      HeldBySome(s.threads);
    }
    assert Idle(s.threads) == {} && Inside(s.threads) == {};
  }

  // ----- Counters -----

  lemma CountUpdate(threads: Threads, t: ThreadId, th: Thread)
    requires t in threads
    ensures |Idle(threads[t := th])| == |Idle(threads)| - (if threads[t].Waiting? then 1 else 0) + (if th.Waiting? then 1 else 0)
    ensures |Inside(threads[t := th])| == |Inside(threads)| - (if threads[t].Out? then 0 else 1) + (if th.Out? then 0 else 1)
  {
    var after := threads[t := th];
    assert Idle(after) == if th.Waiting? then Idle(threads) + {t} else Idle(threads) - {t};
    assert Inside(after) == if th.Out? then Inside(threads) - {t} else Inside(threads) + {t};
  }

  lemma CountSame(a: Threads, b: Threads)
    requires a.Keys == b.Keys && forall t :: t in a ==> a[t].Waiting? == b[t].Waiting? && a[t].Out? == b[t].Out?
    ensures Idle(a) == Idle(b) && Inside(a) == Inside(b)
  {
    forall t ensures t in Idle(a) <==> t in Idle(b) {
      assert t in a <==> t in b;
    }
    forall t ensures t in Inside(a) <==> t in Inside(b) {
      assert t in a <==> t in b;
    }
  }

  /** The idle and the active threads when `t` is put aside. */
  lemma CountAside(threads: Threads, t: ThreadId, th: Thread)
    requires t in threads
    ensures Idle(threads[t := th]) == if th.Waiting? then Idle(threads) - {t} + {t} else Idle(threads) - {t}
    ensures Inside(threads[t := th]) == if th.Out? then Inside(threads) - {t} else Inside(threads) + {t}
  {
    var after := threads[t := th];
    assert Idle(after) == if th.Waiting? then Idle(threads) - {t} + {t} else Idle(threads) - {t};
    assert Inside(after) == if th.Out? then Inside(threads) - {t} else Inside(threads) + {t};
  }

  lemma ThreadsUpdate(eval: Check -> bool, threads: Threads, pending: multiset<Check>, t: ThreadId, th: Thread)
    requires ThreadsOk(eval, threads, pending) && ThreadOk(eval, th, pending)
    ensures ThreadsOk(eval, threads[t := th], pending)
  {
    hide ThreadOk;
  }

  // ----- Adding -----

  lemma MorePending(eval: Check -> bool, threads: Threads, few: multiset<Check>, many: multiset<Check>)
    requires ThreadsOk(eval, threads, few) && few <= many
    ensures ThreadsOk(eval, threads, many)
    ensures SomeFails(eval, few) ==> SomeFails(eval, many)
  {
    forall t | t in threads ensures ThreadOk(eval, threads[t], many) {
      assert ThreadOk(eval, threads[t], few);
    }
  }

  lemma NotifyQuiet(eval: Check -> bool, threads: Threads, checks: seq<Check>, chosen: ThreadId, pending: multiset<Check>)
    requires ThreadsOk(eval, threads, pending)
    ensures var after := NotifyWorkers(threads, checks, chosen);
      && ThreadsOk(eval, after, pending) && Held(after) == Held(threads)
      && Idle(after) == Idle(threads) && Inside(after) == Inside(threads)
      && (MASTER in threads ==> MASTER in after && after[MASTER] == threads[MASTER])
  {
    hide Held, Idle, Inside, SomeFails;
    var after := NotifyWorkers(threads, checks, chosen);
    HeldSame(threads, after);
    CountSame(threads, after);
    forall t | t in after ensures ThreadOk(eval, after[t], pending) {
      assert ThreadOk(eval, threads[t], pending);
    }
  }

  lemma AddKeeps(eval: Check -> bool, s: State, checks: seq<Check>, chosen: ThreadId, pending: multiset<Check>)
    requires Inv(eval, s, pending) && Enabled(s, Add(checks, chosen))
    ensures Inv(eval, Next(eval, s, Add(checks, chosen)).0, pending + multiset(checks))
  {
    hide Held, Idle, Inside, ThreadsOk, NotifyWorkers, SomeFails;
    var u := Next(eval, s, Add(checks, chosen)).0;
    var more := pending + multiset(checks);
    MorePending(eval, s.threads, pending, more);
    NotifyQuiet(eval, s.threads, checks, chosen, more);
    assert multiset(u.q.queue) == multiset(s.q.queue) + multiset(checks);
    assert Open(u) == Open(s) + multiset(checks);
    assert more - Open(u) == pending - Open(s);
  }

  // ----- Proceeding -----

  /** What holds when thread `t` holds the mutex and nothing else: the invariant, except that
      `t` is counted as neither idle nor in a batch. */
  ghost predicate Inner(eval: Check -> bool, s: State, t: ThreadId, pending: multiset<Check>) {
    && t in s.threads && !s.threads[t].Working?
    && ThreadsOk(eval, s.threads, pending)
    && Conserved(s, pending)
    && VerdictOk(eval, s, pending)
    && s.q.nIdle == |Idle(s.threads) - {t}| && s.q.nTotal == |Inside(s.threads) + {t}|
    && MASTER in s.threads
    && (t != MASTER ==> MasterOk(s))
  }

  lemma NothingHeld(eval: Check -> bool, threads: Threads, pending: multiset<Check>)
    requires ThreadsOk(eval, threads, pending) && Held(threads) == multiset{}
    ensures ThreadsOk(eval, threads, multiset{})
  {
    hide Held;
    forall t | t in threads ensures ThreadOk(eval, threads[t], multiset{}) {
      HeldRemove(threads, t);
      assert ThreadOk(eval, threads[t], pending);
      assert BatchOf(threads[t]) == multiset{};
      var th := threads[t];
      assert th.Working? ==> |BatchOf(th)| >= 1;
    }
  }

  lemma Leaves(eval: Check -> bool, s: State, pending: multiset<Check>)
    requires Inner(eval, s, MASTER, pending) && s.q.queue == [] && s.q.nTodo == 0
    ensures var (u, v) := Proceed(s, MASTER);
      Inv(eval, u, multiset{}) && v == Verdict(AllPass(eval, pending))
  {
    hide Held, Idle, Inside, ThreadsOk;
    assert Open(s) == multiset{};
    assert pending - Open(s) == pending;
    var u := Proceed(s, MASTER).0;
    HeldQuiet(s.threads, MASTER, Out);
    CountAside(s.threads, MASTER, Out);
    ThreadsUpdate(eval, s.threads, pending, MASTER, Out);
    NothingHeld(eval, u.threads, pending);
    assert Inside(s.threads) + {MASTER} == Inside(u.threads) + {MASTER};
  }

  lemma Waits(eval: Check -> bool, s: State, t: ThreadId, pending: multiset<Check>)
    requires Inner(eval, s, t, pending) && s.q.queue == [] && !(t == MASTER && s.q.nTodo == 0)
    ensures Inv(eval, Proceed(s, t).0, pending)
  {
    hide Held, Idle, Inside, ThreadsOk, AllPass, SomeFails;
    var u := Proceed(s, t).0;
    HeldQuiet(s.threads, t, Waiting(false));
    CountAside(s.threads, t, Waiting(false));
    ThreadsUpdate(eval, s.threads, pending, t, Waiting(false));
    assert Open(u) == Open(s);
  }

  lemma Takes(eval: Check -> bool, s: State, t: ThreadId, pending: multiset<Check>)
    requires Inner(eval, s, t, pending) && s.q.queue != []
    ensures Inv(eval, Proceed(s, t).0, pending)
  {
    hide Held, Idle, Inside, ThreadsOk, AllPass, SomeFails, Top, BatchSize;
    var n := BatchSize(s.q);
    var th := Working(Top(s.q.queue, n), 0, s.q.allOk);
    var u := Proceed(s, t).0;
    assert u == State(WithoutTop(s.q, n), s.threads[t := th]);
    HeldTake(s.threads, t, th);
    CountAside(s.threads, t, th);
    ThreadsUpdate(eval, s.threads, pending, t, th);
    TopMultiset(s.q.queue, n);
    assert Open(u) == Open(s);
  }

  lemma ProceedKeeps(eval: Check -> bool, s: State, t: ThreadId, pending: multiset<Check>)
    requires Inner(eval, s, t, pending)
    ensures var (u, v) := Proceed(s, t);
      if v.NoVerdict? then Inv(eval, u, pending)
      else Inv(eval, u, multiset{}) && v.ok == AllPass(eval, pending) && t == MASTER
  {
    hide Inv, Inner;
    if s.q.queue != [] {
      Takes(eval, s, t, pending);
    } else if t == MASTER && s.q.nTodo == 0 {
      Leaves(eval, s, pending);
    } else {
      Waits(eval, s, t, pending);
    }
  }

  // ----- The sections before -----

  lemma StartInner(eval: Check -> bool, s: State, t: ThreadId, pending: multiset<Check>)
    requires Inv(eval, s, pending) && Enabled(s, Start(t))
    ensures Inner(eval, s.(q := s.q.(nTotal := s.q.nTotal + 1)), t, pending)
  {
    assert Idle(s.threads) - {t} == Idle(s.threads);
  }

  lemma WakeInner(eval: Check -> bool, s: State, t: ThreadId, pending: multiset<Check>)
    requires Inv(eval, s, pending) && Enabled(s, Wake(t))
    ensures Inner(eval, s.(q := s.q.(nIdle := s.q.nIdle - 1)), t, pending)
  {
    assert Inside(s.threads) + {t} == Inside(s.threads);
    assert t in Idle(s.threads);
  }

  lemma ExecuteKeeps(eval: Check -> bool, s: State, t: ThreadId, pending: multiset<Check>)
    requires Inv(eval, s, pending) && Enabled(s, Execute(t))
    ensures Inv(eval, Next(eval, s, Execute(t)).0, pending)
  {
    hide Held, Idle, Inside, AllPass;
    var th := s.threads[t];
    var u := Next(eval, s, Execute(t)).0;
    HeldQuiet(s.threads, t, u.threads[t]);
    HeldRemove(s.threads, t);
    CountAside(s.threads, t, u.threads[t]);
    CountUpdate(s.threads, t, u.threads[t]);
    assert ThreadOk(eval, th, pending);
    assert th.batch[th.next] in multiset(th.batch);
    assert th.batch[th.next] in Held(s.threads);
    assert th.batch[th.next] in pending;
    ThreadsUpdate(eval, s.threads, pending, t, u.threads[t]);
    assert Open(u) == Open(s);
  }

  /** Reporting a batch closes its checks. The thread leaves its batch in the same section, so
      the state is described with the thread put aside. */
  lemma FinishProceeds(eval: Check -> bool, s: State, t: ThreadId)
    requires Enabled(s, Finish(t))
    ensures Next(eval, s, Finish(t)) == Proceed(Aside(s, t), t)
  {
    var th := s.threads[t];
    var q := Reported(s.q, |th.batch|, th.ok);
    var x := State(q, if q.nTodo == 0 && t != MASTER then NotifyMaster(s.threads) else s.threads);
    var y := Aside(s, t);
    var after := Proceed(x, t).0.threads[t];
    assert x.threads[t := after] == y.threads[t := after];
  }

  /** The state after a report, with the reporting thread shown as a waiting one. */
  function Aside(s: State, t: ThreadId): State
    requires Enabled(s, Finish(t))
  {
    var th := s.threads[t];
    var q := Reported(s.q, |th.batch|, th.ok);
    State(q, (if q.nTodo == 0 && t != MASTER then NotifyMaster(s.threads) else s.threads)[t := Waiting(true)])
  }

  /** Two threads that differ in a signal only. */
  predicate Alike(a: Thread, b: Thread) {
    a == b || (a.Waiting? && b.Waiting?)
  }

  ghost predicate AllAlike(a: Threads, b: Threads) {
    a.Keys == b.Keys && forall t :: t in a ==> Alike(a[t], b[t])
  }

  lemma AlikeSame(a: Threads, b: Threads)
    requires AllAlike(a, b)
    ensures Held(a) == Held(b) && Idle(a) == Idle(b) && Inside(a) == Inside(b)
  {
    hide Held, Idle, Inside;
    forall t | t in a ensures BatchOf(a[t]) == BatchOf(b[t]) && a[t].Waiting? == b[t].Waiting? && a[t].Out? == b[t].Out? {
      assert Alike(a[t], b[t]);
    }
    HeldSame(a, b);
    CountSame(a, b);
  }

  lemma AsideThreads(s: State, t: ThreadId)
    requires Enabled(s, Finish(t))
    ensures var plain := s.threads[t := Waiting(true)];
      && Held(Aside(s, t).threads) == Held(plain)
      && Idle(Aside(s, t).threads) == Idle(plain) && Inside(Aside(s, t).threads) == Inside(plain)
  {
    hide Held, Idle, Inside;
    var plain := s.threads[t := Waiting(true)];
    assert AllAlike(plain, Aside(s, t).threads);
    AlikeSame(plain, Aside(s, t).threads);
  }

  lemma FinishOpen(s: State, t: ThreadId)
    requires Enabled(s, Finish(t))
    ensures Held(Aside(s, t).threads) + multiset(s.threads[t].batch) == Held(s.threads)
    ensures Idle(Aside(s, t).threads) - {t} == Idle(s.threads)
    ensures Inside(Aside(s, t).threads) + {t} == Inside(s.threads)
  {
    hide Held, Idle, Inside, Aside;
    AsideThreads(s, t);
    HeldDrop(s.threads, t, Waiting(true));
    CountAside(s.threads, t, Waiting(true));
    BusyCounted(s.threads, t);
  }

  lemma BusyCounted(threads: Threads, t: ThreadId)
    requires t in threads && threads[t].Working?
    ensures t !in Idle(threads) && t in Inside(threads)
  {
  }

  lemma FinishInner(eval: Check -> bool, s: State, t: ThreadId, pending: multiset<Check>)
    requires Inv(eval, s, pending) && Enabled(s, Finish(t))
    ensures Inner(eval, Aside(s, t), t, pending)
  {
    hide Held, Idle, Inside, SomeFails, AllPass, Open;
    var th := s.threads[t];
    var u := Aside(s, t);
    FinishOpen(s, t);
    FinishOpens(s, t);
    assert ThreadOk(eval, th, pending);
    BatchLeaves(Open(u), th.batch, Open(s));
    if u.q.allOk {
      BatchPasses(eval, Open(u), th.batch, Open(s), pending);
    }
    AsideOk(eval, s, t, pending);
  }

  lemma FinishOpens(s: State, t: ThreadId)
    requires Enabled(s, Finish(t))
    ensures Open(Aside(s, t)) + multiset(s.threads[t].batch) == Open(s)
  {
    hide Held;
    FinishOpen(s, t);
  }

  lemma BatchLeaves(now: multiset<Check>, batch: seq<Check>, before: multiset<Check>)
    requires now + multiset(batch) == before
    ensures now <= before && |now| + |batch| == |before|
  {
    assert |multiset(batch)| == |batch|;
    assert |now + multiset(batch)| == |now| + |multiset(batch)|;
  }

  /** A batch that passed may leave the open checks. */
  lemma BatchPasses(eval: Check -> bool, now: multiset<Check>, batch: seq<Check>, before: multiset<Check>, pending: multiset<Check>)
    requires now + multiset(batch) == before && before <= pending && AllPass(eval, pending - before)
    requires forall k :: 0 <= k < |batch| ==> eval(batch[k])
    ensures AllPass(eval, pending - now)
  {
    forall c | c in pending - now ensures eval(c) {
      if c in multiset(batch) {
        var k :| 0 <= k < |batch| && batch[k] == c;
      } else {
        assert c in pending - before;
      }
    }
  }

  lemma AsideOk(eval: Check -> bool, s: State, t: ThreadId, pending: multiset<Check>)
    requires ThreadsOk(eval, s.threads, pending) && Enabled(s, Finish(t))
    ensures ThreadsOk(eval, Aside(s, t).threads, pending)
  {
    hide SomeFails;
    var u := Aside(s, t);
    forall x | x in u.threads ensures ThreadOk(eval, u.threads[x], pending) {
      assert ThreadOk(eval, s.threads[x], pending);
    }
  }

  // ----- Runs -----

  /** What the checks added since the last return amount to after a step. */
  function Pending(pending: multiset<Check>, step: Step, v: Verdict): multiset<Check> {
    if v.Verdict? then multiset{}
    else if step.Add? then pending + multiset(step.checks)
    else pending
  }

  /** Every step keeps the invariant, and a verdict is given by the master only and says
      whether every check added since its last return passes. */
  lemma StepKeeps(eval: Check -> bool, s: State, step: Step, pending: multiset<Check>)
    requires Inv(eval, s, pending) && Enabled(s, step)
    ensures var (u, v) := Next(eval, s, step);
      Inv(eval, u, Pending(pending, step, v)) && (v.Verdict? ==> v.ok == AllPass(eval, pending))
  {
    hide Inv, Inner, Proceed, AllPass;
    match step
    case Add(checks, chosen) => AddKeeps(eval, s, checks, chosen, pending);
    case Start(t) =>
      StartInner(eval, s, t, pending);
      assert Next(eval, s, step) == Proceed(s.(q := s.q.(nTotal := s.q.nTotal + 1)), t);
      ProceedKeeps(eval, s.(q := s.q.(nTotal := s.q.nTotal + 1)), t, pending);
    case Wake(t) =>
      WakeInner(eval, s, t, pending);
      assert Next(eval, s, step) == Proceed(s.(q := s.q.(nIdle := s.q.nIdle - 1)), t);
      ProceedKeeps(eval, s.(q := s.q.(nIdle := s.q.nIdle - 1)), t, pending);
    case Execute(t) => ExecuteKeeps(eval, s, t, pending);
    case Finish(t) =>
      FinishInner(eval, s, t, pending);
      FinishProceeds(eval, s, t);
      ProceedKeeps(eval, Aside(s, t), t, pending);
  }

  predicate EnabledRun(eval: Check -> bool, s: State, steps: seq<Step>)
    decreases |steps|
  {
    steps != [] ==> Enabled(s, steps[0]) && EnabledRun(eval, Next(eval, s, steps[0]).0, steps[1..])
  }

  function RunState(eval: Check -> bool, s: State, steps: seq<Step>): State
    requires EnabledRun(eval, s, steps)
    decreases |steps|
  {
    if steps == [] then s else RunState(eval, Next(eval, s, steps[0]).0, steps[1..])
  }

  /** The answers of `Wait` along a run. */
  function Verdicts(eval: Check -> bool, s: State, steps: seq<Step>): seq<bool>
    requires EnabledRun(eval, s, steps)
    decreases |steps|
  {
    if steps == [] then [] else
    var (u, v) := Next(eval, s, steps[0]);
    (if v.Verdict? then [v.ok] else []) + Verdicts(eval, u, steps[1..])
  }

  /** What the answers should be: the checks of each round, and nothing older. */
  ghost function Expected(eval: Check -> bool, s: State, steps: seq<Step>, pending: multiset<Check>): seq<bool>
    requires EnabledRun(eval, s, steps)
    decreases |steps|
  {
    if steps == [] then [] else
    var (u, v) := Next(eval, s, steps[0]);
    (if v.Verdict? then [AllPass(eval, pending)] else []) + Expected(eval, u, steps[1..], Pending(pending, steps[0], v))
  }

  ghost function PendingAfter(eval: Check -> bool, s: State, steps: seq<Step>, pending: multiset<Check>): multiset<Check>
    requires EnabledRun(eval, s, steps)
    decreases |steps|
  {
    if steps == [] then pending else
    var (u, v) := Next(eval, s, steps[0]);
    PendingAfter(eval, u, steps[1..], Pending(pending, steps[0], v))
  }

  /** For any number of workers and any interleaving, every `Wait` answers whether all checks
      added since the previous one pass. */
  lemma {:induction false} RunVerdicts(eval: Check -> bool, s: State, steps: seq<Step>, pending: multiset<Check>)
    requires Inv(eval, s, pending) && EnabledRun(eval, s, steps)
    ensures Verdicts(eval, s, steps) == Expected(eval, s, steps, pending)
    ensures Inv(eval, RunState(eval, s, steps), PendingAfter(eval, s, steps, pending))
    decreases |steps|
  {
    hide Inv, AllPass, Next, Pending, Enabled;
    if steps != [] {
      StepKeeps(eval, s, steps[0], pending);
      var (u, v) := Next(eval, s, steps[0]);
      RunVerdicts(eval, u, steps[1..], Pending(pending, steps[0], v));
    }
  }

  // ----- Blocking -----

  /** A master that waits unsignalled has an empty queue and a worker that holds a batch. */
  lemma BlockedMaster(eval: Check -> bool, s: State, pending: multiset<Check>)
    requires Inv(eval, s, pending) && s.threads[MASTER] == Waiting(false)
    ensures s.q.queue == []
    ensures exists t :: t in s.threads && t != MASTER && s.threads[t].Working?
  {
    assert multiset(s.q.queue) == multiset{};
    assert Open(s) == Held(s.threads);
    HeldBySome(s.threads);
    var t :| t in s.threads && BatchOf(s.threads[t]) != multiset{};
  }

  /** The worker that brings `nTodo` to zero signals a waiting master. */
  lemma LastReportSignals(eval: Check -> bool, s: State, t: ThreadId, pending: multiset<Check>)
    requires Inv(eval, s, pending) && Enabled(s, Finish(t)) && t != MASTER
    requires s.threads[MASTER].Waiting? && s.q.nTodo == |s.threads[t].batch|
    ensures var u := Next(eval, s, Finish(t)).0;
      u.q.nTodo == 0 && u.threads[MASTER] == Waiting(true)
  {
  }

  /** The work left: three units for a queued check, then its run and its batch's report. */
  ghost function Work(s: State): nat {
    3 * |s.q.queue| + HeldWork(s.threads)
  }

  function WorkOf(th: Thread): nat {
    if th.Working? && th.next <= |th.batch| then |th.batch| - th.next + 1 else 0
  }

  ghost function HeldWork(threads: Threads): nat {
    if threads.Keys == {} then 0 else
    var t := Least(threads.Keys);
    WorkOf(threads[t]) + HeldWork(threads - {t})
  }

  lemma {:induction false} WorkRemove(threads: Threads, t: ThreadId)
    requires t in threads
    ensures HeldWork(threads) == WorkOf(threads[t]) + HeldWork(threads - {t})
    decreases |threads|
  {
    hide WorkOf;
    var u := Least(threads.Keys);
    if u != t {
      WorkRemove(threads - {u}, t);
      WorkRemove(threads - {t}, u);
      assert threads - {u} - {t} == threads - {t} - {u};
    }
  }

  lemma WorkUpdate(threads: Threads, t: ThreadId, th: Thread)
    requires t in threads
    ensures HeldWork(threads[t := th]) == HeldWork(threads) - WorkOf(threads[t]) + WorkOf(th)
  {
    hide WorkOf, HeldWork;
    WorkRemove(threads, t);
    WorkRemove(threads[t := th], t);
    assert threads[t := th] - {t} == threads - {t};
  }

  /** Going on never adds work: a batch costs less than its checks did in the queue. */
  lemma ProceedWork(s: State, t: ThreadId)
    requires t in s.threads && s.q.nTotal >= 0 && s.q.nIdle >= 0
    ensures Work(Proceed(s, t).0) <= Work(s) - WorkOf(s.threads[t])
  {
    hide HeldWork;
    var u := Proceed(s, t).0;
    WorkUpdate(s.threads, t, u.threads[t]);
  }

  lemma WakeWork(eval: Check -> bool, s: State, t: ThreadId, pending: multiset<Check>)
    requires Inv(eval, s, pending) && (Enabled(s, Start(t)) || Enabled(s, Wake(t)))
    ensures var step := if s.threads[t].Out? then Start(t) else Wake(t);
      Work(Next(eval, s, step).0) <= Work(s)
  {
    hide HeldWork, Proceed;
    if s.threads[t].Out? {
      ProceedWork(s.(q := s.q.(nTotal := s.q.nTotal + 1)), t);
    } else {
      assert t in Idle(s.threads);
      ProceedWork(s.(q := s.q.(nIdle := s.q.nIdle - 1)), t);
    }
  }

  /** Running a check and reporting a batch use work up. */
  lemma BusyWork(eval: Check -> bool, s: State, t: ThreadId, pending: multiset<Check>)
    requires Inv(eval, s, pending) && (Enabled(s, Execute(t)) || Enabled(s, Finish(t)))
    ensures var step := if s.threads[t].next < |s.threads[t].batch| then Execute(t) else Finish(t);
      Work(Next(eval, s, step).0) < Work(s)
  {
    hide HeldWork, Proceed;
    var th := s.threads[t];
    if th.next < |th.batch| {
      WorkUpdate(s.threads, t, Next(eval, s, Execute(t)).0.threads[t]);
    } else {
      var q := Reported(s.q, |th.batch|, th.ok);
      var threads := if q.nTodo == 0 && t != MASTER then NotifyMaster(s.threads) else s.threads;
      if MASTER in s.threads {
        WorkUpdate(s.threads, MASTER, Notified(s.threads[MASTER]));
      }
      ProceedWork(State(q, threads), t);
    }
  }

  function BusySteps(steps: seq<Step>): nat {
    if steps == [] then 0 else
    (if steps[0].Execute? || steps[0].Finish? then 1 else 0) + BusySteps(steps[1..])
  }

  lemma StepWork(eval: Check -> bool, s: State, step: Step, pending: multiset<Check>)
    requires Inv(eval, s, pending) && Enabled(s, step) && !step.Add?
    ensures Work(Next(eval, s, step).0) + BusySteps([step]) <= Work(s)
  {
    hide Work, Inv, Next;
    match step
    case Start(t) => WakeWork(eval, s, t, pending);
    case Wake(t) => WakeWork(eval, s, t, pending);
    case Execute(t) => BusyWork(eval, s, t, pending);
    case Finish(t) => BusyWork(eval, s, t, pending);
  }

  /** However the threads interleave, no more checks and reports can happen before new work
      is added than there is work, so a fair run lets `Wait` return. */
  lemma {:induction false} RunWork(eval: Check -> bool, s: State, steps: seq<Step>, pending: multiset<Check>)
    requires Inv(eval, s, pending) && EnabledRun(eval, s, steps)
    requires forall i :: 0 <= i < |steps| ==> !steps[i].Add?
    ensures BusySteps(steps) + Work(RunState(eval, s, steps)) <= Work(s)
    decreases |steps|
  {
    hide Work, Inv, Next, Enabled, Pending;
    if steps != [] {
      StepWork(eval, s, steps[0], pending);
      StepKeeps(eval, s, steps[0], pending);
      var (u, v) := Next(eval, s, steps[0]);
      RunWork(eval, u, steps[1..], Pending(pending, steps[0], v));
      assert BusySteps([steps[0]]) == if steps[0].Execute? || steps[0].Finish? then 1 else 0;
    }
  }

  /** A thread can use work up, or the master can leave. */
  ghost predicate CanProgress(s: State)
    requires MASTER in s.threads
  {
    || (exists t :: t in s.threads && (Enabled(s, Execute(t)) || Enabled(s, Finish(t))))
    || (s.threads[MASTER] == Waiting(true) && s.q.nTodo == 0)
  }

  /** While the master is in `Wait`, someone can always go on: there is no deadlock. */
  lemma NoDeadlock(eval: Check -> bool, s: State, pending: multiset<Check>)
    requires Inv(eval, s, pending) && !s.threads[MASTER].Out?
    ensures CanProgress(s)
  {
    if s.threads[MASTER] == Waiting(false) {
      BlockedMaster(eval, s, pending);
      var t :| t in s.threads && t != MASTER && s.threads[t].Working?;
      assert ThreadOk(eval, s.threads[t], pending);
      assert Enabled(s, Execute(t)) || Enabled(s, Finish(t));
    } else if s.threads[MASTER].Working? {
      assert ThreadOk(eval, s.threads[MASTER], pending);
      assert Enabled(s, Execute(MASTER)) || Enabled(s, Finish(MASTER));
    }
  }

  /** A master woken when all work is reported leaves. */
  lemma DoneMasterLeaves(eval: Check -> bool, s: State, pending: multiset<Check>)
    requires Inv(eval, s, pending) && Enabled(s, Wake(MASTER)) && s.q.nTodo == 0
    ensures Next(eval, s, Wake(MASTER)).1 == Verdict(AllPass(eval, pending))
  {
    StepKeeps(eval, s, Wake(MASTER), pending);
  }

  /** From a fresh queue, for any number of workers and any interleaving: every `Wait` so far
      answered whether all checks of its round pass, a master inside `Wait` is never stuck, and
      the work left bounds every run that adds no more. */
  lemma FreshQueue(eval: Check -> bool, batchSize: nat, threads: set<ThreadId>, steps: seq<Step>, more: seq<Step>)
    requires EnabledRun(eval, Initial(batchSize, threads), steps)
    requires EnabledRun(eval, RunState(eval, Initial(batchSize, threads), steps), more)
    requires forall i :: 0 <= i < |more| ==> !more[i].Add?
    ensures var s := Initial(batchSize, threads);
      Verdicts(eval, s, steps) == Expected(eval, s, steps, multiset{})
    ensures var u := RunState(eval, Initial(batchSize, threads), steps);
      && MASTER in u.threads && (!u.threads[MASTER].Out? ==> CanProgress(u))
      && BusySteps(more) <= Work(u)
  {
    hide Inv, EnabledRun, Verdicts, Expected, CanProgress, Work, BusySteps;
    var s := Initial(batchSize, threads);
    InitialInv(eval, batchSize, threads);
    RunVerdicts(eval, s, steps, multiset{});
    var u, pending := RunState(eval, s, steps), PendingAfter(eval, s, steps, multiset{});
    MasterThere(eval, u, pending);
    if !u.threads[MASTER].Out? {
      NoDeadlock(eval, u, pending);
    }
    RunWork(eval, u, more, pending);
  }

  lemma MasterThere(eval: Check -> bool, s: State, pending: multiset<Check>)
    requires Inv(eval, s, pending)
    ensures MASTER in s.threads
  {
  }
}
