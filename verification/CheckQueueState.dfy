/** The parallel check queue (src/checkqueue.h) as a state machine. Its steps are the sections
    a thread runs under the mutex, from one wait or unlock to the next, and the single checks
    it runs outside. Any number of workers take part, and a wait may end without a signal. */
module CheckQueueState {
  import opened Powers
  import opened SortedSets

  type Check = nat

  type ThreadId = int

  const MASTER: ThreadId := -1

  /** Where a thread is in `Loop`. */
  datatype Thread =
    | Out
    | Waiting(notified: bool)
    | Working(batch: seq<Check>, next: nat, ok: bool)

  /** The members of the queue that the mutex protects. */
  datatype Shared = Shared(queue: seq<Check>, nIdle: int, nTotal: int, allOk: bool, nTodo: int, batchSize: nat)

  type Threads = map<ThreadId, Thread>

  datatype State = State(q: Shared, threads: Threads)

  // ----- Sections on the shared members -----

  /** The size of the next batch. */
  function BatchSize(q: Shared): (n: nat)
    ensures n >= 1
    ensures |q.queue| >= 1 && q.nTotal >= 0 && q.nIdle >= 0 ==> n <= |q.queue|
  {
    var share := if q.nTotal + q.nIdle + 1 > 0 then |q.queue| / (q.nTotal + q.nIdle + 1) else 0;
    var n := if q.batchSize < share then q.batchSize else share;
    if n < 1 then 1 else n
  }

  /** A batch is the largest that leaves as much for every other thread inside and one newcomer,
      within the limit, but at least one. */
  lemma BatchIsShare(q: Shared)
    requires q.nTotal >= 0 && q.nIdle >= 0
    ensures var n, threads := BatchSize(q), q.nTotal + q.nIdle + 1;
      && (n == 1 || (n <= q.batchSize && n * threads <= |q.queue|))
      && (n == q.batchSize || (n + 1) * threads > |q.queue| || q.batchSize == 0)
  {
    var threads := q.nTotal + q.nIdle + 1;
    var share, n := |q.queue| / threads, BatchSize(q);
    assert n == 1 || n <= share;
    assert n >= share || n == q.batchSize || q.batchSize == 0;
    ShareIs(|q.queue|, threads, share, n);
  }

  lemma ShareIs(size: nat, threads: nat, share: nat, n: nat)
    requires threads > 0 && share == size / threads
    ensures n <= share ==> n * threads <= size
    ensures n >= share ==> (n + 1) * threads > size
  {
    assert size == share * threads + size % threads;
    if n <= share {
      MulMono(n, share, threads);
    }
    if n >= share {
      MulMono(share + 1, n + 1, threads);
    }
  }

  /** The queue is a stack: a batch is its top, topmost first. */
  function Top(queue: seq<Check>, n: nat): (batch: seq<Check>)
    requires n <= |queue|
    ensures |batch| == n
  {
    seq(n, i requires 0 <= i < n => queue[|queue| - 1 - i])
  }

  function WithoutTop(q: Shared, n: nat): Shared
    requires n <= |q.queue|
  {
    q.(queue := q.queue[..|q.queue| - n])
  }

  function Pushed(q: Shared, checks: seq<Check>): Shared {
    q.(queue := q.queue + checks, nTodo := q.nTodo + |checks|)
  }

  /** The clean-up after a batch of `n` checks. */
  function Reported(q: Shared, n: nat, ok: bool): Shared {
    q.(allOk := q.allOk && ok, nTodo := q.nTodo - n)
  }

  /** The master leaves and resets the verdict. */
  function Left(q: Shared): Shared {
    q.(nTotal := q.nTotal - 1, allOk := true)
  }

  // ----- Steps -----

  /** `chosen` is the worker that a `notify_one` picks. */
  datatype Step =
    | Add(checks: seq<Check>, chosen: ThreadId)
    | Start(t: ThreadId)
    | Wake(t: ThreadId)
    | Execute(t: ThreadId)
    | Finish(t: ThreadId)

  /** The master adds work only while it is not in `Wait`; a thread moves on from where it is. */
  predicate Enabled(s: State, step: Step) {
    match step
    case Add(_, _) => MASTER in s.threads && s.threads[MASTER].Out?
    case Start(t) => t in s.threads && s.threads[t].Out?
    case Wake(t) => t in s.threads && s.threads[t].Waiting?
    case Execute(t) => t in s.threads && s.threads[t].Working? && s.threads[t].next < |s.threads[t].batch|
    case Finish(t) => t in s.threads && s.threads[t].Working? && s.threads[t].next == |s.threads[t].batch|
  }

  function Notified(th: Thread): Thread {
    if th.Waiting? then Waiting(true) else th
  }

  function NotifyWorkers(threads: Threads, checks: seq<Check>, chosen: ThreadId): Threads {
    map t | t in threads ::
      if t != MASTER && (|checks| > 1 || (|checks| == 1 && t == chosen)) then Notified(threads[t]) else threads[t]
  }

  function NotifyMaster(threads: Threads): Threads {
    if MASTER in threads then threads[MASTER := Notified(threads[MASTER])] else threads
  }

  /** One check wakes the chosen worker if it waits, more wake all that wait; nobody else moves. */
  lemma WhoWakes(threads: Threads, checks: seq<Check>, chosen: ThreadId, t: ThreadId)
    requires t in threads
    ensures var after, woken := NotifyWorkers(threads, checks, chosen), |checks| >= 2 || (|checks| == 1 && t == chosen);
      t in after && after[t] == if threads[t].Waiting? && t != MASTER && woken then Waiting(true) else threads[t]
  {
  }

  datatype Verdict = NoVerdict | Verdict(ok: bool)

  /** The inner loop of `Loop`, entered with the mutex held: return, wait, or take a batch. */
  function Proceed(s: State, t: ThreadId): (State, Verdict) {
    if s.q.queue == [] then
      if t == MASTER && s.q.nTodo == 0 then (State(Left(s.q), s.threads[t := Out]), Verdict(s.q.allOk))
      else (State(s.q.(nIdle := s.q.nIdle + 1), s.threads[t := Waiting(false)]), NoVerdict)
    else
      var n := BatchSize(s.q);
      if n > |s.q.queue| then (s, NoVerdict)
      else (State(WithoutTop(s.q, n), s.threads[t := Working(Top(s.q.queue, n), 0, s.q.allOk)]), NoVerdict)
  }

  /** One step of the system. `eval` is what each check answers. */
  function Next(eval: Check -> bool, s: State, step: Step): (State, Verdict)
    requires Enabled(s, step)
  {
    match step
    case Add(checks, chosen) => (State(Pushed(s.q, checks), NotifyWorkers(s.threads, checks, chosen)), NoVerdict)
    case Start(t) => Proceed(s.(q := s.q.(nTotal := s.q.nTotal + 1)), t)
    case Wake(t) => Proceed(s.(q := s.q.(nIdle := s.q.nIdle - 1)), t)
    case Execute(t) =>
      var th := s.threads[t];
      var ok := th.ok && eval(th.batch[th.next]);
      (s.(threads := s.threads[t := th.(next := th.next + 1, ok := ok)]), NoVerdict)
    case Finish(t) =>
      var th := s.threads[t];
      var q := Reported(s.q, |th.batch|, th.ok);
      Proceed(State(q, if q.nTodo == 0 && t != MASTER then NotifyMaster(s.threads) else s.threads), t)
  }

  /** After a failure the rest of the round is skipped: a thread that takes a batch then does not
      run its checks, and neither does one whose own check failed. */
  lemma FailureSkips(eval: Check -> bool, s: State, t: ThreadId)
    requires s.q.nTotal >= 0 && s.q.nIdle >= 0
    ensures !s.q.allOk && s.q.queue != [] ==> (var th := Proceed(s, t).0.threads[t]; th.Working? && !th.ok)
    ensures Enabled(s, Execute(t)) && !s.threads[t].ok ==>
      Next(eval, s, Execute(t)).0.threads[t] == s.threads[t].(next := s.threads[t].next + 1)
  {
  }

  // ----- What the threads hold -----

  function BatchOf(th: Thread): multiset<Check> {
    if th.Working? then multiset(th.batch) else multiset{}
  }

  /** The checks in the threads' own batches. */
  ghost function Held(threads: Threads): multiset<Check> {
    if threads.Keys == {} then multiset{} else
    var t := Least(threads.Keys);
    BatchOf(threads[t]) + Held(threads - {t})
  }

  function Idle(threads: Threads): set<ThreadId> {
    set t | t in threads && threads[t].Waiting?
  }

  function Inside(threads: Threads): set<ThreadId> {
    set t | t in threads && !threads[t].Out?
  }
}
