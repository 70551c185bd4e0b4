/** The check queue's members and the code that runs on them, section by section. */
module CheckQueue {
  import opened CheckQueueState

  /** How a pass through the inner loop of `Loop` ends. */
  datatype Action = Return(verdict: bool) | Sleep | Work(batch: seq<Check>, ok: bool)

  class CheckQueue {
    var queue: seq<Check>
    var nIdle: int
    var nTotal: int
    var fAllOk: bool
    var nTodo: int
    const nBatchSize: nat

    function S(): Shared
      reads this
    {
      Shared(queue, nIdle, nTotal, fAllOk, nTodo, nBatchSize)
    }

    constructor (batchSize: nat)
      ensures S() == Shared([], 0, 0, true, 0, batchSize)
    {
      queue, nIdle, nTotal, fAllOk, nTodo, nBatchSize := [], 0, 0, true, 0, batchSize;
    }

    /** The number of checks decides who is notified. */
    method Add(checks: seq<Check>) returns (notifyOne: bool, notifyAll: bool)
      modifies this
      ensures S() == Pushed(old(S()), checks)
      ensures notifyOne == (|checks| == 1) && notifyAll == (|checks| > 1)
    {
      for i := 0 to |checks|
        invariant queue == old(queue) + checks[..i]
        invariant unchanged(`nIdle) && unchanged(`nTotal) && unchanged(`fAllOk) && unchanged(`nTodo)
      {
        queue := queue + [checks[i]];
      }
      assert checks[..|checks|] == checks;
      nTodo := nTodo + |checks|;
      notifyOne, notifyAll := |checks| == 1, |checks| > 1;
    }

    /** The start of a section: report the last batch, or join on the first round. */
    method Arrive(nNow: nat, fOk: bool, fMaster: bool) returns (notifyMaster: bool)
      modifies this
      ensures S() == if nNow != 0 then Reported(old(S()), nNow, fOk) else old(S()).(nTotal := old(nTotal) + 1)
      ensures notifyMaster == (nNow != 0 && nTodo == 0 && !fMaster)
    {
      notifyMaster := false;
      if nNow != 0 {
        fAllOk := fAllOk && fOk;
        nTodo := nTodo - nNow;
        notifyMaster := nTodo == 0 && !fMaster;
      } else {
        nTotal := nTotal + 1;
      }
    }

    /** After a wait. */
    method Woken()
      modifies this
      ensures S() == old(S()).(nIdle := old(nIdle) - 1)
    {
      nIdle := nIdle - 1;
    }

    /** The test of the inner loop and what follows it. */
    method Decide(fMaster: bool) returns (action: Action)
      requires nTotal >= 0 && nIdle >= 0
      modifies this
      ensures forall s: State, t: ThreadId :: s.q == old(S()) && fMaster == (t == MASTER) ==>
        Proceed(s, t) == (State(S(), s.threads[t := After(action)]), Told(action))
    {
      if queue == [] {
        if fMaster && nTodo == 0 {
          nTotal := nTotal - 1;
          action := Return(fAllOk);
          fAllOk := true;
        } else {
          nIdle := nIdle + 1;
          action := Sleep;
        }
      } else {
        var nNow := BatchSize(S());
        var batch := TakeBatch(nNow);
        action := Work(batch, fAllOk);
      }
    }

    /** Moves the top of the queue into the batch, one by one. */
    method TakeBatch(nNow: nat) returns (batch: seq<Check>)
      requires nNow <= |queue|
      modifies `queue
      ensures batch == Top(old(queue), nNow) && S() == WithoutTop(old(S()), nNow)
    {
      batch := [];
      for i := 0 to nNow
        invariant queue == old(queue)[..|old(queue)| - i]
        invariant batch == Top(old(queue), i)
      {
        batch := batch + [queue[|queue| - 1]];
        queue := queue[..|queue| - 1];
      }
    }
  }

  function After(action: Action): Thread {
    match action
    case Return(_) => Out
    case Sleep => Waiting(false)
    case Work(batch, ok) => Working(batch, 0, ok)
  }

  function Told(action: Action): Verdict {
    if action.Return? then Verdict(action.verdict) else NoVerdict
  }

  /** The work outside the mutex: after a failure the rest is skipped. */
  method Execute(eval: Check -> bool, batch: seq<Check>, start: bool) returns (ok: bool)
    ensures ok <==> start && forall c :: c in batch ==> eval(c)
  {
    ok := start;
    for i := 0 to |batch|
      invariant ok <==> start && forall k :: 0 <= k < i ==> eval(batch[k])
    {
      if ok {
        ok := eval(batch[i]);
      }
    }
  }
}
