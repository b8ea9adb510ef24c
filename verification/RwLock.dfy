/** The readers-writer lock of maitake-sync/src/rwlock.rs: a client of the semaphore whose
    readers acquire one permit and whose writers acquire all of them. */
module RwLock {
  import opened Wrappers
  import Sem = Semaphore

  const MAX_READERS: nat := Sem.MAX_PERMITS

  /** The calls a lock makes: `read` and `try_read` ask for one permit, `write` and
      `try_write` for all; guards are polled, dropped or leaked, never forgotten as permits. */
  predicate LockCall(a: Sem.Action) {
    match a
    case Acquire(n) => n == 1 || n == MAX_READERS
    case TryAcquire(n) => n == 1 || n == MAX_READERS
    case AddPermits(_) => false
    case Forget(_) => false
    case _ => true
  }

  predicate Runs(s: Sem.State, run: seq<Sem.Action>) {
    && Sem.Initial(s) && s.permits == MAX_READERS
    && Sem.Runs(s, run) && forall k | 0 <= k < |run| :: LockCall(run[k])
  }

  predicate IsGuard(s: Sem.State, i: Sem.Id) {
    i < |s.agents| && s.agents[i].pc.Live?
  }

  predicate WriteGuard(s: Sem.State, i: Sem.Id) {
    IsGuard(s, i) && s.agents[i].requested == MAX_READERS
  }

  lemma {:induction false} NothingSupplied(s: Sem.State, run: seq<Sem.Action>)
    requires Sem.Runs(s, run) && forall k | 0 <= k < |run| :: LockCall(run[k])
    ensures Sem.Supply(s, run) == 0
    decreases |run|
  {
    if run != [] {
      assert LockCall(run[0]);
      NothingSupplied(Sem.Step(s, run[0]), run[1..]);
    }
  }

  /** Every request is for one permit or for all of them. */
  predicate Sized(s: Sem.State) {
    forall i | 0 <= i < |s.agents| :: s.agents[i].requested == 1 || s.agents[i].requested == MAX_READERS
  }

  lemma StepSized(s: Sem.State, a: Sem.Action)
    requires Sized(s) && Sem.Enabled(s, a) && LockCall(a)
    ensures Sized(Sem.Step(s, a))
  {
    if a.Proceed? {
      if Sem.Releasing(s.agents[a.i].pc) { SameRequests(s, a.i); } else { SameRequest(s, a.i); }
    }
  }

  lemma SameRequests(s: Sem.State, i: Sem.Id)
    requires i < |s.agents|
    ensures var s' := Sem.StepRelease(s, i);
            |s'.agents| == |s.agents| && forall j | 0 <= j < |s.agents| :: s'.agents[j].requested == s.agents[j].requested
  {
  }

  lemma SameRequest(s: Sem.State, i: Sem.Id)
    requires i < |s.agents|
    ensures var s' := Sem.StepAcquire(s, i);
            |s'.agents| == |s.agents| && forall j | 0 <= j < |s.agents| :: s'.agents[j].requested == s.agents[j].requested
  {
  }

  lemma {:induction false} RunSized(s: Sem.State, run: seq<Sem.Action>)
    requires Sized(s) && Sem.Runs(s, run) && forall k | 0 <= k < |run| :: LockCall(run[k])
    ensures Sized(Sem.Exec(s, run))
    decreases |run|
  {
    if run != [] {
      assert LockCall(run[0]);
      StepSized(s, run[0]);
      RunSized(Sem.Step(s, run[0]), run[1..]);
    }
  }

  /** Exclusion, in every run: while a write guard is live no other guard is. */
  lemma WriterExcludes(s: Sem.State, run: seq<Sem.Action>, i: Sem.Id, j: Sem.Id)
    requires Runs(s, run) && WriteGuard(Sem.Exec(s, run), i) && IsGuard(Sem.Exec(s, run), j)
    ensures i == j
  {
    var e := Sem.Exec(s, run);
    Sem.Conservation(s, run);
    NothingSupplied(s, run);
    RunSized(s, run);
    if i < j { Sem.SumAtLeastTwo(e.agents, i, j); }
    if j < i { Sem.SumAtLeastTwo(e.agents, j, i); }
  }

  /** Dropping guards never trips the overflow assertion of the semaphore. */
  lemma DropNeverOverflows(s: Sem.State, run: seq<Sem.Action>, i: Sem.Id)
    requires Runs(s, run) && i < |Sem.Exec(s, run).agents| && Sem.Exec(s, run).agents[i].pc.Flush?
    ensures Sem.Exec(s, run).permits + Sem.Exec(s, run).agents[i].pc.n <= Sem.MAX_PERMITS
  {
    Sem.NoOverflow(s, run, i);
    NothingSupplied(s, run);
  }

  /** A reader or writer that gets in without queueing does so only when nobody queues, so
      a waiting writer is not starved by readers that come later. */
  lemma NoBarging(s: Sem.State, run: seq<Sem.Action>, a: Sem.Action)
    requires Runs(s, run) && Sem.Enabled(Sem.Exec(s, run), a)
    requires Sem.Step(Sem.Exec(s, run), a).permits < Sem.Exec(s, run).permits
    ensures Sem.Exec(s, run).queue == []
  {
    Sem.NoStranding(s, run);
  }
}
