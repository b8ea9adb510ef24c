/** The fair counting semaphore of maitake-sync/src/semaphore.rs as a step machine, for
    runs without `close`. An agent is one caller: an `Acquire` future and the `Permit` it
    becomes, a `try_acquire` call, or an `add_permits` call. One step is one access to
    `permits`, to `remaining_permits`, or to the lock of the waiter queue. */
module Semaphore {
  import opened Sequences
  import opened Wrappers

  const MAX_PERMITS: nat := 0xFFFF_FFFF_FFFF_FFFE

  type Id = nat

  /** What follows `add_permits_locked`: the poll returns `Ready`, or the caller is done. */
  datatype After = ThenReady | ThenDone

  datatype Pc =
    | Fresh                                                 // future not polled, or lost its poll
    | Parked                                                // last poll returned `Pending`
    | Live                                                  // a `Permit` for `requested` permits
    | Done
    | PollLoad(needed: nat)                                 // before `permits.load`
    | PollTry(needed: nat, curr: nat, locked: bool)         // before the lock or the CAS
    | PollLock(acquired: nat)                               // re-poll took all, before the lock
    | PollAdd(acquired: nat)                                // before `remaining_permits.add`
    | TryLoad
    | TryCas(available: nat)
    | DropLock                                              // `drop_acquire`, before the lock
    | AddLock(n: nat)                                       // `add_permits`, before the lock
    | Give(n: nat, batch: seq<Id>, after: After)            // in the loop over one wake batch
    | Flush(n: nat, batch: seq<Id>, after: After)           // queue drained, before `fetch_add`
    | Unlock(n: nat, batch: seq<Id>, drained: bool, after: After)
    | WakeAll(n: nat, batch: seq<Id>, drained: bool, after: After)
    | Relock(n: nat, drained: bool, after: After)
    | Release(after: After)                                 // before the guard is dropped

  /** `requested` is the size of the request, `remaining` the waiter's atomic counter and
      `queued` the flag kept by the `Acquire` future. */
  datatype AgentRecord = Agent(requested: nat, remaining: nat, queued: bool, pc: Pc)
  type Agent = a: AgentRecord | a.remaining <= a.requested witness Agent(0, 0, false, Done)

  /** `queue` lists the waiters oldest first: the source pushes at the front of its list
      and serves the back. `batchCap` is the capacity of a wake batch. */
  datatype StateRecord =
    State(batchCap: nat, permits: nat, holder: Option<Id>, queue: seq<Id>, agents: seq<Agent>)
  type State = s: StateRecord | forall k | 0 <= k < |s.queue| :: s.queue[k] < |s.agents|
    witness State(1, 0, None, [], [])

  datatype Action =
    | Acquire(n: nat)
    | TryAcquire(n: nat)
    | AddPermits(n: nat)
    | Poll(i: Id)
    | Drop(i: Id)
    | Forget(i: Id)
    | Proceed(i: Id)

  predicate Initial(s: State) {
    s.batchCap > 0 && s.holder.None? && s.queue == [] && s.agents == []
  }

  /** Needs the lock next. */
  predicate WantsLock(pc: Pc) {
    || (pc.PollTry? && !pc.locked && pc.needed > pc.curr)
    || pc.PollLock? || pc.DropLock? || pc.AddLock? || pc.Relock?
  }

  predicate Enabled(s: State, a: Action) {
    match a
    case Acquire(_) => true
    case TryAcquire(_) => true
    case AddPermits(_) => true
    case Poll(i) => i < |s.agents| && (s.agents[i].pc.Fresh? || s.agents[i].pc.Parked?)
    case Drop(i) => i < |s.agents| && (s.agents[i].pc.Fresh? || s.agents[i].pc.Parked? || s.agents[i].pc.Live?)
    case Forget(i) => i < |s.agents| && s.agents[i].pc.Live?
    case Proceed(i) =>
      && i < |s.agents|
      && var pc := s.agents[i].pc;
         !pc.Fresh? && !pc.Parked? && !pc.Live? && !pc.Done? && (WantsLock(pc) ==> s.holder.None?)
  }

  function Goto(s: State, i: Id, pc: Pc): State
    requires i < |s.agents|
  {
    s.(agents := s.agents[i := s.agents[i].(pc := pc)])
  }

  function Min(x: nat, y: nat): nat {
    if x < y then x else y
  }

  /** `add_permits_locked(n, waiters)` from its loop condition on, the lock being held. */
  function Loop(n: nat, drained: bool, after: After): Pc {
    if n > 0 && !drained then Give(n, [], after) else Release(after)
  }

  function Step(s: State, a: Action): State
    requires Enabled(s, a)
  {
    match a
    case Acquire(n) => s.(agents := s.agents + [Agent(n, n, false, Fresh)])
    case TryAcquire(n) => s.(agents := s.agents + [Agent(n, n, false, TryLoad)])
    case AddPermits(n) => s.(agents := s.agents + [Agent(0, 0, false, if n == 0 then Done else AddLock(n))])
    case Poll(i) =>
      var me := s.agents[i];
      Goto(s, i, PollLoad(if me.queued then me.remaining else me.requested))
    case Drop(i) =>
      var me := s.agents[i];
      if me.pc.Live? then Goto(s, i, if me.requested == 0 then Done else AddLock(me.requested))
      else Goto(s, i, if me.queued then DropLock else Done)
    case Forget(i) => Goto(s, i, Done)
    case Proceed(i) => if Releasing(s.agents[i].pc) then StepRelease(s, i) else StepAcquire(s, i)
  }

  /** Inside `add_permits` or `add_permits_locked`. */
  predicate Releasing(pc: Pc) {
    pc.AddLock? || pc.Give? || pc.Flush? || pc.Unlock? || pc.WakeAll? || pc.Relock? || pc.Release?
  }

  /** The next access of `poll_acquire`, `try_acquire_inner` or `drop_acquire`. */
  function StepAcquire(s: State, i: Id): State
    requires i < |s.agents|
  {
    match s.agents[i].pc
    case PollLoad(needed) => Goto(s, i, PollTry(needed, s.permits, false))
    case PollTry(needed, curr, locked) => StepTry(s, i, needed, curr, locked)
    case PollLock(acquired) => Goto(s.(holder := Some(i)), i, PollAdd(acquired))
    case PollAdd(acquired) => StepAdd(s, i, acquired)
    case TryLoad => Goto(s, i, TryCas(s.permits))
    case TryCas(available) =>
      if available < s.agents[i].requested then Goto(s, i, Done)
      else if s.permits != available then Goto(s, i, TryCas(s.permits))
      else Goto(s.(permits := available - s.agents[i].requested), i, Live)
    case DropLock => StepDrop(s, i)
    case _ => s
  }

  /** The next access of `add_permits` or `add_permits_locked`. */
  function StepRelease(s: State, i: Id): State
    requires i < |s.agents|
  {
    match s.agents[i].pc
    case AddLock(n) => Goto(s.(holder := Some(i)), i, Loop(n, false, ThenDone))
    case Give(n, batch, after) => StepGive(s, i, n, batch, after)
    case Flush(n, batch, after) => Goto(s.(permits := s.permits + n), i, Unlock(n, batch, true, after))
    case Unlock(n, batch, drained, after) => Goto(s.(holder := None), i, WakeAll(n, batch, drained, after))
    case WakeAll(n, batch, drained, after) => Goto(s, i, Relock(n, drained, after))
    case Relock(n, drained, after) => Goto(s.(holder := Some(i)), i, Loop(n, drained, after))
    case Release(after) => Finished(s.(holder := None), i, after)
    case _ => s
  }

  function Finished(s: State, i: Id, after: After): State
    requires i < |s.agents|
  {
    s.(agents := s.agents[i := s.agents[i].(queued := false, pc := if after.ThenReady? then Live else Done)])
  }

  /** One turn of the loop in `poll_acquire`: take the lock if the request cannot be met,
      else compare and exchange. */
  function StepTry(s: State, i: Id, needed: nat, curr: nat, locked: bool): State
    requires i < |s.agents|
  {
    if needed > curr && !locked then
      Goto(s.(holder := Some(i)), i, PollTry(needed, curr, true))
    else if s.permits != curr then
      Goto(s, i, PollTry(needed, s.permits, locked))
    else if needed > curr then
      Goto(s.(permits := 0), i, PollAdd(curr))
    else if !s.agents[i].queued then
      Finished(s.(permits := curr - needed, holder := if locked then None else s.holder), i, ThenReady)
    else
      Goto(s.(permits := curr - needed), i, if locked then PollAdd(needed) else PollLock(needed))
  }

  /** `remaining_permits.add` at the end of `poll_acquire`, and what follows it. */
  function StepAdd(s: State, i: Id, acquired: nat): State
    requires i < |s.agents|
  {
    var me := s.agents[i];
    var taken := Min(me.remaining, acquired);
    if me.remaining == taken then
      s.(agents := s.agents[i := me.(remaining := 0, pc := Loop(acquired - taken, false, ThenReady))])
    else
      s.(holder := None, queue := if me.queued then s.queue else s.queue + [i],
         agents := s.agents[i := me.(remaining := me.remaining - taken, queued := true, pc := Parked)])
  }

  /** `List::remove`. */
  function Remove(q: seq<Id>, i: Id): (r: seq<Id>)
    ensures forall k | 0 <= k < |r| :: r[k] in q
  {
    if q == [] then [] else (if q[0] == i then [] else [q[0]]) + Remove(q[1..], i)
  }

  function StepDrop(s: State, i: Id): State
    requires i < |s.agents|
  {
    var me := s.agents[i];
    Goto(s.(holder := Some(i), queue := Remove(s.queue, i)), i,
         Loop(me.requested - me.remaining, false, ThenDone))
  }

  /** One waiter of the batch loop in `add_permits_locked`. */
  function StepGive(s: State, i: Id, n: nat, batch: seq<Id>, after: After): State
    requires i < |s.agents|
  {
    if |batch| >= s.batchCap then Goto(s, i, Unlock(n, batch, false, after))
    else if s.queue == [] then
      Goto(s, i, if n > 0 then Flush(n, batch, after) else Unlock(n, batch, true, after))
    else
      var f := s.queue[0];
      var rem := s.agents[f].remaining;
      var taken := Min(rem, n);
      var s1 := s.(agents := s.agents[f := s.agents[f].(remaining := rem - taken)]);
      if rem > taken then Goto(s1, i, Unlock(n - taken, batch, false, after))
      else Goto(s1.(queue := s.queue[1..]), i, Give(n - taken, batch + [f], after))
  }

  predicate Runs(s: State, run: seq<Action>)
    decreases |run|
  {
    run == [] || (Enabled(s, run[0]) && Runs(Step(s, run[0]), run[1..]))
  }

  function Exec(s: State, run: seq<Action>): State
    requires Runs(s, run)
    decreases |run|
  {
    if run == [] then s else Exec(Step(s, run[0]), run[1..])
  }

  // ---- The invariant ----

  predicate HoldsLock(pc: Pc) {
    (pc.PollTry? && pc.locked) || pc.PollAdd? || pc.Give? || pc.Flush? || pc.Unlock? || pc.Release?
  }

  predicate Polling(pc: Pc) {
    pc.PollLoad? || pc.PollTry? || pc.PollLock? || pc.PollAdd?
  }

  /** The future has not completed: its waiter counts what it still needs. */
  predicate Waiting(pc: Pc) {
    pc.Fresh? || pc.Parked? || Polling(pc) || pc.DropLock?
  }

  predicate Locked(s: State) {
    && (forall i | 0 <= i < |s.agents| :: HoldsLock(s.agents[i].pc) <==> s.holder == Some(i))
    && (s.holder.Some? ==> s.holder.value < |s.agents|)
  }

  /** Queued waiters are distinct, still need permits, and only the oldest has some. */
  predicate QueueOk(s: State) {
    && Distinct(s.queue)
    && (forall k | 0 <= k < |s.queue| ::
          var w := s.agents[s.queue[k]]; w.queued && Waiting(w.pc) && w.remaining > 0)
    && (forall k | 0 < k < |s.queue| :: s.agents[s.queue[k]].remaining == s.agents[s.queue[k]].requested)
  }

  predicate AgentOk(s: State, i: Id)
    requires i < |s.agents|
  {
    var a := s.agents[i];
    && (Waiting(a.pc) && !a.queued ==> a.remaining == a.requested)
    && (Waiting(a.pc) && a.queued && a.remaining > 0 ==> i in s.queue)
    && (a.pc.Fresh? ==> !a.queued) && (a.pc.Parked? || a.pc.DropLock? || a.pc.PollLock? ==> a.queued)
    && ((a.pc.PollLoad? || a.pc.PollTry?) && !a.queued ==> a.pc.needed == a.requested)
    && (a.pc.PollLock? || a.pc.PollAdd? ==> a.pc.acquired > 0 ==> i !in s.queue)
    && (a.pc.PollAdd? && !a.queued ==> a.pc.acquired < a.requested && s.permits == 0)
    && (a.pc.PollAdd? && !a.queued && a.pc.acquired > 0 ==> s.queue == [])
    && (a.pc.Flush? ==> s.queue == [])
    && (a.pc.Give? ==> a.pc.n > 0 || a.pc.batch != [])
  }

  /** The law of the semaphore: while anybody waits, no permit is free. */
  predicate NoneFree(s: State) {
    s.queue != [] ==> s.permits == 0
  }

  predicate Inv(s: State) {
    && s.batchCap > 0 && Locked(s) && QueueOk(s) && NoneFree(s)
    && forall i | 0 <= i < |s.agents| :: AgentOk(s, i)
  }

  // ---- Every step keeps the invariant ----

  lemma KeepNew(s: State, a: Action)
    requires Inv(s) && (a.Acquire? || a.TryAcquire? || a.AddPermits?)
    ensures Inv(Step(s, a))
  {
    var s' := Step(s, a);
    forall j | 0 <= j < |s'.agents| ensures AgentOk(s', j) {
      if j < |s.agents| { assert AgentOk(s, j); }
    }
  }

  /** Agent `i` keeps, takes or drops the lock. */
  predicate LockMove(s: State, i: Id, s': State)
    requires i < |s.agents| == |s'.agents|
  {
    var was, now := HoldsLock(s.agents[i].pc), HoldsLock(s'.agents[i].pc);
    || (s'.holder == s.holder && was == now)
    || (s.holder.None? && s'.holder == Some(i) && now)
    || (s.holder == Some(i) && s'.holder.None? && !now)
  }

  /** A step that only moves agent `i`, the lock and the counter. */
  lemma KeepMove(s: State, i: Id, s': State)
    requires Inv(s) && i < |s.agents| == |s'.agents|
    requires s'.batchCap == s.batchCap && s'.queue == s.queue && s'.agents == s.agents[i := s'.agents[i]]
    requires s'.agents[i].remaining == s.agents[i].remaining && s'.agents[i].requested == s.agents[i].requested
    requires i in s.queue ==> s'.agents[i].queued && Waiting(s'.agents[i].pc)
    requires s'.permits <= s.permits || s.holder == Some(i)
    requires LockMove(s, i, s') && NoneFree(s') && AgentOk(s', i)
    ensures Inv(s')
  {
    forall j | 0 <= j < |s'.agents| ensures AgentOk(s', j) {
      assert AgentOk(s, j);
      assert s.agents[j].pc.PollAdd? ==> s.holder == Some(j);
    }
  }

  lemma KeepCall(s: State, a: Action)
    requires Inv(s) && Enabled(s, a) && (a.Poll? || a.Drop? || a.Forget?)
    ensures Inv(Step(s, a))
  {
    assert AgentOk(s, a.i);
    KeepMove(s, a.i, Step(s, a));
  }

  lemma KeepTry(s: State, i: Id)
    requires Inv(s) && Enabled(s, Proceed(i)) && s.agents[i].pc.PollTry?
    ensures Inv(Step(s, Proceed(i)))
  {
    assert AgentOk(s, i);
    KeepMove(s, i, Step(s, Proceed(i)));
  }

  /** A new waiter joins the queue at the end. */
  lemma KeepPush(s: State, i: Id)
    requires Inv(s) && Enabled(s, Proceed(i)) && s.agents[i].pc.PollAdd? && !s.agents[i].queued
    ensures Inv(StepAdd(s, i, s.agents[i].pc.acquired))
  {
    assert AgentOk(s, i) && i !in s.queue;
    var s' := StepAdd(s, i, s.agents[i].pc.acquired);
    assert QueueOk(s') && Locked(s');
    forall j | 0 <= j < |s'.agents| ensures AgentOk(s', j) { assert AgentOk(s, j); }
  }

  lemma KeepAdd(s: State, i: Id)
    requires Inv(s) && Enabled(s, Proceed(i)) && s.agents[i].pc.PollAdd?
    ensures Inv(Step(s, Proceed(i)))
  {
    assert AgentOk(s, i);
    if s.agents[i].queued {
      KeepMove(s, i, Step(s, Proceed(i)));
    } else {
      KeepPush(s, i);
    }
  }

  lemma {:induction false} RemoveMember(q: seq<Id>, i: Id, x: Id)
    ensures x in Remove(q, i) <==> x in q && x != i
  {
    if q != [] { RemoveMember(q[1..], i, x); }
  }

  lemma {:induction false} RemoveKeepsOrder(q: seq<Id>, i: Id)
    requires forall k, l | 0 <= k < l < |q| :: q[k] != q[l]
    ensures forall k, l | 0 <= k < l < |Remove(q, i)| :: Remove(q, i)[k] != Remove(q, i)[l]
    ensures forall k | 0 < k < |Remove(q, i)| :: Remove(q, i)[k] in q[1..]
  {
    if q != [] {
      RemoveKeepsOrder(q[1..], i);
      RemoveMember(q[1..], i, q[0]);
      var r := Remove(q[1..], i);
      assert forall k | 0 <= k < |r| :: r[k] in q[1..];
    }
  }

  lemma DropQueue(s: State, i: Id)
    requires Inv(s) && i < |s.agents|
    ensures QueueOk(s.(queue := Remove(s.queue, i)))
  {
    RemoveKeepsOrder(s.queue, i);
    var q := Remove(s.queue, i);
    assert forall k | 0 < k < |q| :: q[k] in s.queue[1..];
  }

  lemma DropAgents(s: State, i: Id, j: Id)
    requires Inv(s) && Enabled(s, Proceed(i)) && s.agents[i].pc.DropLock? && j < |s.agents|
    ensures AgentOk(StepDrop(s, i), j)
  {
    RemoveMember(s.queue, i, j);
    assert AgentOk(s, j);
  }

  /** Taking `i` out of the queue and marking it no longer waiting. */
  lemma KeepDrop(s: State, i: Id)
    requires Inv(s) && Enabled(s, Proceed(i)) && s.agents[i].pc.DropLock?
    ensures Inv(Step(s, Proceed(i)))
  {
    var s' := StepDrop(s, i);
    DropQueue(s, i);
    RemoveMember(s.queue, i, i);
    assert forall k | 0 <= k < |s'.queue| :: s'.queue[k] != i;
    assert QueueOk(s');
    forall j | 0 <= j < |s'.agents| ensures AgentOk(s', j) { DropAgents(s, i, j); }
    assert Locked(s');
  }

  /** What granting to the oldest waiter does to the queue. */
  lemma GiveQueue(s: State, i: Id)
    requires Inv(s) && Enabled(s, Proceed(i)) && s.agents[i].pc.Give?
    requires |s.agents[i].pc.batch| < s.batchCap && s.queue != []
    ensures QueueOk(Step(s, Proceed(i))) && s.queue[0] != i
  {
    var s' := Step(s, Proceed(i));
    var f := s.queue[0];
    assert f != i;
    assert forall j | 0 <= j < |s.agents| && j != i && j != f :: s'.agents[j] == s.agents[j];
    assert forall k | 0 <= k < |s.queue| :: s.queue[k] != i;
  }

  lemma GiveAgents(s: State, i: Id, j: Id)
    requires Inv(s) && Enabled(s, Proceed(i)) && s.agents[i].pc.Give?
    requires |s.agents[i].pc.batch| < s.batchCap && s.queue != [] && s.queue[0] != i && j < |s.agents|
    ensures AgentOk(Step(s, Proceed(i)), j)
  {
    var f := s.queue[0];
    assert AgentOk(s, j);
    assert f in s.queue;
    assert j in s.queue && j != f ==> j in s.queue[1..];
    if j == f {
      assert s.agents[f].pc.PollAdd? ==> s.holder == Some(f);
    }
  }

  lemma KeepGiveOne(s: State, i: Id)
    requires Inv(s) && Enabled(s, Proceed(i)) && s.agents[i].pc.Give?
    requires |s.agents[i].pc.batch| < s.batchCap && s.queue != []
    ensures Inv(Step(s, Proceed(i)))
  {
    var s' := Step(s, Proceed(i));
    GiveQueue(s, i);
    forall j | 0 <= j < |s'.agents| ensures AgentOk(s', j) { GiveAgents(s, i, j); }
    assert Locked(s');
  }

  lemma KeepGive(s: State, i: Id)
    requires Inv(s) && Enabled(s, Proceed(i)) && s.agents[i].pc.Give?
    ensures Inv(Step(s, Proceed(i)))
  {
    if |s.agents[i].pc.batch| < s.batchCap && s.queue != [] {
      KeepGiveOne(s, i);
    } else {
      assert AgentOk(s, i);
      KeepMove(s, i, Step(s, Proceed(i)));
    }
  }

  lemma KeepAcquire(s: State, i: Id)
    requires Inv(s) && Enabled(s, Proceed(i))
    requires var pc := s.agents[i].pc; pc.PollLoad? || pc.PollLock? || pc.TryLoad? || pc.TryCas?
    ensures Inv(Step(s, Proceed(i)))
  {
    assert AgentOk(s, i);
    KeepMove(s, i, Step(s, Proceed(i)));
  }

  lemma KeepRelease(s: State, i: Id)
    requires Inv(s) && Enabled(s, Proceed(i))
    requires var pc := s.agents[i].pc;
             pc.AddLock? || pc.Flush? || pc.Unlock? || pc.WakeAll? || pc.Relock? || pc.Release?
    ensures Inv(Step(s, Proceed(i)))
  {
    var s' := Step(s, Proceed(i));
    assert AgentOk(s, i);
    assert i !in s.queue;
    KeepMove(s, i, s');
  }

  lemma StepKeeps(s: State, a: Action)
    requires Inv(s) && Enabled(s, a)
    ensures Inv(Step(s, a))
  {
    match a
    case Proceed(i) =>
      var pc := s.agents[i].pc;
      if pc.PollTry? { KeepTry(s, i); }
      else if pc.PollAdd? { KeepAdd(s, i); }
      else if pc.DropLock? { KeepDrop(s, i); }
      else if pc.Give? { KeepGive(s, i); }
      else if pc.PollLoad? || pc.PollLock? || pc.TryLoad? || pc.TryCas? { KeepAcquire(s, i); }
      else { KeepRelease(s, i); }
    case Poll(_) => KeepCall(s, a);
    case Drop(_) => KeepCall(s, a);
    case Forget(_) => KeepCall(s, a);
    case _ => KeepNew(s, a);
  }

  // ---- Conservation of permits ----

  /** The permits an agent has: granted to its waiter, in a live `Permit`, or in the
      hands of a call it is in the middle of. */
  function Share(a: Agent): nat {
    match a.pc
    case PollLock(acquired) => a.requested - a.remaining + acquired
    case PollAdd(acquired) => a.requested - a.remaining + acquired
    case AddLock(n) => n
    case Give(n, _, after) => n + Kept(a, after)
    case Flush(n, _, after) => n + Kept(a, after)
    case Unlock(n, _, drained, after) => (if drained then 0 else n) + Kept(a, after)
    case WakeAll(n, _, drained, after) => (if drained then 0 else n) + Kept(a, after)
    case Relock(n, drained, after) => (if drained then 0 else n) + Kept(a, after)
    case Release(after) => Kept(a, after)
    case Live => a.requested
    case Done => 0
    case TryLoad => 0
    case TryCas(_) => 0
    case _ => a.requested - a.remaining
  }

  function Kept(a: Agent, after: After): nat {
    if after.ThenReady? then a.requested else 0
  }

  function Sum(xs: seq<Agent>): nat {
    if xs == [] then 0 else Share(xs[0]) + Sum(xs[1..])
  }

  lemma {:induction false} SumUpdate(xs: seq<Agent>, i: nat, a: Agent)
    requires i < |xs|
    ensures Sum(xs[i := a]) == Sum(xs) - Share(xs[i]) + Share(a)
  {
    if i == 0 {
      assert xs[i := a][1..] == xs[1..];
    } else {
      assert xs[i := a][1..] == xs[1..][i - 1 := a];
      SumUpdate(xs[1..], i - 1, a);
    }
  }

  lemma {:induction false} SumAppend(xs: seq<Agent>, a: Agent)
    ensures Sum(xs + [a]) == Sum(xs) + Share(a)
  {
    if xs == [] {
    } else {
      assert (xs + [a])[1..] == xs[1..] + [a];
      SumAppend(xs[1..], a);
    }
  }

  lemma {:induction false} SumAtLeast(xs: seq<Agent>, i: nat)
    requires i < |xs|
    ensures Share(xs[i]) <= Sum(xs)
  {
    if i > 0 { SumAtLeast(xs[1..], i - 1); }
  }

  lemma {:induction false} SumAtLeastTwo(xs: seq<Agent>, i: nat, j: nat)
    requires i < j < |xs|
    ensures Share(xs[i]) + Share(xs[j]) <= Sum(xs)
  {
    if i == 0 { SumAtLeast(xs[1..], j - 1); } else { SumAtLeastTwo(xs[1..], i - 1, j - 1); }
  }

  function Total(s: State): nat {
    s.permits + Sum(s.agents)
  }

  /** What a call adds to the semaphore for good: `add_permits` adds, `forget` takes away. */
  function Supplied(s: State, a: Action): int
    requires Enabled(s, a)
  {
    match a
    case AddPermits(n) => n
    case Forget(i) => 0 - s.agents[i].requested
    case _ => 0
  }

  function Supply(s: State, run: seq<Action>): int
    requires Runs(s, run)
    decreases |run|
  {
    if run == [] then 0 else Supplied(s, run[0]) + Supply(Step(s, run[0]), run[1..])
  }

  /** A step that moves permits between the counter and one agent. */
  ghost predicate Balanced(s: State, i: Id, s': State, supplied: int) {
    && i < |s.agents| == |s'.agents| && s'.agents == s.agents[i := s'.agents[i]]
    && s'.permits + Share(s'.agents[i]) == s.permits + Share(s.agents[i]) + supplied
  }

  lemma CallConserves(s: State, a: Action)
    requires Enabled(s, a) && (a.Poll? || a.Drop? || a.Forget?) && AgentOk(s, a.i)
    ensures Balanced(s, a.i, Step(s, a), Supplied(s, a))
  {
  }

  lemma TryConserves(s: State, i: Id)
    requires Enabled(s, Proceed(i)) && AgentOk(s, i) && s.agents[i].pc.PollTry?
    ensures Balanced(s, i, Step(s, Proceed(i)), 0)
  {
  }

  lemma AddConserves(s: State, i: Id)
    requires Enabled(s, Proceed(i)) && AgentOk(s, i) && s.agents[i].pc.PollAdd?
    ensures Balanced(s, i, Step(s, Proceed(i)), 0)
  {
  }

  lemma AcquireConserves(s: State, i: Id)
    requires Enabled(s, Proceed(i)) && AgentOk(s, i)
    requires var pc := s.agents[i].pc; pc.PollLoad? || pc.PollLock? || pc.TryLoad? || pc.TryCas? || pc.DropLock?
    ensures Balanced(s, i, Step(s, Proceed(i)), 0)
  {
  }

  lemma ReleaseConserves(s: State, i: Id)
    requires Enabled(s, Proceed(i)) && AgentOk(s, i)
    requires var pc := s.agents[i].pc;
             pc.AddLock? || pc.Flush? || pc.Unlock? || pc.WakeAll? || pc.Relock? || pc.Release?
    ensures Balanced(s, i, Step(s, Proceed(i)), 0)
  {
  }

  lemma GiveStops(s: State, i: Id)
    requires Enabled(s, Proceed(i)) && s.agents[i].pc.Give?
    requires |s.agents[i].pc.batch| >= s.batchCap || s.queue == []
    ensures Balanced(s, i, Step(s, Proceed(i)), 0)
  {
  }

  /** A grant moves permits from the releasing call to the oldest waiter. */
  lemma GrantConserves(s: State, i: Id, f: Id)
    requires Enabled(s, Proceed(i)) && s.agents[i].pc.Give?
    requires |s.agents[i].pc.batch| < s.batchCap && s.queue != [] && s.queue[0] == f != i
    requires Waiting(s.agents[f].pc)
    ensures var s' := Step(s, Proceed(i));
            && s'.permits == s.permits && s'.agents == s.agents[f := s'.agents[f]][i := s'.agents[i]]
            && Share(s'.agents[i]) + Share(s'.agents[f]) == Share(s.agents[i]) + Share(s.agents[f])
  {
  }

  lemma GiveConserves(s: State, i: Id)
    requires Inv(s) && Enabled(s, Proceed(i)) && s.agents[i].pc.Give?
    ensures Total(Step(s, Proceed(i))) == Total(s)
  {
    var s' := Step(s, Proceed(i));
    if |s.agents[i].pc.batch| < s.batchCap && s.queue != [] {
      GiveQueue(s, i);
      var f := s.queue[0];
      GrantConserves(s, i, f);
      SumUpdate(s.agents, f, s'.agents[f]);
      SumUpdate(s.agents[f := s'.agents[f]], i, s'.agents[i]);
    } else {
      GiveStops(s, i);
      SumUpdate(s.agents, i, s'.agents[i]);
    }
  }

  lemma StepConserves(s: State, a: Action)
    requires Inv(s) && Enabled(s, a)
    ensures Total(Step(s, a)) == Total(s) + Supplied(s, a)
  {
    var s' := Step(s, a);
    if a.Acquire? || a.TryAcquire? || a.AddPermits? {
      SumAppend(s.agents, s'.agents[|s.agents|]);
    } else if a.Proceed? && s.agents[a.i].pc.Give? {
      GiveConserves(s, a.i);
    } else {
      assert AgentOk(s, a.i);
      if !a.Proceed? { CallConserves(s, a); }
      else if s.agents[a.i].pc.PollTry? { TryConserves(s, a.i); }
      else if s.agents[a.i].pc.PollAdd? { AddConserves(s, a.i); }
      else if HoldsLock(s.agents[a.i].pc) || s.agents[a.i].pc.AddLock? || s.agents[a.i].pc.WakeAll? ||
              s.agents[a.i].pc.Relock? { ReleaseConserves(s, a.i); }
      else { AcquireConserves(s, a.i); }
      SumUpdate(s.agents, a.i, s'.agents[a.i]);
    }
  }

  lemma {:induction false} RunConserves(s: State, run: seq<Action>)
    requires Inv(s) && Runs(s, run)
    ensures Inv(Exec(s, run)) && Total(Exec(s, run)) == Total(s) + Supply(s, run)
    decreases |run|
  {
    if run != [] {
      StepKeeps(s, run[0]);
      StepConserves(s, run[0]);
      RunConserves(Step(s, run[0]), run[1..]);
    }
  }

  lemma InitialOk(s: State)
    requires Initial(s)
    ensures Inv(s) && Total(s) == s.permits
  {
  }

  /** Permits are conserved in every run: the counter, the grants of queued or woken
      futures, the live permits and the permits in the hands of calls in progress add up
      to the initial permits plus those added less those forgotten. */
  lemma Conservation(s: State, run: seq<Action>)
    requires Initial(s) && Runs(s, run)
    ensures Total(Exec(s, run)) == s.permits + Supply(s, run)
  {
    InitialOk(s);
    RunConserves(s, run);
  }

  /** While anybody is queued no permit is free, in every run: no waiter is stranded beside
      free permits, and whoever takes a permit from the counter overtakes nobody. */
  lemma NoStranding(s: State, run: seq<Action>)
    requires Initial(s) && Runs(s, run)
    ensures var e := Exec(s, run);
            && (e.queue != [] ==> e.permits == 0)
            && (forall a | Enabled(e, a) && Step(e, a).permits < e.permits :: e.queue == [])
  {
    InitialOk(s);
    RunConserves(s, run);
  }

  /** The overflow assertion after `fetch_add` can only trip if the callers supplied more
      than `MAX_PERMITS`. */
  lemma NoOverflow(s: State, run: seq<Action>, i: Id)
    requires Initial(s) && Runs(s, run)
    requires i < |Exec(s, run).agents| && Exec(s, run).agents[i].pc.Flush?
    ensures Exec(s, run).permits + Exec(s, run).agents[i].pc.n <= s.permits + Supply(s, run)
  {
    InitialOk(s);
    RunConserves(s, run);
    SumAtLeast(Exec(s, run).agents, i);
  }

  // ---- Waiters are served in the order in which they queued ----

  /** What a run did to waiters: the order of the pushes, the order in which releases
      completed them, those dropped while queued, and those woken. */
  datatype History = History(enqueued: seq<Id>, completed: seq<Id>, cancelled: set<Id>, woken: set<Id>)

  function Record(h: History, s: State, a: Action): History
    requires Enabled(s, a)
  {
    if !a.Proceed? then h else
      var i, q' := a.i, Step(s, a).queue;
      match s.agents[i].pc
      case PollAdd(_) => if |q'| > |s.queue| then h.(enqueued := h.enqueued + [i]) else h
      case DropLock => if i in s.queue then h.(cancelled := h.cancelled + {i}) else h
      case Give(_, _, _) => if |q'| < |s.queue| then h.(completed := h.completed + [s.queue[0]]) else h
      case WakeAll(_, batch, _, _) => h.(woken := h.woken + set x | x in batch)
      case _ => h
  }

  function Recorded(h: History, s: State, run: seq<Action>): History
    requires Runs(s, run)
    decreases |run|
  {
    if run == [] then h else Recorded(Record(h, s, run[0]), Step(s, run[0]), run[1..])
  }

  function Without(q: seq<Id>, gone: set<Id>): seq<Id> {
    if q == [] then [] else (if q[0] in gone then [] else [q[0]]) + Without(q[1..], gone)
  }

  function BatchOf(pc: Pc): seq<Id> {
    if pc.Give? || pc.Flush? || pc.Unlock? || pc.WakeAll? then pc.batch else []
  }

  predicate InBatch(s: State, x: Id) {
    exists j :: 0 <= j < |s.agents| && x in BatchOf(s.agents[j].pc)
  }

  /** The pushes without the cancelled ones are the completions followed by the queue. */
  ghost predicate LineOk(s: State, h: History) {
    && Without(h.enqueued, h.cancelled) == h.completed + s.queue
    && Distinct(h.enqueued)
    && (forall i | i in h.cancelled :: i in h.enqueued)
  }

  /** Who has queued never queues again. */
  ghost predicate OnceOk(s: State, h: History) {
    forall i | i in h.enqueued :: i < |s.agents| && !(Waiting(s.agents[i].pc) && !s.agents[i].queued)
  }

  /** Every completed waiter has been woken or is in a batch about to be woken. */
  ghost predicate WakeOk(s: State, h: History) {
    forall i | i in h.completed :: i in h.woken || InBatch(s, i)
  }

  ghost predicate HistoryOk(s: State, h: History) {
    LineOk(s, h) && OnceOk(s, h) && WakeOk(s, h)
  }

  lemma {:induction false} WithoutMember(q: seq<Id>, gone: set<Id>, x: Id)
    ensures x in Without(q, gone) <==> x in q && x !in gone
  {
    if q != [] { WithoutMember(q[1..], gone, x); }
  }

  lemma {:induction false} WithoutPush(q: seq<Id>, gone: set<Id>, i: Id)
    requires i !in gone
    ensures Without(q + [i], gone) == Without(q, gone) + [i]
  {
    if q == [] {
    } else {
      assert (q + [i])[1..] == q[1..] + [i];
      WithoutPush(q[1..], gone, i);
    }
  }

  lemma {:induction false} WithoutOneMore(q: seq<Id>, gone: set<Id>, i: Id)
    ensures Without(q, gone + {i}) == Remove(Without(q, gone), i)
  {
    if q != [] {
      WithoutOneMore(q[1..], gone, i);
      RemoveSplit(if q[0] in gone then [] else [q[0]], Without(q[1..], gone), i);
    }
  }

  lemma {:induction false} RemoveSplit(p: seq<Id>, q: seq<Id>, i: Id)
    ensures Remove(p + q, i) == Remove(p, i) + Remove(q, i)
  {
    if p == [] {
      assert p + q == q;
    } else {
      assert (p + q)[1..] == p[1..] + q;
      RemoveSplit(p[1..], q, i);
    }
  }

  lemma {:induction false} RemoveNothing(q: seq<Id>, i: Id)
    requires i !in q
    ensures Remove(q, i) == q
  {
    if q != [] { RemoveNothing(q[1..], i); }
  }

  /** Filtering keeps the order: what comes first in `q` comes first in the result. */
  lemma {:induction false} WithoutOrdered(q: seq<Id>, gone: set<Id>, x: nat, y: nat) returns (k: nat, l: nat)
    requires x < y < |q| && q[x] !in gone && q[y] !in gone
    ensures k < l < |Without(q, gone)| && Without(q, gone)[k] == q[x] && Without(q, gone)[l] == q[y]
  {
    var shift := if q[0] in gone then 0 else 1;
    if x == 0 {
      assert q[y] == q[1..][y - 1];
      WithoutMember(q[1..], gone, q[y]);
      assert q[y] in Without(q[1..], gone);
      var m :| 0 <= m < |Without(q[1..], gone)| && Without(q[1..], gone)[m] == q[y];
      k, l := 0, m + 1;
    } else {
      k, l := WithoutOrdered(q[1..], gone, x - 1, y - 1);
      k, l := k + shift, l + shift;
    }
  }

  lemma {:induction false} WithoutDistinct(q: seq<Id>, gone: set<Id>)
    requires Distinct(q)
    ensures Distinct(Without(q, gone))
  {
    if q != [] {
      WithoutDistinct(q[1..], gone);
      WithoutMember(q[1..], gone, q[0]);
    }
  }

  lemma BatchKept(s: State, a: Action, x: Id)
    requires Enabled(s, a) && InBatch(s, x)
    ensures InBatch(Step(s, a), x) || (a.Proceed? && s.agents[a.i].pc.WakeAll? && x in s.agents[a.i].pc.batch)
  {
    var j :| 0 <= j < |s.agents| && x in BatchOf(s.agents[j].pc);
    if a.Proceed? && Releasing(s.agents[a.i].pc) {
      BatchKeptByRelease(s, a.i, j, x);
    } else {
      assert Step(s, a).agents[j].pc == s.agents[j].pc;
    }
  }

  lemma BatchKeptByRelease(s: State, i: Id, j: Id, x: Id)
    requires i < |s.agents| && j < |s.agents| && x in BatchOf(s.agents[j].pc)
    ensures x in BatchOf(StepRelease(s, i).agents[j].pc) || (j == i && s.agents[i].pc.WakeAll?)
  {
  }

  lemma QueueUnchanged(s: State, a: Action)
    requires Enabled(s, a)
    requires a.Proceed? ==> var pc := s.agents[a.i].pc; !pc.PollAdd? && !pc.DropLock? && !pc.Give?
    ensures Step(s, a).queue == s.queue
  {
  }

  /** Nobody starts to wait a second time. */
  lemma StaysEnqueued(s: State, a: Action, i: Id)
    requires Inv(s) && Enabled(s, a) && i < |s.agents| && !(Waiting(s.agents[i].pc) && !s.agents[i].queued)
    ensures var x := Step(s, a).agents[i]; !(Waiting(x.pc) && !x.queued)
  {
    assert AgentOk(s, i);
    if a.Proceed? {
      if Releasing(s.agents[a.i].pc) { StaysByRelease(s, a.i, i); } else { StaysByAcquire(s, a.i, i); }
    }
  }

  lemma StaysByRelease(s: State, i: Id, j: Id)
    requires i < |s.agents| && j < |s.agents| && !(Waiting(s.agents[j].pc) && !s.agents[j].queued)
    ensures var x := StepRelease(s, i).agents[j]; !(Waiting(x.pc) && !x.queued)
  {
  }

  lemma StaysByAcquire(s: State, i: Id, j: Id)
    requires i < |s.agents| && j < |s.agents| && !(Waiting(s.agents[j].pc) && !s.agents[j].queued)
    ensures var x := StepAcquire(s, i).agents[j]; !(Waiting(x.pc) && !x.queued)
  {
  }

  lemma DistinctSplit(p: seq<Id>, q: seq<Id>, i: Id)
    requires Distinct(p + q) && i in q
    ensures i !in p
  {
    var k :| 0 <= k < |q| && q[k] == i;
    forall m | 0 <= m < |p| ensures p[m] != i {
      assert (p + q)[m] == p[m] && (p + q)[|p| + k] == i;
    }
  }

  lemma RecordPush(s: State, i: Id, h: History)
    requires Inv(s) && LineOk(s, h) && OnceOk(s, h) && Enabled(s, Proceed(i)) && s.agents[i].pc.PollAdd?
    ensures LineOk(Step(s, Proceed(i)), Record(h, s, Proceed(i)))
  {
    assert AgentOk(s, i);
    if |Step(s, Proceed(i)).queue| > |s.queue| {
      assert i !in h.enqueued;
      WithoutPush(h.enqueued, h.cancelled, i);
      assert h.completed + (s.queue + [i]) == (h.completed + s.queue) + [i];
    }
  }

  lemma CancelLine(pushed: seq<Id>, gone: set<Id>, served: seq<Id>, queue: seq<Id>, i: Id)
    requires Without(pushed, gone) == served + queue && Distinct(pushed) && i in queue
    ensures Without(pushed, gone + {i}) == served + Remove(queue, i) && i in pushed
  {
    assert i in served + queue;
    WithoutMember(pushed, gone, i);
    WithoutDistinct(pushed, gone);
    DistinctSplit(served, queue, i);
    WithoutOneMore(pushed, gone, i);
    RemoveSplit(served, queue, i);
    RemoveNothing(served, i);
  }

  lemma RecordCancel(s: State, i: Id, h: History)
    requires LineOk(s, h) && Enabled(s, Proceed(i)) && s.agents[i].pc.DropLock?
    ensures LineOk(Step(s, Proceed(i)), Record(h, s, Proceed(i)))
  {
    if i in s.queue {
      CancelLine(h.enqueued, h.cancelled, h.completed, s.queue, i);
    } else {
      RemoveNothing(s.queue, i);
    }
  }

  lemma RecordGive(s: State, i: Id, h: History)
    requires LineOk(s, h) && Enabled(s, Proceed(i)) && s.agents[i].pc.Give?
    ensures LineOk(Step(s, Proceed(i)), Record(h, s, Proceed(i)))
  {
    var q' := Step(s, Proceed(i)).queue;
    if |q'| < |s.queue| {
      assert s.queue == [s.queue[0]] + q';
      assert h.completed + ([s.queue[0]] + q') == (h.completed + [s.queue[0]]) + q';
    }
  }

  lemma RecordLine(s: State, a: Action, h: History)
    requires Inv(s) && LineOk(s, h) && OnceOk(s, h) && Enabled(s, a)
    ensures LineOk(Step(s, a), Record(h, s, a))
  {
    if a.Proceed? && s.agents[a.i].pc.PollAdd? { RecordPush(s, a.i, h); }
    else if a.Proceed? && s.agents[a.i].pc.DropLock? { RecordCancel(s, a.i, h); }
    else if a.Proceed? && s.agents[a.i].pc.Give? { RecordGive(s, a.i, h); }
    else { QueueUnchanged(s, a); }
  }

  lemma RecordOnce(s: State, a: Action, h: History)
    requires Inv(s) && OnceOk(s, h) && Enabled(s, a)
    ensures OnceOk(Step(s, a), Record(h, s, a))
  {
    var s' := Step(s, a);
    forall j | j in h.enqueued ensures j < |s'.agents| && !(Waiting(s'.agents[j].pc) && !s'.agents[j].queued) {
      StaysEnqueued(s, a, j);
    }
  }

  lemma RecordWake(s: State, a: Action, h: History)
    requires WakeOk(s, h) && Enabled(s, a)
    ensures WakeOk(Step(s, a), Record(h, s, a))
  {
    var s', h' := Step(s, a), Record(h, s, a);
    forall x | x in h'.completed ensures x in h'.woken || InBatch(s', x) {
      if x in h.completed {
        if x !in h.woken { BatchKept(s, a, x); }
      } else {
        assert x in BatchOf(s'.agents[a.i].pc);
      }
    }
  }

  lemma RecordKeeps(s: State, a: Action, h: History)
    requires Inv(s) && HistoryOk(s, h) && Enabled(s, a)
    ensures HistoryOk(Step(s, a), Record(h, s, a))
  {
    RecordLine(s, a, h);
    RecordOnce(s, a, h);
    RecordWake(s, a, h);
  }

  const NoHistory := History([], [], {}, {})

  lemma {:induction false} RunRecorded(s: State, run: seq<Action>, h: History)
    requires Inv(s) && HistoryOk(s, h) && Runs(s, run)
    ensures HistoryOk(Exec(s, run), Recorded(h, s, run)) && Inv(Exec(s, run))
    decreases |run|
  {
    if run != [] {
      StepKeeps(s, run[0]);
      RecordKeeps(s, run[0], h);
      RunRecorded(Step(s, run[0]), run[1..], Record(h, s, run[0]));
    }
  }

  /** Fairness, for every run: the waiters that were not dropped while queued are served
      in the order in which they queued, those still queued last. */
  lemma ServedInOrder(s: State, run: seq<Action>)
    requires Initial(s) && Runs(s, run)
    ensures LineOk(Exec(s, run), Recorded(NoHistory, s, run))
    ensures WakeOk(Exec(s, run), Recorded(NoHistory, s, run))
  {
    InitialOk(s);
    RunRecorded(s, run, NoHistory);
  }

  lemma LineOrder(pushed: seq<Id>, gone: set<Id>, served: seq<Id>, queue: seq<Id>, x: nat, y: nat)
    returns (k: nat, l: nat)
    requires Without(pushed, gone) == served + queue && Distinct(pushed)
    requires x < y < |pushed| && pushed[x] !in gone && pushed[y] in served
    ensures k < l < |served| && served[k] == pushed[x] && served[l] == pushed[y]
  {
    var line := Without(pushed, gone);
    WithoutDistinct(pushed, gone);
    var m :| 0 <= m < |served| && served[m] == pushed[y];
    assert line[m] == pushed[y];
    WithoutMember(pushed, gone, pushed[y]);
    k, l := WithoutOrdered(pushed, gone, x, y);
    assert l == m;
  }

  /** So nobody is overtaken: if a later waiter was completed, every earlier one that was
      not dropped while queued was completed before it. */
  lemma NoOvertaking(s: State, run: seq<Action>, x: nat, y: nat) returns (k: nat, l: nat)
    requires Initial(s) && Runs(s, run)
    requires var h := Recorded(NoHistory, s, run);
             x < y < |h.enqueued| && h.enqueued[x] !in h.cancelled && h.enqueued[y] in h.completed
    ensures var h := Recorded(NoHistory, s, run);
            k < l < |h.completed| && h.completed[k] == h.enqueued[x] && h.completed[l] == h.enqueued[y]
  {
    var h := Recorded(NoHistory, s, run);
    InitialOk(s);
    RunRecorded(s, run, NoHistory);
    k, l := LineOrder(h.enqueued, h.cancelled, h.completed, Exec(s, run).queue, x, y);
  }

  // ---- A release terminates ----

  /** Bounds the accesses a release still makes; the permits left to hand out dominate. */
  function Left(pc: Pc): nat {
    match pc
    case Give(n, batch, _) => 6 * n + if batch == [] then 0 else 5
    case Flush(_, _, _) => 5
    case Unlock(n, _, drained, _) => (if drained then 0 else 6 * n) + 4
    case WakeAll(n, _, drained, _) => (if drained then 0 else 6 * n) + 3
    case Relock(n, drained, _) => (if drained then 0 else 6 * n) + 2
    case Release(_) => 1
    case _ => 0
  }

  /** Every access of a release in progress, whatever ran in between, brings it closer to
      its end: each round of the loop gives away permits or drains the queue. */
  lemma ReleaseProgress(s: State, i: Id)
    requires Inv(s) && Enabled(s, Proceed(i)) && Left(s.agents[i].pc) > 0
    ensures Left(Step(s, Proceed(i)).agents[i].pc) < Left(s.agents[i].pc)
  {
  }

  lemma GiveOnePermit(s: State, i: Id)
    requires Inv(s) && Enabled(s, Proceed(i)) && s.agents[i].pc.Give? && s.queue != []
    ensures var pc, pc' := s.agents[i].pc, Step(s, Proceed(i)).agents[i].pc;
            |pc.batch| < s.batchCap ==>
              if pc'.Give? then pc'.batch != [] && pc'.n < pc.n else pc'.Unlock? && pc'.n == 0
  {
  }

  // ---- Calls that run alone ----

  /** `try_acquire` without interruption succeeds exactly if the permits are there. */
  lemma TryAlone(s: State, i: Id)
    requires i < |s.agents| && s.agents[i].pc.TryLoad?
    ensures var n, run := s.agents[i].requested, [Proceed(i), Proceed(i)];
            && Runs(s, run)
            && Exec(s, run) == if n <= s.permits then Goto(s.(permits := s.permits - n), i, Live) else Goto(s, i, Done)
  {
    var s1 := Step(s, Proceed(i));
    RunsThen(s, Proceed(i), [Proceed(i)]);
    RunsThen(s1, Proceed(i), []);
  }

  lemma RunsThen(s: State, a: Action, rest: seq<Action>)
    requires Enabled(s, a)
    ensures Runs(s, [a] + rest) <==> Runs(Step(s, a), rest)
    ensures Runs(Step(s, a), rest) ==> Exec(s, [a] + rest) == Exec(Step(s, a), rest)
  {
    assert ([a] + rest)[1..] == rest;
  }

  /** A first poll without interruption is `Ready` exactly if the permits are there; if not it
      takes what there is and queues last for the rest. */
  lemma AcquireAlone(s: State, i: Id)
    requires i < |s.agents| && s.agents[i].pc.Fresh? && !s.agents[i].queued && s.holder.None?
    requires s.agents[i].remaining == s.agents[i].requested
    ensures var me := s.agents[i];
            var s1 := Step(s, Poll(i));
            var s2 := Step(s1, Proceed(i));
            var s3 := Step(s2, Proceed(i));
            if me.requested <= s.permits then
              s3 == s.(permits := s.permits - me.requested, agents := s.agents[i := me.(pc := Live)])
            else
              Step(Step(s3, Proceed(i)), Proceed(i)) ==
              s.(permits := 0, queue := s.queue + [i],
                 agents := s.agents[i := me.(remaining := me.requested - s.permits, queued := true, pc := Parked)])
  {
  }

  /** A re-poll without interruption completes if the waiter got all its permits, and changes
      nothing if not. */
  lemma RepollGranted(s: State, i: Id)
    requires i < |s.agents| && AgentOk(s, i) && s.agents[i].pc.Parked? && s.holder.None? && s.agents[i].remaining == 0
    ensures var s3 := Step(Step(Step(s, Poll(i)), Proceed(i)), Proceed(i));
            Step(Step(Step(s3, Proceed(i)), Proceed(i)), Proceed(i)) ==
            s.(agents := s.agents[i := s.agents[i].(queued := false, pc := Live)])
  {
  }

  lemma RepollWaits(s: State, i: Id)
    requires i < |s.agents| && AgentOk(s, i) && s.agents[i].pc.Parked? && s.holder.None? && s.agents[i].remaining > 0
    requires NoneFree(s)
    ensures var s3 := Step(Step(Step(s, Poll(i)), Proceed(i)), Proceed(i));
            Step(Step(s3, Proceed(i)), Proceed(i)) == s
  {
  }

  // ---- A release that runs alone ----

  /** What each agent still needs. */
  function Needs(s: State): (r: seq<nat>)
    ensures |r| == |s.agents|
  {
    seq(|s.agents|, i requires 0 <= i < |s.agents| => s.agents[i].remaining)
  }

  /** The plain way to hand out `n` permits: oldest waiter first, until either runs out. */
  function Served(needs: seq<nat>, queue: seq<Id>, n: nat): (seq<nat>, seq<Id>, nat)
    requires forall k | 0 <= k < |queue| :: queue[k] < |needs|
    decreases |queue|
  {
    if n == 0 || queue == [] then (needs, queue, n) else
      var f := queue[0];
      if needs[f] > n then (needs[f := needs[f] - n], queue, 0)
      else Served(needs[f := 0], queue[1..], n - needs[f])
  }

  /** What a release still has to hand out. */
  function Owing(pc: Pc): nat {
    match pc
    case Give(n, _, _) => n
    case Flush(n, _, _) => n
    case Unlock(n, _, drained, _) => if drained then 0 else n
    case WakeAll(n, _, drained, _) => if drained then 0 else n
    case Relock(n, drained, _) => if drained then 0 else n
    case _ => 0
  }

  /** Where the plain way would end from here. */
  function Goal(s: State, i: Id): (seq<nat>, seq<Id>, nat)
    requires i < |s.agents|
  {
    var (needs, queue, left) := Served(Needs(s), s.queue, Owing(s.agents[i].pc));
    (needs, queue, s.permits + left)
  }

  /** Agent `i` can go on: it is inside a release and nobody else holds the lock. */
  ghost predicate Alone(s: State, i: Id) {
    && Inv(s) && i < |s.agents| && Left(s.agents[i].pc) > 0
    && (s.agents[i].pc.WakeAll? || s.agents[i].pc.Relock? ==> s.holder.None?)
  }

  lemma GoalOfGive(s: State, i: Id)
    requires Alone(s, i) && s.agents[i].pc.Give?
    ensures Goal(Step(s, Proceed(i)), i) == Goal(s, i)
  {
    var s', pc := Step(s, Proceed(i)), s.agents[i].pc;
    if |pc.batch| < s.batchCap && s.queue != [] {
      GiveQueue(s, i);
      var f := s.queue[0];
      var needs := Needs(s)[f := s'.agents[f].remaining];
      assert Needs(s') == needs;
      if pc.n == 0 {
        assert needs == Needs(s);
      } else if s.agents[f].remaining > pc.n {
        assert Served(Needs(s), s.queue, pc.n) == (needs, s.queue, 0);
      } else {
        assert Served(Needs(s), s.queue, pc.n) == Served(needs, s'.queue, pc.n - s.agents[f].remaining);
      }
    } else {
      assert Needs(s') == Needs(s);
    }
  }

  lemma GoalKept(s: State, i: Id)
    requires Alone(s, i)
    ensures Goal(Step(s, Proceed(i)), i) == Goal(s, i)
  {
    if s.agents[i].pc.Give? {
      GoalOfGive(s, i);
    } else {
      assert AgentOk(s, i);
      assert Needs(Step(s, Proceed(i))) == Needs(s);
    }
  }

  lemma StaysAlone(s: State, i: Id)
    requires Alone(s, i)
    ensures var s' := Step(s, Proceed(i));
            && Inv(s') && Left(s'.agents[i].pc) < Left(s.agents[i].pc)
            && (Left(s'.agents[i].pc) > 0 ==> Alone(s', i))
            && (Left(s'.agents[i].pc) == 0 ==> s'.holder.None? && (s'.agents[i].pc.Done? || s'.agents[i].pc.Live?))
  {
    StepKeeps(s, Proceed(i));
    ReleaseProgress(s, i);
  }

  /** Where a release ends if nobody else moves. */
  ghost function Finish(s: State, i: Id): (e: State)
    requires Alone(s, i)
    decreases Left(s.agents[i].pc)
  {
    StaysAlone(s, i);
    var s' := Step(s, Proceed(i));
    if Left(s'.agents[i].pc) == 0 then s' else Finish(s', i)
  }

  lemma {:induction false} FinishMeetsGoal(s: State, i: Id)
    requires Alone(s, i)
    ensures var e := Finish(s, i);
            i < |e.agents| && e.holder.None? && (Needs(e), e.queue, e.permits) == Goal(s, i)
    decreases Left(s.agents[i].pc)
  {
    StaysAlone(s, i);
    GoalKept(s, i);
    var s' := Step(s, Proceed(i));
    if Left(s'.agents[i].pc) > 0 { FinishMeetsGoal(s', i); }
  }

  /** For every capacity of a wake batch, a release that runs alone leaves what the plain way
      leaves: the oldest waiters completed, the next one partly granted, and the counter raised
      by what nobody was left to take. */
  lemma ReleaseAlone(s: State, i: Id)
    requires Inv(s) && i < |s.agents| && s.agents[i].pc.AddLock? && s.agents[i].pc.n > 0 && s.holder.None?
    ensures var s1 := Step(s, Proceed(i));
            Alone(s1, i) &&
            var e := Finish(s1, i);
            var (needs, queue, left) := Served(Needs(s), s.queue, s.agents[i].pc.n);
            Needs(e) == needs && e.queue == queue && e.permits == s.permits + left && e.holder.None?
  {
    var s1 := Step(s, Proceed(i));
    StepKeeps(s, Proceed(i));
    FinishMeetsGoal(s1, i);
    assert Needs(s1) == Needs(s);
  }
}
