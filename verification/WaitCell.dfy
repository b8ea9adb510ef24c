/** `WaitCell` of maitake-sync/src/wait_cell.rs as a step machine: any number of threads
    poll, wake and close one cell, one access to the state word or to the waker slot per
    step. */
module WaitCell {
  import opened Wrappers

  type Thread = nat
  type Waker = nat

  /** The four bits of the state word. */
  datatype Word = Word(registering: bool, waking: bool, woken: bool, closed: bool)

  const WAITING := Word(false, false, false, false)
  const REGISTERING := Word(true, false, false, false)

  datatype PollResult = Pending | Ready | Closed | Busy

  datatype Pc =
    | Idle
    | PollCas(w: Waker)                                // before the first compare_exchange
    | PollConsume(w: Waker)                            // saw WOKEN, before `fetch_and(!WOKEN)`
    | PollStore(w: Waker)                              // inside the slot, before storing `w`
    | PollWakeOld(w: Waker, prev: Option<Waker>)        // before waking the replaced waker
    | PollCommit(w: Waker)                             // before the second compare_exchange
    | PollTake(w: Waker)                               // notified, before emptying the slot
    | PollReset(w: Waker, taken: Option<Waker>)        // before `fetch_and(CLOSED)`
    | PollWakeTaken(w: Waker, taken: Option<Waker>, sawClosed: bool)
    | WakeOr(close: bool)                              // before `fetch_or`
    | WakeTake                                         // won WAKING, before emptying the slot
    | WakeRelease(taken: Option<Waker>)                // before `fetch_and(!WAKING)`
    | WakeCall(taken: Option<Waker>)                   // before `waker.wake()`

  datatype State = State(word: Word, slot: Option<Waker>, pcs: map<Thread, Pc>)

  datatype Action = Poll(t: Thread, w: Waker) | Wake(t: Thread) | Close(t: Thread) | Proceed(t: Thread)

  /** What a step does that the outside can see. */
  datatype Event =
    | Silent
    | Returned(w: Waker, result: PollResult)           // a poll with waker `w` returned
    | Notified                                         // a wake or close set its bits
    | Woke(w: Waker)
    | WokeAndReturned(w: Waker, poller: Waker, result: PollResult)

  function At(s: State, t: Thread): Pc {
    if t in s.pcs then s.pcs[t] else Idle
  }

  predicate Initial(s: State) {
    s.word == WAITING && s.slot.None? && s.pcs == map[]
  }

  predicate Enabled(s: State, a: Action) {
    if a.Proceed? then !At(s, a.t).Idle? else At(s, a.t).Idle?
  }

  function Goto(s: State, t: Thread, pc: Pc): State {
    s.(pcs := s.pcs[t := pc])
  }

  function Step(s: State, a: Action): (State, Event)
    requires Enabled(s, a)
  {
    match a
    case Poll(t, w) => (Goto(s, t, PollCas(w)), Silent)
    case Wake(t) => (Goto(s, t, WakeOr(false)), Silent)
    case Close(t) => (Goto(s, t, WakeOr(true)), Silent)
    case Proceed(t) =>
      match At(s, t)
      case PollCas(w) => PollFirst(s, t, w)
      case PollConsume(w) =>
        (Goto(s.(word := s.word.(woken := false)), t, Idle), Returned(w, Ready))
      case PollStore(w) =>
        if s.slot == Some(w) then (Goto(s, t, PollWakeOld(w, None)), Silent)
        else (Goto(s.(slot := Some(w)), t, PollWakeOld(w, s.slot)), Silent)
      case PollWakeOld(w, prev) =>
        (Goto(s, t, PollCommit(w)), if prev.Some? then Woke(prev.value) else Silent)
      case PollCommit(w) =>
        if s.word == REGISTERING then (Goto(s.(word := WAITING), t, Idle), Returned(w, Pending))
        else (Goto(s, t, PollTake(w)), Silent)
      case PollTake(w) => (Goto(s.(slot := None), t, PollReset(w, s.slot)), Silent)
      case PollReset(w, taken) =>
        (Goto(s.(word := WAITING.(closed := s.word.closed)), t, PollWakeTaken(w, taken, s.word.closed)), Silent)
      case PollWakeTaken(w, taken, sawClosed) =>
        var result := if sawClosed then Closed else Ready;
        (Goto(s, t, Idle), if taken.Some? then WokeAndReturned(taken.value, w, result) else Returned(w, result))
      case WakeOr(close) => Notify(s, t, close)
      case WakeTake => (Goto(s.(slot := None), t, WakeRelease(s.slot)), Silent)
      case WakeRelease(taken) => (Goto(s.(word := s.word.(waking := false)), t, WakeCall(taken)), Silent)
      case WakeCall(taken) => (Goto(s, t, Idle), if taken.Some? then Woke(taken.value) else Silent)
  }

  /** The first compare_exchange of `poll_wait` and the ladder of its failures. */
  function PollFirst(s: State, t: Thread, w: Waker): (State, Event) {
    if s.word == WAITING then (Goto(s.(word := REGISTERING), t, PollStore(w)), Silent)
    else if s.word.closed then (Goto(s, t, Idle), Returned(w, Closed))
    else if s.word.woken then (Goto(s, t, PollConsume(w)), Silent)
    else if s.word.waking then (Goto(s, t, Idle), Returned(w, Ready))
    else (Goto(s, t, Idle), Returned(w, Busy))
  }

  /** `fetch_or` of `take_waker`: the caller gets the slot if nobody was in it and the cell
      was not closed. */
  function Notify(s: State, t: Thread, close: bool): (State, Event) {
    var s' := s.(word := s.word.(waking := true, woken := true, closed := s.word.closed || close));
    var won := !s.word.waking && !s.word.registering && !s.word.closed;
    (Goto(s', t, if won then WakeTake else Idle), Notified)
  }

  predicate Runs(s: State, run: seq<Action>)
    decreases |run|
  {
    run == [] || (Enabled(s, run[0]) && Runs(Step(s, run[0]).0, run[1..]))
  }

  function Exec(s: State, run: seq<Action>): State
    requires Runs(s, run)
    decreases |run|
  {
    if run == [] then s else Exec(Step(s, run[0]).0, run[1..])
  }

  // ---- What a run owes to wakers ----

  /** `parked`: wakers whose poll returned `Pending` and that were not woken since. `owed`:
      those parked when a wake or close set its bits. `stored`: a wake or close happened
      and no poll has taken it since. */
  datatype Ledger = Ledger(parked: set<Waker>, owed: set<Waker>, stored: bool)

  const EmptyLedger := Ledger({}, {}, false)

  /** The two places where a poll takes a stored wakeup. */
  predicate TakesWakeup(s: State, a: Action) {
    a.Proceed? && (At(s, a.t).PollConsume? || At(s, a.t).PollReset?)
  }

  function Post(l: Ledger, s: State, a: Action): Ledger
    requires Enabled(s, a)
  {
    var l1 := if TakesWakeup(s, a) then l.(stored := false) else l;
    match Step(s, a).1
    case Silent => l1
    case Returned(w, result) => if result.Pending? then l1.(parked := l1.parked + {w}) else l1
    case Notified => l1.(owed := l1.owed + l1.parked, stored := true)
    case Woke(w) => l1.(parked := l1.parked - {w}, owed := l1.owed - {w})
    case WokeAndReturned(w, _, _) => l1.(parked := l1.parked - {w}, owed := l1.owed - {w})
  }

  function Posted(l: Ledger, s: State, run: seq<Action>): Ledger
    requires Runs(s, run)
    decreases |run|
  {
    if run == [] then l else Posted(Post(l, s, run[0]), Step(s, run[0]).0, run[1..])
  }

  // ---- The invariant ----

  predicate PollerInside(pc: Pc) {
    pc.PollStore? || pc.PollWakeOld? || pc.PollCommit? || pc.PollTake? || pc.PollReset?
  }

  predicate WakerInside(pc: Pc) {
    pc.WakeTake? || pc.WakeRelease?
  }

  predicate Inside(pc: Pc) {
    PollerInside(pc) || WakerInside(pc)
  }

  ghost predicate NobodyInside(s: State) {
    forall t :: !Inside(At(s, t))
  }

  /** The waker a thread is about to wake. */
  function Hand(pc: Pc): Option<Waker> {
    match pc
    case PollWakeOld(_, prev) => prev
    case PollReset(_, taken) => taken
    case PollWakeTaken(_, taken, _) => taken
    case WakeRelease(taken) => taken
    case WakeCall(taken) => taken
    case _ => None
  }

  ghost predicate InHand(s: State, w: Waker) {
    exists t :: Hand(At(s, t)) == Some(w)
  }

  /** Thread `t` is in the slot and cannot leave a waker in it. */
  predicate Empties(s: State, t: Thread) {
    || At(s, t).WakeTake? || At(s, t).PollTake?
    || ((At(s, t).PollStore? || At(s, t).PollWakeOld? || At(s, t).PollCommit?) && (s.word.waking || s.word.closed))
  }

  ghost predicate Doomed(s: State) {
    exists t :: Empties(s, t)
  }

  /** The slot is a critical section guarded by the state word. */
  ghost predicate Exclusive(s: State) {
    && (forall t, u | Inside(At(s, t)) && Inside(At(s, u)) :: t == u)
    && (forall t | PollerInside(At(s, t)) :: s.word.registering)
    && (forall t | WakerInside(At(s, t)) :: s.word.waking && !s.word.registering)
    && (forall t | At(s, t).PollWakeOld? || At(s, t).PollCommit? :: s.slot == Some(At(s, t).w))
    && (forall t | At(s, t).PollReset? || At(s, t).WakeRelease? :: s.slot.None?)
    && (NobodyInside(s) ==> !s.word.registering && (s.slot.Some? ==> s.word == WAITING))
  }

  ghost predicate LedgerOk(s: State, l: Ledger) {
    && (forall w | w in l.parked :: s.slot == Some(w) || InHand(s, w))
    && (forall w | w in l.owed :: InHand(s, w) || (s.slot == Some(w) && Doomed(s)))
    && (l.stored ==> s.word.woken)
  }

  // ---- Every step keeps the invariant ----

  lemma KeepOutside(s: State, a: Action)
    requires Exclusive(s) && Enabled(s, a) && !Inside(At(s, a.t)) && !Inside(At(Step(s, a).0, a.t))
    ensures Exclusive(Step(s, a).0)
  {
    var s' := Step(s, a).0;
    assert forall u | u != a.t :: At(s', u) == At(s, u);
    if NobodyInside(s') { assert forall u :: !Inside(At(s, u)); }
  }

  lemma KeepEnter(s: State, a: Action)
    requires Exclusive(s) && Enabled(s, a) && !Inside(At(s, a.t)) && Inside(At(Step(s, a).0, a.t))
    ensures Exclusive(Step(s, a).0)
  {
    var s' := Step(s, a).0;
    assert forall u | u != a.t :: At(s', u) == At(s, u);
    assert forall u | Inside(At(s, u)) :: s.word.registering || s.word.waking;
    assert NobodyInside(s);
  }

  lemma KeepInside(s: State, a: Action)
    requires Exclusive(s) && Enabled(s, a) && Inside(At(s, a.t))
    ensures Exclusive(Step(s, a).0)
  {
    var s' := Step(s, a).0;
    assert forall u | u != a.t :: At(s', u) == At(s, u) && !Inside(At(s, u));
    assert NobodyInside(s') <==> !Inside(At(s', a.t));
  }

  lemma KeepExclusive(s: State, a: Action)
    requires Exclusive(s) && Enabled(s, a)
    ensures Exclusive(Step(s, a).0)
  {
    if Inside(At(s, a.t)) { KeepInside(s, a); }
    else if Inside(At(Step(s, a).0, a.t)) { KeepEnter(s, a); }
    else { KeepOutside(s, a); }
  }

  predicate Wakes(e: Event, w: Waker) {
    (e.Woke? || e.WokeAndReturned?) && e.w == w
  }

  /** A waker in somebody's hands stays there until it is woken. */
  lemma HandKept(s: State, a: Action, w: Waker)
    requires Enabled(s, a) && InHand(s, w)
    ensures InHand(Step(s, a).0, w) || Wakes(Step(s, a).1, w)
  {
    var t :| Hand(At(s, t)) == Some(w);
    var s' := Step(s, a).0;
    if t != a.t { assert At(s', t) == At(s, t); }
    assert Hand(At(s', t)) == Some(w) || Wakes(Step(s, a).1, w);
  }

  /** A waker leaves the slot only into somebody's hands. */
  lemma SlotKept(s: State, a: Action, w: Waker)
    requires Enabled(s, a) && s.slot == Some(w)
    ensures Step(s, a).0.slot == Some(w) || InHand(Step(s, a).0, w)
  {
    var s' := Step(s, a).0;
    assert s'.slot == Some(w) || Hand(At(s', a.t)) == Some(w);
  }

  lemma DoomedKept(s: State, a: Action)
    requires Exclusive(s) && Enabled(s, a) && Doomed(s) && Step(s, a).0.slot.Some?
    ensures Doomed(Step(s, a).0)
  {
    var t :| Empties(s, t);
    var s' := Step(s, a).0;
    if t != a.t {
      assert At(s', t) == At(s, t);
      assert Inside(At(s, t)) && !Inside(At(s, a.t));
    }
    assert Empties(s', t);
  }

  /** A wake or close that finds a waker in the slot either takes the slot or leaves it to
      somebody who will empty it. */
  lemma NotifyDooms(s: State, t: Thread)
    requires Exclusive(s) && At(s, t).WakeOr? && s.slot.Some?
    ensures Doomed(Step(s, Proceed(t)).0)
  {
    var s' := Step(s, Proceed(t)).0;
    if NobodyInside(s) {
      assert Empties(s', t);
    } else {
      var u :| Inside(At(s, u));
      assert At(s', u) == At(s, u);
      assert Empties(s', u);
    }
  }

  lemma KeepParked(s: State, a: Action, l: Ledger, w: Waker)
    requires Exclusive(s) && LedgerOk(s, l) && Enabled(s, a) && w in Post(l, s, a).parked
    ensures Step(s, a).0.slot == Some(w) || InHand(Step(s, a).0, w)
  {
    if w in l.parked {
      if InHand(s, w) { HandKept(s, a, w); } else { SlotKept(s, a, w); }
    }
  }

  lemma KeepOwed(s: State, a: Action, l: Ledger, w: Waker)
    requires Exclusive(s) && LedgerOk(s, l) && Enabled(s, a) && w in Post(l, s, a).owed
    ensures var s' := Step(s, a).0; InHand(s', w) || (s'.slot == Some(w) && Doomed(s'))
  {
    if InHand(s, w) {
      HandKept(s, a, w);
    } else {
      SlotKept(s, a, w);
      if Step(s, a).0.slot == Some(w) {
        if w in l.owed { DoomedKept(s, a); } else { NotifyDooms(s, a.t); }
      }
    }
  }

  lemma KeepStored(s: State, a: Action, l: Ledger)
    requires Exclusive(s) && LedgerOk(s, l) && Enabled(s, a) && Post(l, s, a).stored
    ensures Step(s, a).0.word.woken
  {
  }

  lemma StepKeeps(s: State, a: Action, l: Ledger)
    requires Exclusive(s) && LedgerOk(s, l) && Enabled(s, a)
    ensures Exclusive(Step(s, a).0) && LedgerOk(Step(s, a).0, Post(l, s, a))
  {
    var s', l' := Step(s, a).0, Post(l, s, a);
    KeepExclusive(s, a);
    forall w | w in l'.parked ensures s'.slot == Some(w) || InHand(s', w) { KeepParked(s, a, l, w); }
    forall w | w in l'.owed ensures InHand(s', w) || (s'.slot == Some(w) && Doomed(s')) { KeepOwed(s, a, l, w); }
    if l'.stored { KeepStored(s, a, l); }
  }

  // ---- Theorems over whole runs ----

  lemma {:induction false} RunKeeps(s: State, run: seq<Action>, l: Ledger)
    requires Exclusive(s) && LedgerOk(s, l) && Runs(s, run)
    ensures Exclusive(Exec(s, run)) && LedgerOk(Exec(s, run), Posted(l, s, run))
    decreases |run|
  {
    if run != [] {
      StepKeeps(s, run[0], l);
      RunKeeps(Step(s, run[0]).0, run[1..], Post(l, s, run[0]));
    }
  }

  lemma Reached(s: State, run: seq<Action>)
    requires Initial(s) && Runs(s, run)
    ensures Exclusive(Exec(s, run)) && LedgerOk(Exec(s, run), Posted(EmptyLedger, s, run))
  {
    assert forall t :: At(s, t) == Idle;
    RunKeeps(s, run, EmptyLedger);
  }

  /** At most one thread is ever in the waker slot. */
  lemma SlotExclusive(s: State, run: seq<Action>, t: Thread, u: Thread)
    requires Initial(s) && Runs(s, run) && Inside(At(Exec(s, run), t)) && Inside(At(Exec(s, run), u))
    ensures t == u
  {
    Reached(s, run);
  }

  /** Every waker whose poll returned `Pending` is in the slot or woken or about to be. */
  lemma ParkedIsKnown(s: State, run: seq<Action>, w: Waker)
    requires Initial(s) && Runs(s, run) && w in Posted(EmptyLedger, s, run).parked
    ensures Exec(s, run).slot == Some(w) || InHand(Exec(s, run), w)
  {
    Reached(s, run);
  }

  /** No wakeup is lost: once every thread has finished its call, every waker that was
      parked when some wake or close set its bits has been woken since. */
  lemma NoLostWakeup(s: State, run: seq<Action>)
    requires Initial(s) && Runs(s, run) && forall t :: At(Exec(s, run), t).Idle?
    ensures Posted(EmptyLedger, s, run).owed == {}
  {
    Reached(s, run);
    var e := Exec(s, run);
    assert forall w: Waker :: !InHand(e, w);
    assert !Doomed(e);
  }

  /** A wakeup that nobody waits for is stored: after a wake or close, no poll returns
      `Pending` before some poll has taken the wakeup. */
  lemma WakeupStored(s: State, run: seq<Action>, a: Action)
    requires Initial(s) && Runs(s, run) && Enabled(Exec(s, run), a)
    requires Posted(EmptyLedger, s, run).stored
    ensures var e := Step(Exec(s, run), a).1; !(e.Returned? && e.result.Pending?)
  {
    Reached(s, run);
  }

  /** `Subscribe::poll` on top of the result of `poll_wait`: a `Wait` that remembers the result,
      or nothing if the cell was busy (second component: the task wakes itself). */
  function SubscribePoll(polled: PollResult): (Option<PollResult>, bool) {
    if polled.Busy? then (None, true) else (Some(polled), false)
  }

  /** `Wait::poll` on top of the result of `poll_wait`: what was found while subscribing wins; a
      busy cell makes the task wake itself (second component) and stay pending. */
  function WaitPoll(presubscribed: PollResult, polled: PollResult): (PollResult, bool) {
    if !presubscribed.Pending? then (presubscribed, false)
    else if polled.Busy? then (Pending, true)
    else (polled, false)
  }

  /** What a poll that is at its first access returns if nobody interrupts it. */
  function PollNow(s: State, t: Thread): Event
    requires At(s, t).PollCas?
  {
    var (s1, e1) := Step(s, Proceed(t));
    if e1.Returned? || !At(s1, t).PollConsume? then e1 else Step(s1, Proceed(t)).1
  }

  /** A wakeup completes a wait. If it came before the subscribing poll and nobody took it since,
      that poll finds it and the `Wait` is complete from the start. If it came after, the next
      poll of the `Wait` finds it, whatever subscribing found. In both cases the cell answers
      `Ready` or `Closed`, never `Busy`. */
  lemma SubscribedWaitCompletes(s: State, run: seq<Action>, t: Thread, earlier: PollResult, later: PollResult)
    requires Initial(s) && Runs(s, run) && At(Exec(s, run), t).PollCas?
    requires Posted(EmptyLedger, s, run).stored
    ensures var now := PollNow(Exec(s, run), t);
            && now.Returned? && (now.result.Ready? || now.result.Closed?)
            && (var subscribed := SubscribePoll(now.result).0;
                subscribed.Some? && WaitPoll(subscribed.value, later) == (now.result, false))
            && (var subscribed := SubscribePoll(earlier).0;
                subscribed.Some? ==>
                  WaitPoll(subscribed.value, now.result) == (if earlier.Pending? then now.result else earlier, false))
  {
    Reached(s, run);
  }

  /** Only a poll that goes on to return `Ready` or `Closed` clears WOKEN. */
  lemma WokenClearedByReady(s: State, a: Action)
    requires Enabled(s, a) && s.word.woken && !Step(s, a).0.word.woken
    requires Exclusive(s)
    ensures TakesWakeup(s, a)
    ensures var (s', e) := Step(s, a);
            || e == Returned(At(s, a.t).w, Ready)
            || (At(s', a.t).PollWakeTaken? &&
                var e' := Step(s', Proceed(a.t)).1;
                (e'.Returned? || e'.WokeAndReturned?) && !e'.result.Pending? && !e'.result.Busy?)
  {
  }

  lemma {:induction false} StaysClosed(s: State, run: seq<Action>)
    requires s.word.closed && Runs(s, run)
    ensures Exec(s, run).word.closed
    decreases |run|
  {
    if run != [] { StaysClosed(Step(s, run[0]).0, run[1..]); }
  }

  /** A poll whose first access comes after a close returns `Closed`, whatever ran since. */
  lemma ClosedForEver(s: State, run: seq<Action>, t: Thread)
    requires s.word.closed && Runs(s, run) && At(Exec(s, run), t).PollCas?
    ensures Step(Exec(s, run), Proceed(t)).1 == Returned(At(Exec(s, run), t).w, Closed)
  {
    StaysClosed(s, run);
  }

  // ---- Calls that run alone ----

  /** A poll of a waiting cell without interruption leaves its waker in the slot and is
      `Pending`; another waker that was there is woken. */
  lemma PollAlone(s: State, t: Thread, w: Waker)
    requires At(s, t).Idle? && s.word == WAITING
    ensures var s1 := Step(s, Poll(t, w)).0;
            var s2 := Step(s1, Proceed(t)).0;
            var s3 := Step(s2, Proceed(t)).0;
            var (s4, e4) := Step(s3, Proceed(t));
            var (s5, e5) := Step(s4, Proceed(t));
            && s5.word == WAITING && s5.slot == Some(w) && At(s5, t).Idle? && e5 == Returned(w, Pending)
            && e4 == (if s.slot.Some? && s.slot != Some(w) then Woke(s.slot.value) else Silent)
  {
  }

  /** A wake of an open cell that nobody is in, without interruption, empties the slot, wakes
      its waker and stores the wakeup. */
  lemma WakeAlone(s: State, t: Thread)
    requires At(s, t).Idle? && !s.word.waking && !s.word.registering && !s.word.closed
    ensures var s1 := Step(s, Wake(t)).0;
            var s2 := Step(s1, Proceed(t)).0;
            var s3 := Step(s2, Proceed(t)).0;
            var s4 := Step(s3, Proceed(t)).0;
            var (s5, e5) := Step(s4, Proceed(t));
            && s5.slot.None? && s5.word == s.word.(woken := true) && At(s5, t).Idle?
            && e5 == (if s.slot.Some? then Woke(s.slot.value) else Silent)
  {
  }
}
