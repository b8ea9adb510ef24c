/** The Vyukov multi-producer, single-consumer queue of cordyceps/src/mpsc_queue.rs,
    as a step machine: one atomic access of one thread per step, any number of
    threads, sequentially consistent memory. */
module MpscQueue {
  import opened Sequences
  import opened Wrappers

  type Node = nat
  type Thread = nat

  /** Where a thread is. A consumer thread holds `has_consumer` from `Holding` on,
      and `Dq...` are the points between the accesses of `try_dequeue_unchecked`. */
  datatype Pc =
    | Idle
    | EnqNull(n: Node)                        // before `next.store(null)`
    | EnqSwap(n: Node)                        // before `head.swap`
    | EnqLink(n: Node, prev: Node)            // before `prev.next.store(n)`
    | Holding
    | DqNext(t: Node)                         // stub skipped, before loading `t.next`
    | DqHead(t: Node)                         // before `head.load`
    | DqStubNull(t: Node)                     // before the three accesses of
    | DqStubSwap(t: Node)                     //   `enqueue_inner(stub)`
    | DqStubLink(t: Node, prev: Node)
    | DqReload(t: Node)                       // before the second load of `t.next`

  /** `next` maps a node to its successor; a node outside its domain has a null link.
      `callers` are the handles owned by code outside the queue. */
  datatype State = State(
    stub: Node, head: Node, tail: Node, next: map<Node, Node>,
    hasConsumer: bool, callers: set<Node>, pcs: map<Thread, Pc>)

  datatype Action =
    | Enqueue(t: Thread, n: Node)             // call `enqueue(n)`
    | Lock(t: Thread)                         // one compare_exchange on `has_consumer`
    | Unlock(t: Thread)                       // drop the consumer
    | Dequeue(t: Thread)                      // first access of `try_dequeue_unchecked`
    | Proceed(t: Thread)                      // the next access of the call `t` is in

  datatype Event =
    | Silent
    | Swapped(n: Node)                        // an element became the head
    | Returned(n: Node)                       // `Ok(handle)`
    | Empty
    | Inconsistent
    | Busy

  function At(s: State, t: Thread): Pc {
    if t in s.pcs then s.pcs[t] else Idle
  }

  predicate Initial(s: State) {
    && s.head == s.tail == s.stub && s.next == map[] && !s.hasConsumer
    && s.stub !in s.callers && s.pcs == map[]
  }

  predicate Enabled(s: State, a: Action) {
    match a
    case Enqueue(t, n) => At(s, t).Idle? && n in s.callers
    case Lock(t) => At(s, t).Idle?
    case Unlock(t) => At(s, t).Holding?
    case Dequeue(t) => At(s, t).Holding?
    case Proceed(t) => !At(s, t).Idle? && !At(s, t).Holding?
  }

  function Goto(s: State, t: Thread, pc: Pc): State {
    s.(pcs := s.pcs[t := pc])
  }

  /** `*tail = next; return Ok(tail_node)`, which hands the node back to a caller. */
  function TakeTail(s: State, t: Thread, node: Node): (State, Event)
    requires node in s.next
  {
    (Goto(s.(tail := s.next[node], callers := s.callers + {node}), t, Holding), Returned(node))
  }

  function Step(s: State, a: Action): (State, Event)
    requires Enabled(s, a)
  {
    match a
    case Enqueue(t, n) => (Goto(s.(callers := s.callers - {n}), t, EnqNull(n)), Silent)
    case Lock(t) =>
      if s.hasConsumer then (s, Busy) else (Goto(s.(hasConsumer := true), t, Holding), Silent)
    case Unlock(t) => (Goto(s.(hasConsumer := false), t, Idle), Silent)
    case Dequeue(t) => DequeueFirst(s, t)
    case Proceed(t) =>
      match At(s, t)
      case EnqNull(n) => (Goto(s.(next := s.next - {n}), t, EnqSwap(n)), Silent)
      case EnqSwap(n) => (Goto(s.(head := n), t, EnqLink(n, s.head)), Swapped(n))
      case EnqLink(n, prev) => (Goto(s.(next := s.next[prev := n]), t, Idle), Silent)
      case DqNext(node) =>
        if node in s.next then TakeTail(s, t, node) else (Goto(s, t, DqHead(node)), Silent)
      case DqHead(node) =>
        if s.head != node then (Goto(s, t, Holding), Inconsistent)
        else (Goto(s, t, DqStubNull(node)), Silent)
      case DqStubNull(node) => (Goto(s.(next := s.next - {s.stub}), t, DqStubSwap(node)), Silent)
      case DqStubSwap(node) => (Goto(s.(head := s.stub), t, DqStubLink(node, s.head)), Silent)
      case DqStubLink(node, prev) => (Goto(s.(next := s.next[prev := s.stub]), t, DqReload(node)), Silent)
      case DqReload(node) =>
        if node in s.next then TakeTail(s, t, node) else (Goto(s, t, Holding), Empty)
  }

  function DequeueFirst(s: State, t: Thread): (State, Event) {
    if s.tail == s.stub then
      if s.stub !in s.next then (s, Empty)
      else (Goto(s.(tail := s.next[s.stub]), t, DqNext(s.next[s.stub])), Silent)
    else if s.tail in s.next then TakeTail(s, t, s.tail)
    else (Goto(s, t, DqHead(s.tail)), Silent)
  }

  predicate Runs(s: State, run: seq<Action>)
    decreases |run|
  {
    run == [] || (Enabled(s, run[0]) && Runs(Step(s, run[0]).0, run[1..]))
  }

  function Exec(s: State, run: seq<Action>): State
    requires Runs(s, run)
    decreases |run|
  {
    if run == [] then s else Exec(Step(s, run[0]).0, run[1..])
  }

  function SwappedBy(e: Event): seq<Node> {
    if e.Swapped? then [e.n] else []
  }

  function ReturnedBy(e: Event): seq<Node> {
    if e.Returned? then [e.n] else []
  }

  /** The handles in the order in which their enqueues swapped `head`. */
  function Swaps(s: State, run: seq<Action>): seq<Node>
    requires Runs(s, run)
    decreases |run|
  {
    if run == [] then [] else
      var (s', e) := Step(s, run[0]);
      SwappedBy(e) + Swaps(s', run[1..])
  }

  /** The handles in the order in which dequeues returned them. */
  function Returns(s: State, run: seq<Action>): seq<Node>
    requires Runs(s, run)
    decreases |run|
  {
    if run == [] then [] else
      var (s', e) := Step(s, run[0]);
      ReturnedBy(e) + Returns(s', run[1..])
  }

  // ---- The invariant ----

  predicate Adjacent(c: seq<Node>, p: Node, n: Node) {
    exists i :: 0 <= i < |c| - 1 && c[i] == p && c[i + 1] == n
  }

  /** A thread between its swap of `head` and its store of `p.next = n`. */
  predicate Pending(s: State, t: Thread, p: Node, n: Node) {
    At(s, t) == EnqLink(n, p) || (At(s, t).DqStubLink? && At(s, t).prev == p && n == s.stub)
  }

  ghost predicate SomePending(s: State, p: Node, n: Node) {
    exists t :: Pending(s, t, p, n)
  }

  /** The node a thread is enqueueing. */
  function Carried(s: State, t: Thread): Option<Node> {
    match At(s, t)
    case EnqNull(n) => Some(n)
    case EnqSwap(n) => Some(n)
    case EnqLink(n, _) => Some(n)
    case DqStubNull(_) => Some(s.stub)
    case DqStubSwap(_) => Some(s.stub)
    case DqStubLink(_, _) => Some(s.stub)
    case _ => None
  }

  predicate IsConsumer(pc: Pc) {
    !pc.Idle? && !pc.EnqNull? && !pc.EnqSwap? && !pc.EnqLink?
  }

  /** `c` spells the nodes from `tail` to `head`; links that are not null are right. */
  predicate Chained(s: State, c: seq<Node>) {
    && |c| > 0 && c[0] == s.tail && c[|c| - 1] == s.head && c[|c| - 1] !in s.next
    && Distinct(c)
    && forall i | 0 <= i < |c| - 1 :: c[i] in s.next ==> s.next[c[i]] == c[i + 1]
  }

  /** Every null link inside the chain belongs to a half-finished enqueue, every
      half-finished enqueue to a null link, and no two threads enqueue one node. */
  ghost predicate LinksOwned(s: State, c: seq<Node>) {
    && (forall i | 0 <= i < |c| - 1 :: c[i] !in s.next ==> SomePending(s, c[i], c[i + 1]))
    && (forall t, p, n | Pending(s, t, p, n) :: p !in s.next && Adjacent(c, p, n))
    && (forall t, u | t != u && Carried(s, t).Some? :: Carried(s, t) != Carried(s, u))
  }

  ghost predicate NodesOwned(s: State, c: seq<Node>) {
    && s.stub !in s.callers
    && (forall n | n in c :: n !in s.callers)
    && (forall t | Carried(s, t).Some? :: Carried(s, t).value !in s.callers)
    && (forall t | At(s, t).EnqNull? || At(s, t).EnqSwap? || At(s, t).EnqLink? :: At(s, t).n != s.stub)
    && (forall t | At(s, t).EnqNull? || At(s, t).EnqSwap? :: At(s, t).n !in c)
    && (forall t | At(s, t).EnqSwap? :: At(s, t).n !in s.next)
  }

  ghost predicate OneConsumer(s: State) {
    && (forall t | IsConsumer(At(s, t)) :: s.hasConsumer)
    && (forall t, u | IsConsumer(At(s, t)) && IsConsumer(At(s, u)) :: t == u)
  }

  ghost predicate ConsumerAt(s: State, c: seq<Node>) {
    forall t | IsConsumer(At(s, t)) && !At(s, t).Holding? ::
      && At(s, t).t == s.tail != s.stub
      && (At(s, t).DqStubNull? || At(s, t).DqStubSwap? ==> s.stub !in c)
      && (At(s, t).DqStubSwap? ==> s.stub !in s.next)
      && (At(s, t).DqStubLink? || At(s, t).DqReload? ==> s.stub in c)
  }

  ghost predicate Inv(s: State, c: seq<Node>) {
    Chained(s, c) && LinksOwned(s, c) && NodesOwned(s, c) && OneConsumer(s) && ConsumerAt(s, c)
  }

  /** The chain without the stub: the elements in the queue, oldest first. */
  function Elements(stub: Node, c: seq<Node>): seq<Node> {
    if c == [] then [] else (if c[0] == stub then [] else [c[0]]) + Elements(stub, c[1..])
  }

  lemma {:induction false} ElementsAppend(stub: Node, c: seq<Node>, n: Node)
    ensures Elements(stub, c + [n]) == Elements(stub, c) + (if n == stub then [] else [n])
  {
    if c == [] {
      assert c + [n] == [n] && Elements(stub, [n][1..]) == [];
    } else {
      var d, first := c + [n], if c[0] == stub then [] else [c[0]];
      assert d[0] == c[0] && d[1..] == c[1..] + [n];
      ElementsAppend(stub, c[1..], n);
      assert Elements(stub, d) == first + Elements(stub, d[1..]);
    }
  }

  // ---- Every step keeps the invariant ----

  /** Nothing but the program counter of `t` matters to the link part of the invariant. */
  lemma SamePending(s: State, s': State)
    requires forall t, p, n :: Pending(s, t, p, n) <==> Pending(s', t, p, n)
    ensures forall p, n :: SomePending(s, p, n) <==> SomePending(s', p, n)
  {
  }

  lemma KeepEnqueue(s: State, c: seq<Node>, t: Thread, n: Node)
    requires Inv(s, c) && Enabled(s, Enqueue(t, n))
    ensures Inv(Step(s, Enqueue(t, n)).0, c)
  {
    var s' := Step(s, Enqueue(t, n)).0;
    assert forall u :: At(s', u) == if u == t then EnqNull(n) else At(s, u);
    assert forall u :: Carried(s', u) == if u == t then Some(n) else Carried(s, u);
    SamePending(s, s');
  }

  lemma KeepLock(s: State, c: seq<Node>, t: Thread)
    requires Inv(s, c) && Enabled(s, Lock(t))
    ensures Inv(Step(s, Lock(t)).0, c)
  {
    var s' := Step(s, Lock(t)).0;
    if s' != s {
      assert forall u :: At(s', u) == if u == t then Holding else At(s, u);
      assert forall u :: Carried(s', u) == Carried(s, u);
      SamePending(s, s');
    }
  }

  lemma KeepUnlock(s: State, c: seq<Node>, t: Thread)
    requires Inv(s, c) && Enabled(s, Unlock(t))
    ensures Inv(Step(s, Unlock(t)).0, c)
  {
    var s' := Step(s, Unlock(t)).0;
    assert forall u :: At(s', u) == if u == t then Idle else At(s, u);
    assert forall u :: Carried(s', u) == Carried(s, u);
    SamePending(s, s');
  }

  /** Storing null into the link of a node about to be enqueued. */
  lemma KeepNull(s: State, c: seq<Node>, t: Thread)
    requires Inv(s, c) && (At(s, t).EnqNull? || At(s, t).DqStubNull?)
    ensures Inv(Step(s, Proceed(t)).0, c)
  {
    var s' := Step(s, Proceed(t)).0;
    assert forall u | u != t :: At(s', u) == At(s, u);
    assert forall u :: Carried(s', u) == Carried(s, u);
    SamePending(s, s');
  }

  lemma SwapLinksOwned(s: State, c: seq<Node>, t: Thread, n: Node, s': State)
    requires Inv(s, c) && s'.next == s.next
    requires forall u :: Carried(s', u) == Carried(s, u)
    requires forall u, p, m :: Pending(s', u, p, m) <==> Pending(s, u, p, m) || (u == t && p == s.head && m == n)
    ensures LinksOwned(s', c + [n])
  {
    var c' := c + [n];
    assert c'[|c| - 1] == s.head && c'[|c|] == n;
    forall u, p, m | Pending(s', u, p, m) ensures p !in s'.next && Adjacent(c', p, m) {
      if Pending(s, u, p, m) {
        var i :| 0 <= i < |c| - 1 && c[i] == p && c[i + 1] == m;
        assert c'[i] == p && c'[i + 1] == m;
      }
    }
    forall i | 0 <= i < |c'| - 1 && c'[i] !in s'.next ensures SomePending(s', c'[i], c'[i + 1]) {
      if i < |c| - 1 {
        assert SomePending(s, c[i], c[i + 1]);
        var u :| Pending(s, u, c[i], c[i + 1]);
        assert Pending(s', u, c[i], c[i + 1]);
      } else {
        assert Pending(s', t, s.head, n);
      }
    }
  }

  /** The swap of `head`: the chain grows by the node carried. */
  lemma KeepSwap(s: State, c: seq<Node>, t: Thread, n: Node)
    requires Inv(s, c) && Carried(s, t) == Some(n) && (At(s, t).EnqSwap? || At(s, t).DqStubSwap?)
    ensures Inv(Step(s, Proceed(t)).0, c + [n])
  {
    var s', c' := Step(s, Proceed(t)).0, c + [n];
    assert forall u | u != t :: At(s', u) == At(s, u);
    assert n !in c && n !in s.next;
    SwapLinksOwned(s, c, t, n, s');
    assert forall m | m in c' :: m in c || m == n;
    forall u | At(s', u).EnqNull? || At(s', u).EnqSwap? ensures At(s', u).n !in c' {
      assert Carried(s, u) == Some(At(s, u).n);
    }
  }

  /** Two half-finished enqueues never store into the same link. */
  lemma PendingUnique(s: State, c: seq<Node>, t: Thread, u: Thread, p: Node, n: Node, m: Node)
    requires Inv(s, c) && Pending(s, t, p, n) && Pending(s, u, p, m)
    ensures t == u && n == m
  {
    assert Adjacent(c, p, n) && Adjacent(c, p, m);
    assert n == m;
    assert Carried(s, t) == Some(n) && Carried(s, u) == Some(m);
  }

  lemma KeepLinksOwned(s: State, c: seq<Node>, t: Thread, p: Node, n: Node, s': State)
    requires Inv(s, c) && Pending(s, t, p, n) && s'.next == s.next[p := n]
    requires forall u, q, m :: Pending(s', u, q, m) <==> u != t && Pending(s, u, q, m)
    requires forall u | u != t :: Carried(s', u) == Carried(s, u)
    requires Carried(s', t).None?
    ensures LinksOwned(s', c)
  {
    forall u, q, m | Pending(s', u, q, m) ensures q !in s'.next && Adjacent(c, q, m) {
      assert Pending(s, u, q, m);
      if q == p { PendingUnique(s, c, t, u, p, n, m); }
    }
    forall i | 0 <= i < |c| - 1 && c[i] !in s'.next ensures SomePending(s', c[i], c[i + 1]) {
      assert SomePending(s, c[i], c[i + 1]);
      var u :| Pending(s, u, c[i], c[i + 1]);
      assert Pending(s', u, c[i], c[i + 1]);
    }
  }

  /** The store of `prev.next`: the link becomes right, the thread leaves the chain. */
  lemma KeepLink(s: State, c: seq<Node>, t: Thread, p: Node, n: Node)
    requires Inv(s, c) && Pending(s, t, p, n)
    ensures Inv(Step(s, Proceed(t)).0, c)
  {
    var s' := Step(s, Proceed(t)).0;
    assert forall u | u != t :: At(s', u) == At(s, u);
    KeepLinksOwned(s, c, t, p, n, s');
    KeepChained(s, c, t, p, n, s');
    assert NodesOwned(s', c);
  }

  lemma KeepChained(s: State, c: seq<Node>, t: Thread, p: Node, n: Node, s': State)
    requires Inv(s, c) && Pending(s, t, p, n)
    requires s'.next == s.next[p := n] && s'.head == s.head && s'.tail == s.tail && s'.stub == s.stub
    ensures Chained(s', c)
  {
    assert Adjacent(c, p, n);
    var k :| 0 <= k < |c| - 1 && c[k] == p && c[k + 1] == n;
  }

  /** A load that only moves the consumer on. */
  lemma KeepMove(s: State, c: seq<Node>, t: Thread, pc: Pc)
    requires Inv(s, c) && IsConsumer(At(s, t)) && Carried(s, t).None?
    requires pc.Holding? || ((pc.DqHead? || pc.DqStubNull?) && pc.t == s.tail != s.stub)
    requires pc.DqStubNull? ==> s.head == pc.t
    ensures Inv(Goto(s, t, pc), c)
  {
    var s' := Goto(s, t, pc);
    assert forall u :: At(s', u) == if u == t then pc else At(s, u);
    assert forall u :: Carried(s', u) == if u == t && pc.DqStubNull? then Some(s.stub) else Carried(s, u);
    SamePending(s, s');
    assert pc.DqStubNull? ==> |c| == 1;
    assert forall u | u != t && Carried(s, u).Some? :: Carried(s, u).value != s.stub;
  }

  /** `*tail = next`: the oldest node leaves the chain, to a caller unless it is the stub. */
  lemma KeepAdvance(s: State, c: seq<Node>, t: Thread, s': State, pc: Pc)
    requires Inv(s, c) && IsConsumer(At(s, t)) && Carried(s, t).None? && s.tail in s.next
    requires pc == if s.tail == s.stub then DqNext(s.next[s.stub]) else Holding
    requires s' == Goto(s.(tail := s.next[s.tail],
                           callers := if s.tail == s.stub then s.callers else s.callers + {s.tail}), t, pc)
    ensures |c| > 1 && Inv(s', c[1..])
  {
    var c' := c[1..];
    assert |c| > 1;
    assert forall u :: At(s', u) == if u == t then pc else At(s, u);
    assert forall u :: Carried(s', u) == Carried(s, u);
    SamePending(s, s');
    assert forall i | 0 <= i < |c'| :: c'[i] == c[i + 1];
    assert forall m | m in c' :: m in c && m != s.tail;
    forall u, p, m | Pending(s', u, p, m) ensures p !in s'.next && Adjacent(c', p, m) && m != s.tail {
      assert Pending(s, u, p, m);
      var i :| 0 <= i < |c| - 1 && c[i] == p && c[i + 1] == m;
      assert c'[i - 1] == p && c'[i] == m;
    }
    forall u | Carried(s', u).Some? ensures Carried(s', u).value !in s'.callers {
      if At(s', u).EnqLink? { assert Pending(s', u, At(s', u).prev, At(s', u).n); }
    }
    forall i | 0 <= i < |c'| - 1 && c'[i] !in s'.next ensures SomePending(s', c'[i], c'[i + 1]) {
      assert c[i + 1] !in s.next;
      assert SomePending(s, c[i + 1], c[i + 2]);
    }
  }

  /** How a step with event `e` turns the queue `q` into `q'`. */
  predicate Queued(q: seq<Node>, e: Event, q': seq<Node>) {
    q + SwappedBy(e) == ReturnedBy(e) + q'
  }

  lemma QueuedMeans(q: seq<Node>, e: Event, q': seq<Node>)
    requires Queued(q, e, q')
    ensures match e
            case Swapped(n) => q' == q + [n]
            case Returned(n) => q == [n] + q'
            case _ => q' == q
  {
    assert q + [] == q && [] + q' == q';
  }

  lemma QueuedThen(q: seq<Node>, e: Event, q1: seq<Node>, swaps: seq<Node>, rets: seq<Node>, q2: seq<Node>)
    requires Queued(q, e, q1) && q1 + swaps == rets + q2
    ensures q + (SwappedBy(e) + swaps) == (ReturnedBy(e) + rets) + q2
  {
    calc {
      q + (SwappedBy(e) + swaps);
      (q + SwappedBy(e)) + swaps;
      (ReturnedBy(e) + q1) + swaps;
      ReturnedBy(e) + (q1 + swaps);
      (ReturnedBy(e) + rets) + q2;
    }
  }

  /** One step of any thread: the chain and what it does to the elements in the queue. */
  lemma StepKeeps(s: State, a: Action, c: seq<Node>) returns (c': seq<Node>)
    requires Inv(s, c) && Enabled(s, a)
    ensures Inv(Step(s, a).0, c') && Step(s, a).0.stub == s.stub
    ensures Queued(Elements(s.stub, c), Step(s, a).1, Elements(s.stub, c'))
  {
    c' := c;
    match a
    case Enqueue(t, n) => KeepEnqueue(s, c, t, n);
    case Lock(t) => KeepLock(s, c, t);
    case Unlock(t) => KeepUnlock(s, c, t);
    case Dequeue(t) => c' := DequeueFirstKeeps(s, t, c);
    case Proceed(t) => c' := ProceedKeeps(s, t, c);
  }

  lemma DequeueFirstKeeps(s: State, t: Thread, c: seq<Node>) returns (c': seq<Node>)
    requires Inv(s, c) && At(s, t).Holding?
    ensures Inv(DequeueFirst(s, t).0, c') && c' == if s.tail in s.next then c[1..] else c
    ensures Queued(Elements(s.stub, c), DequeueFirst(s, t).1, Elements(s.stub, c'))
  {
    c' := c;
    var s' := DequeueFirst(s, t).0;
    if s.tail in s.next {
      KeepAdvance(s, c, t, s', if s.tail == s.stub then DqNext(s.next[s.stub]) else Holding);
      c' := c[1..];
    } else if s.tail != s.stub {
      KeepMove(s, c, t, DqHead(s.tail));
    }
  }

  lemma ProceedKeeps(s: State, t: Thread, c: seq<Node>) returns (c': seq<Node>)
    requires Inv(s, c) && Enabled(s, Proceed(t))
    ensures Inv(Step(s, Proceed(t)).0, c')
    ensures Queued(Elements(s.stub, c), Step(s, Proceed(t)).1, Elements(s.stub, c'))
  {
    c' := c;
    var s' := Step(s, Proceed(t)).0;
    var pc := At(s, t);
    match pc
    case EnqNull(n) => KeepNull(s, c, t);
    case EnqSwap(n) => KeepSwap(s, c, t, n); ElementsAppend(s.stub, c, n); c' := c + [n];
    case EnqLink(n, prev) => KeepLink(s, c, t, prev, n);
    case DqHead(node) => KeepMove(s, c, t, if s.head != node then Holding else DqStubNull(node));
    case DqStubNull(node) => KeepNull(s, c, t);
    case DqStubSwap(node) => KeepSwap(s, c, t, s.stub); ElementsAppend(s.stub, c, s.stub); c' := c + [s.stub];
    case DqStubLink(node, prev) => KeepLink(s, c, t, prev, s.stub);
    case DqNext(node) =>
      if node in s.next { KeepAdvance(s, c, t, s', Holding); c' := c[1..]; }
      else { KeepMove(s, c, t, DqHead(node)); }
    case DqReload(node) =>
      if node in s.next { KeepAdvance(s, c, t, s', Holding); c' := c[1..]; }
      else { KeepMove(s, c, t, Holding); }
    case Idle =>
    case Holding =>
  }

  // ---- Theorems over whole runs ----

  lemma {:induction false} RunKeeps(s: State, run: seq<Action>, c: seq<Node>) returns (c': seq<Node>)
    requires Inv(s, c) && Runs(s, run)
    ensures Inv(Exec(s, run), c') && Exec(s, run).stub == s.stub
    ensures Elements(s.stub, c) + Swaps(s, run) == Returns(s, run) + Elements(s.stub, c')
    decreases |run|
  {
    if run == [] {
      c' := c;
    } else {
      var c1 := StepKeeps(s, run[0], c);
      var (s1, e) := Step(s, run[0]);
      c' := RunKeeps(s1, run[1..], c1);
      QueuedThen(Elements(s.stub, c), e, Elements(s.stub, c1), Swaps(s1, run[1..]), Returns(s1, run[1..]),
                 Elements(s.stub, c'));
    }
  }

  /** In every interleaving of producers and consumers, the handles returned so far,
      followed by the elements still chained from `tail` to `head`, are exactly the
      handles swapped in, in that order: nothing lost, doubled or reordered. */
  lemma Fifo(s: State, run: seq<Action>) returns (c: seq<Node>)
    requires Initial(s) && Runs(s, run)
    ensures Inv(Exec(s, run), c) && Exec(s, run).stub == s.stub
    ensures Swaps(s, run) == Returns(s, run) + Elements(s.stub, c)
    ensures Returns(s, run) <= Swaps(s, run)
  {
    assert forall t :: At(s, t) == Idle;
    assert Inv(s, [s.stub]);
    c := RunKeeps(s, run, [s.stub]);
    assert Elements(s.stub, [s.stub]) == [];
  }

  /** No store of a link ever goes to a node that a caller owns, and every store that
      is pending has the link it will write to itself. */
  lemma NoStrayStore(s: State, run: seq<Action>, t: Thread, p: Node, n: Node)
    requires Initial(s) && Runs(s, run) && Pending(Exec(s, run), t, p, n)
    ensures p !in Exec(s, run).callers && n !in Exec(s, run).callers && p !in Exec(s, run).next
    ensures forall u, m | Pending(Exec(s, run), u, p, m) :: u == t && m == n
  {
    var c := Fifo(s, run);
    var e := Exec(s, run);
    assert Adjacent(c, p, n);
    forall u, m | Pending(e, u, p, m) ensures u == t && m == n {
      PendingUnique(e, c, t, u, p, n, m);
    }
  }

  /** At most one thread is ever inside the consumer side. */
  lemma SingleConsumer(s: State, run: seq<Action>, t: Thread, u: Thread)
    requires Initial(s) && Runs(s, run)
    requires IsConsumer(At(Exec(s, run), t)) && IsConsumer(At(Exec(s, run), u))
    ensures t == u && Exec(s, run).hasConsumer
  {
    var _ := Fifo(s, run);
  }

  /** A dequeue that says `Empty` is wrong exactly when some enqueue is between its swap of
      `head` and its store of the link behind the tail. */
  lemma EmptyMeans(s: State, run: seq<Action>, a: Action) returns (c: seq<Node>)
    requires Initial(s) && Runs(s, run) && Enabled(Exec(s, run), a)
    requires Step(Exec(s, run), a).1 == Empty
    ensures Inv(Exec(s, run), c) && Swaps(s, run) == Returns(s, run) + Elements(s.stub, c)
    ensures Elements(s.stub, c) != [] <==> exists t, n :: Pending(Exec(s, run), t, Exec(s, run).tail, n)
  {
    var e := Exec(s, run);
    c := Fifo(s, run);
    if |c| == 1 {
      assert c == [s.stub];
      forall t, n ensures !Pending(e, t, e.tail, n) { assert Pending(e, t, e.tail, n) ==> Adjacent(c, e.tail, n); }
    } else {
      assert SomePending(e, c[0], c[1]);
      assert Elements(s.stub, c[1..]) == (if c[1] == s.stub then [] else [c[1]]) + Elements(s.stub, c[1..][1..]);
    }
  }

  // ---- Two runs in which `Empty` is wrong ----

  /** `s'` can be reached from `s`. */
  ghost predicate Reaches(s: State, s': State) {
    exists run :: Runs(s, run) && Exec(s, run) == s'
  }

  lemma {:induction false} ThenRun(s: State, run: seq<Action>, a: Action) returns (longer: seq<Action>)
    requires Runs(s, run) && Enabled(Exec(s, run), a)
    ensures Runs(s, longer) && Exec(s, longer) == Step(Exec(s, run), a).0
    decreases |run|
  {
    if run == [] {
      longer := [a];
    } else {
      var rest := ThenRun(Step(s, run[0]).0, run[1..], a);
      longer := [run[0]] + rest;
    }
  }

  lemma Then(s: State, s': State, a: Action, s'': State)
    requires Reaches(s, s') && Enabled(s', a) && Step(s', a).0 == s''
    ensures Reaches(s, s'')
  {
    var run :| Runs(s, run) && Exec(s, run) == s';
    var longer := ThenRun(s, run, a);
  }

  /** Some run leads to this state, and the elements it returned are not all it took in. */
  ghost predicate Unreturned(s: State, e: State) {
    exists run :: Runs(s, run) && Exec(s, run) == e && Returns(s, run) < Swaps(s, run)
  }

  lemma EmptyIsWrong(s: State, e: State, a: Action, t: Thread, n: Node)
    requires Initial(s) && Reaches(s, e) && Enabled(e, a) && Step(e, a).1 == Empty && Pending(e, t, e.tail, n)
    ensures Unreturned(s, e)
  {
    var run :| Runs(s, run) && Exec(s, run) == e;
    var c := EmptyMeans(s, run, a);
    assert Returns(s, run) < Swaps(s, run);
  }

  /** A producer stalls after its swap behind the stub: its element is in the queue, and a
      dequeue says `Empty`. */
  lemma EmptyBehindStub() returns (s: State, e: State)
    ensures Initial(s) && Reaches(s, e) && Unreturned(s, e)
    ensures e.tail == s.stub && Enabled(e, Dequeue(0)) && Step(e, Dequeue(0)).1 == Empty
  {
    s := State(0, 0, 0, map[], false, {1}, map[]);
    assert Runs(s, []) && Exec(s, []) == s;
    var s1 := Step(s, Enqueue(1, 1)).0;
    Then(s, s, Enqueue(1, 1), s1);
    var s2 := Step(s1, Proceed(1)).0;
    Then(s, s1, Proceed(1), s2);
    var s3 := Step(s2, Proceed(1)).0;
    Then(s, s2, Proceed(1), s3);
    e := Step(s3, Lock(0)).0;
    Then(s, s3, Lock(0), e);
    EmptyIsWrong(s, e, Dequeue(0), 1, 1);
  }

  /** The state after an enqueue that nobody interrupts. */
  function Enqueued(s: State, t: Thread, n: Node): State {
    s.(head := n, next := (s.next - {n})[s.head := n], callers := s.callers - {n}, pcs := s.pcs[t := Idle])
  }

  lemma EnqueueReaches(s: State, e: State, t: Thread, n: Node)
    requires Reaches(s, e) && At(e, t).Idle? && n in e.callers
    ensures Reaches(s, Enqueued(e, t, n))
  {
    var s1 := Step(e, Enqueue(t, n)).0;
    Then(s, e, Enqueue(t, n), s1);
    var s2 := Step(s1, Proceed(t)).0;
    Then(s, s1, Proceed(t), s2);
    var s3 := Step(s2, Proceed(t)).0;
    Then(s, s2, Proceed(t), s3);
    assert Enqueued(e, t, n).pcs == s3.pcs[t := Idle];
    Then(s, s3, Proceed(t), Enqueued(e, t, n));
  }

  /** One element is queued and a consumer is there. */
  lemma OneElement() returns (s: State, e: State)
    ensures Initial(s) && Reaches(s, e) && s.stub == 0
    ensures e == State(0, 1, 0, map[0 := 1], true, {2}, map[1 := Idle, 0 := Holding])
  {
    s := State(0, 0, 0, map[], false, {1, 2}, map[]);
    assert Runs(s, []) && Exec(s, []) == s;
    EnqueueReaches(s, s, 1, 1);
    var s1 := Enqueued(s, 1, 1);
    e := State(0, 1, 0, map[0 := 1], true, {2}, map[1 := Idle, 0 := Holding]);
    assert Step(s1, Lock(0)).0 == e;
    Then(s, s1, Lock(0), e);
  }

  /** A dequeue of the last element reaches the point where it puts the stub back. */
  lemma AtLastElement() returns (s: State, e: State)
    ensures Initial(s) && Reaches(s, e) && s.stub == 0
    ensures e == State(0, 1, 1, map[0 := 1], true, {2}, map[1 := Idle, 0 := DqStubNull(1)])
  {
    var s1;
    s, s1 := OneElement();
    var s2 := Step(s1, Dequeue(0)).0;
    Then(s, s1, Dequeue(0), s2);
    var s3 := Step(s2, Proceed(0)).0;
    Then(s, s2, Proceed(0), s3);
    e := State(0, 1, 1, map[0 := 1], true, {2}, map[1 := Idle, 0 := DqStubNull(1)]);
    assert Step(s3, Proceed(0)).0.pcs == e.pcs;
    Then(s, s3, Proceed(0), e);
  }

  /** A producer swaps `head` just before that dequeue swaps in the stub. */
  lemma SwapBeforeStub() returns (s: State, e: State)
    ensures Initial(s) && Reaches(s, e) && s.stub == 0
    ensures e == State(0, 2, 1, map[0 := 1], true, {}, map[1 := Idle, 0 := DqStubNull(1), 2 := EnqLink(2, 1)])
  {
    var s1;
    s, s1 := AtLastElement();
    var s2 := Step(s1, Enqueue(2, 2)).0;
    Then(s, s1, Enqueue(2, 2), s2);
    var s3 := Step(s2, Proceed(2)).0;
    Then(s, s2, Proceed(2), s3);
    e := State(0, 2, 1, map[0 := 1], true, {}, map[1 := Idle, 0 := DqStubNull(1), 2 := EnqLink(2, 1)]);
    assert Step(s3, Proceed(2)).0.pcs == e.pcs;
    Then(s, s3, Proceed(2), e);
  }

  /** The dequeue puts the stub behind the producer's node. */
  lemma StubPutBack() returns (s: State, e: State)
    ensures Initial(s) && Reaches(s, e) && s.stub == 0
    ensures e == State(0, 0, 1, map[], true, {}, map[1 := Idle, 0 := DqStubLink(1, 2), 2 := EnqLink(2, 1)])
  {
    var s1;
    s, s1 := SwapBeforeStub();
    var s2 := Step(s1, Proceed(0)).0;
    Then(s, s1, Proceed(0), s2);
    e := State(0, 0, 1, map[], true, {}, map[1 := Idle, 0 := DqStubLink(1, 2), 2 := EnqLink(2, 1)]);
    assert Step(s2, Proceed(0)).0.pcs == e.pcs && Step(s2, Proceed(0)).0.next == e.next;
    Then(s, s2, Proceed(0), e);
  }

  /** The producer stalls: the element at the tail is still queued, and the dequeue says `Empty`. */
  lemma EmptyBeforeStub() returns (s: State, e: State)
    ensures Initial(s) && Reaches(s, e) && Unreturned(s, e)
    ensures e.tail != s.stub && At(e, 0) == DqReload(e.tail) && Step(e, Proceed(0)).1 == Empty
  {
    var s1;
    s, s1 := StubPutBack();
    e := Step(s1, Proceed(0)).0;
    Then(s, s1, Proceed(0), e);
    EmptyIsWrong(s, e, Proceed(0), 2, 2);
  }

  // ---- A dequeue that runs alone ----

  function Rank(pc: Pc): nat {
    match pc
    case DqNext(_) => 6
    case DqHead(_) => 5
    case DqStubNull(_) => 4
    case DqStubSwap(_) => 3
    case DqStubLink(_, _) => 2
    case DqReload(_) => 1
    case _ => 0
  }

  /** Thread `t` runs its call to the end with no other thread in between. */
  function Finish(s: State, t: Thread, e: Event): (State, Event)
    requires IsConsumer(At(s, t))
    decreases Rank(At(s, t))
  {
    if At(s, t).Holding? then (s, e) else
      var (s1, e1) := Step(s, Proceed(t));
      Finish(s1, t, e1)
  }

  function DequeueAlone(s: State, t: Thread): (State, Event)
    requires At(s, t).Holding?
  {
    var (s1, e1) := DequeueFirst(s, t);
    Finish(s1, t, e1)
  }

  /** The stub goes in behind the last node, which can then be returned. */
  lemma FinishWithStub(s: State, t: Thread, node: Node, e: Event)
    requires At(s, t) == DqHead(node) && s.head == node && node !in s.next
    ensures Finish(s, t, e) ==
            (Goto(s.(head := s.stub, tail := s.stub, next := (s.next - {s.stub})[node := s.stub],
                     callers := s.callers + {node}), t, Holding), Returned(node))
  {
    var s1 := Step(s, Proceed(t)).0;
    var s2 := Step(s1, Proceed(t)).0;
    var s3 := Step(s2, Proceed(t)).0;
    var s4 := Step(s3, Proceed(t)).0;
    var (s5, e5) := Step(s4, Proceed(t));
    assert Finish(s4, t, Silent) == (s5, e5);
    assert Finish(s2, t, Silent) == Finish(s4, t, Silent);
    assert Finish(s, t, e) == Finish(s2, t, Silent);
    assert s5.pcs == s.pcs[t := Holding];
  }

  lemma {:induction false} FinishKeeps(s: State, t: Thread, e: Event, c: seq<Node>) returns (c': seq<Node>)
    requires Inv(s, c) && IsConsumer(At(s, t)) && !At(s, t).Holding?
    ensures var (s', e') := Finish(s, t, e);
            Inv(s', c') && At(s', t).Holding? && Queued(Elements(s.stub, c), e', Elements(s.stub, c'))
    decreases Rank(At(s, t))
  {
    c' := ProceedKeeps(s, t, c);
    var (s1, e1) := Step(s, Proceed(t));
    if !At(s1, t).Holding? {
      QueuedMeans(Elements(s.stub, c), e1, Elements(s.stub, c'));
      c' := FinishKeeps(s1, t, e1, c');
    }
  }

  lemma FinishReturns(s: State, t: Thread, e: Event, c: seq<Node>)
    requires Inv(s, c) && forall i | 0 <= i < |c| - 1 :: c[i] in s.next
    requires At(s, t).DqNext? || (At(s, t).DqHead? && s.tail !in s.next)
    ensures Finish(s, t, e).1.Returned?
  {
    var node := At(s, t).t;
    if node !in s.next {
      assert |c| == 1;
      if At(s, t).DqNext? {
        FinishWithStub(Step(s, Proceed(t)).0, t, node, Silent);
      } else {
        FinishWithStub(s, t, node, e);
      }
    }
  }

  lemma QuiescentLinks(s: State, c: seq<Node>)
    requires Inv(s, c) && forall u :: Carried(s, u).None?
    ensures forall i | 0 <= i < |c| - 1 :: c[i] in s.next
  {
    assert forall u: Thread, p: Node, n: Node :: Pending(s, u, p, n) ==> Carried(s, u) == Some(n);
    forall i | 0 <= i < |c| - 1 ensures c[i] in s.next {
      assert !SomePending(s, c[i], c[i + 1]);
    }
  }

  /** From every reachable state with no enqueue in progress, whatever the place of the
      stub, a dequeue that runs alone returns the oldest element, and says `Empty`
      exactly when there is none; it is never `Inconsistent`. */
  lemma QuiescentDequeue(s: State, t: Thread, c: seq<Node>) returns (c': seq<Node>)
    requires Inv(s, c) && At(s, t).Holding? && forall u :: Carried(s, u).None?
    ensures var q := Elements(s.stub, c);
            var (s', e) := DequeueAlone(s, t);
            && Inv(s', c') && At(s', t).Holding?
            && (q == [] ==> e == Empty && Elements(s.stub, c') == [])
            && (q != [] ==> e == Returned(q[0]) && Elements(s.stub, c') == q[1..])
  {
    QuiescentLinks(s, c);
    c' := DequeueFirstKeeps(s, t, c);
    var (s1, e1) := DequeueFirst(s, t);
    if At(s1, t).Holding? {
      assert e1 == Empty ==> c == [s.stub];
    } else {
      var c1 := c';
      QueuedMeans(Elements(s.stub, c), e1, Elements(s.stub, c1));
      FinishReturns(s1, t, e1, c1);
      c' := FinishKeeps(s1, t, e1, c1);
    }
    QueuedMeans(Elements(s.stub, c), DequeueAlone(s, t).1, Elements(s.stub, c'));
  }

  // ---- The queue's own methods, run by one thread ----

  /** An enqueue that no other thread interrupts, by any idle thread, puts its node behind the
      last one, whatever the others were doing. */
  lemma EnqueueAlone(s: State, c: seq<Node>, t: Thread, n: Node)
    requires Inv(s, c) && At(s, t).Idle? && n in s.callers
    ensures Reaches(s, Enqueued(s, t, n)) && Inv(Enqueued(s, t, n), c + [n])
  {
    assert Runs(s, []) && Exec(s, []) == s;
    EnqueueReaches(s, s, t, n);
    EnqueueKeeps(s, c, t, n);
  }

  lemma EnqueueKeeps(s: State, c: seq<Node>, t: Thread, n: Node)
    requires Inv(s, c) && At(s, t).Idle? && n in s.callers
    ensures Inv(Enqueued(s, t, n), c + [n])
  {
    var s1 := Step(s, Enqueue(t, n)).0;
    KeepEnqueue(s, c, t, n);
    var s2 := Step(s1, Proceed(t)).0;
    KeepNull(s1, c, t);
    var s3 := Step(s2, Proceed(t)).0;
    KeepSwap(s2, c, t, n);
    KeepLink(s3, c + [n], t, s.head, n);
    assert Step(s3, Proceed(t)).0 == Enqueued(s, t, n) by { assert s3.pcs[t := Idle] == s.pcs[t := Idle]; }
  }

  lemma SamePcs(s: State, s': State, c: seq<Node>)
    requires Inv(s, c) && s' == s.(pcs := s'.pcs) && forall t :: At(s, t) == At(s', t)
    ensures Inv(s', c)
  {
    assert forall t :: Carried(s, t) == Carried(s', t);
    SamePending(s, s');
  }

  /** The queue as the object its methods update; thread 0 holds the consumer side. */
  class Queue {
    const stub: Node
    var head: Node
    var tail: Node
    var next: map<Node, Node>
    ghost var callers: set<Node>

    ghost function View(): State
      reads this
    {
      State(stub, head, tail, next, true, callers, map[0 := Holding])
    }

    constructor (stub: Node, ghost handles: set<Node>)
      requires stub !in handles
      ensures View().callers == handles && Inv(View(), [stub]) && this.stub == stub
    {
      this.stub, head, tail, next, callers := stub, stub, stub, map[], handles;
      new;
      assert forall t :: At(View(), t) == if t == 0 then Holding else Idle;
    }

    method EnqueueInner(ptr: Node)
      modifies this
      ensures tail == old(tail) && callers == old(callers)
      ensures head == ptr && next == (old(next) - {ptr})[old(head) := ptr]
    {
      next := next - {ptr};
      var prev := head;
      head := ptr;
      next := next[prev := ptr];
    }

    /** Run with no other thread: the element joins the queue at the end. */
    method Enqueue(ptr: Node, ghost c: seq<Node>)
      requires Inv(View(), c) && ptr in callers
      modifies this
      ensures callers == old(callers) - {ptr} && tail == old(tail)
      ensures Inv(View(), c + [ptr])
      ensures Elements(stub, c + [ptr]) == Elements(stub, c) + [ptr]
    {
      ghost var s := View();
      EnqueueInner(ptr);
      callers := callers - {ptr};
      EnqueueAlone(s, c, 1, ptr);
      SamePcs(Enqueued(s, 1, ptr), View(), c + [ptr]);
      ElementsAppend(stub, c, ptr);
    }

    /** The call does what the step machine does when it runs alone, for every state. */
    method TryDequeueUnchecked() returns (r: Event)
      modifies this
      ensures (View(), r) == DequeueAlone(old(View()), 0)
    {
      ghost var s0 := View();
      ghost var s1 := DequeueFirst(s0, 0).0;
      assert s0.pcs[0 := Holding] == s1.pcs[0 := Holding] == map[0 := Holding];
      var tailNode := tail;
      if tailNode == stub {
        if tailNode !in next { return Empty; }
        tailNode := next[tailNode];
        tail := tailNode;
      }
      if tailNode in next {
        tail := next[tailNode];
        callers := callers + {tailNode};
        if s0.tail == stub {
          assert Step(s1, Proceed(0)) == (View(), Returned(tailNode));
          assert Finish(s1, 0, Silent) == Finish(View(), 0, Returned(tailNode));
        }
        return Returned(tailNode);
      }
      ghost var s2 := if s0.tail == stub then Step(s1, Proceed(0)).0 else s1;
      assert s2.pcs == map[0 := DqHead(tailNode)];
      assert s2.pcs[0 := Holding] == map[0 := Holding];
      assert DequeueAlone(s0, 0) == Finish(s2, 0, Silent);
      if tailNode != head {
        assert Step(s2, Proceed(0)) == (View(), Inconsistent);
        assert Finish(s2, 0, Silent) == Finish(View(), 0, Inconsistent);
        return Inconsistent;
      }
      FinishWithStub(s2, 0, tailNode, Silent);
      EnqueueInner(stub);
      if tailNode !in next { return Empty; }
      tail := next[tailNode];
      callers := callers + {tailNode};
      return Returned(tailNode);
    }

    /** `Drop`: walks from `tail`, dropping each queued element once, in order, and the
        stub once at the end unless it is static. */
    method DropAll(stubIsStatic: bool, ghost c: seq<Node>) returns (dropped: seq<Node>)
      requires Inv(View(), c)
      ensures dropped == Elements(stub, c) + (if stubIsStatic then [] else [stub])
    {
      assert forall u :: Carried(View(), u).None?;
      QuiescentLinks(View(), c);
      dropped := [];
      var current := Some(tail);
      ghost var i := 0;
      while current.Some?
        invariant 0 <= i <= |c| && current == if i < |c| then Some(c[i]) else None
        invariant dropped + Elements(stub, c[i..]) == Elements(stub, c)
        decreases |c| - i
      {
        var node := current.value;
        if node != stub { dropped := dropped + [node]; }
        current := if node in next then Some(next[node]) else None;
        assert c[i..][1..] == c[i + 1..];
        i := i + 1;
      }
      if !stubIsStatic { dropped := dropped + [stub]; }
    }
  }
}
