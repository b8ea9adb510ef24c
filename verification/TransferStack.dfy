/** The lock-free `TransferStack` and the `Stack` it hands out, of cordyceps/src/stack.rs, as a
    step machine: one atomic access of one thread per step, any number of threads,
    sequentially consistent memory. */
module TransferStack {
  import opened Sequences
  import opened Wrappers

  type Node = nat
  type Thread = nat

  /** Where a pusher is: before its load of `head`, before it writes the link, before its
      compare-and-swap. */
  datatype Pc = Idle | Load(n: Node) | Write(n: Node, seen: Option<Node>) | Cas(n: Node, seen: Option<Node>)

  /** A node outside the domain of `next` has a null link. `stacks` are the heads of the
      stacks taken so far, `callers` the handles owned by code outside. */
  datatype State = State(
    head: Option<Node>, next: map<Node, Node>, stacks: seq<Option<Node>>,
    callers: set<Node>, pcs: map<Thread, Pc>)

  datatype Action =
    | Push(t: Thread, n: Node)               // call `TransferStack::push`
    | Proceed(t: Thread, weak: bool)         // its next access; a weak exchange may fail
    | TakeAll                                // `take_all`
    | StackPush(k: nat, n: Node)             // `Stack::push` on the `k`-th taken stack
    | StackPop(k: nat)                       // `Stack::pop`

  datatype Event =
    | Silent
    | Called(t: Thread, n: Node)
    | Pushed(n: Node)                        // the exchange succeeded
    | Took
    | Added(k: nat, n: Node)
    | Popped(k: nat, r: Option<Node>)

  function At(s: State, t: Thread): Pc {
    if t in s.pcs then s.pcs[t] else Idle
  }

  function LinkOf(next: map<Node, Node>, n: Node): Option<Node> {
    if n in next then Some(next[n]) else None
  }

  function SetLink(next: map<Node, Node>, n: Node, to: Option<Node>): map<Node, Node> {
    if to.Some? then next[n := to.value] else next - {n}
  }

  predicate Initial(s: State) {
    s.head == None && s.next == map[] && s.stacks == [] && s.pcs == map[]
  }

  predicate Enabled(s: State, a: Action) {
    match a
    case Push(t, n) => At(s, t).Idle? && n in s.callers
    case Proceed(t, _) => !At(s, t).Idle?
    case TakeAll => true
    case StackPush(k, n) => k < |s.stacks| && n in s.callers
    case StackPop(k) => k < |s.stacks|
  }

  function Goto(s: State, t: Thread, pc: Pc): State {
    s.(pcs := s.pcs[t := pc])
  }

  function Step(s: State, a: Action): (State, Event)
    requires Enabled(s, a)
  {
    match a
    case Push(t, n) => (Goto(s.(callers := s.callers - {n}), t, Load(n)), Called(t, n))
    case Proceed(t, weak) => (
      match At(s, t)
      case Load(n) => (Goto(s, t, Write(n, s.head)), Silent)
      case Write(n, seen) => (Goto(s.(next := SetLink(s.next, n, seen)), t, Cas(n, seen)), Silent)
      case Cas(n, seen) =>
        if s.head == seen && !weak then (Goto(s.(head := Some(n)), t, Idle), Pushed(n))
        else (Goto(s, t, Write(n, s.head)), Silent))
    case TakeAll => (s.(head := None, stacks := s.stacks + [s.head]), Took)
    case StackPush(k, n) =>
      (s.(next := SetLink(s.next, n, s.stacks[k]), stacks := s.stacks[k := Some(n)], callers := s.callers - {n}),
       Added(k, n))
    case StackPop(k) =>
      if s.stacks[k].None? then (s, Popped(k, None)) else
        var n := s.stacks[k].value;
        (s.(next := s.next - {n}, stacks := s.stacks[k := LinkOf(s.next, n)], callers := s.callers + {n}),
         Popped(k, Some(n)))
  }

  predicate Runs(s: State, run: seq<Action>)
    decreases |run|
  {
    run == [] || (Enabled(s, run[0]) && Runs(Step(s, run[0]).0, run[1..]))
  }

  function Exec(s: State, run: seq<Action>): State
    requires Runs(s, run)
    decreases |run|
  {
    if run == [] then s else Exec(Step(s, run[0]).0, run[1..])
  }

  // ---- What the run means ----

  /** Where a node is. */
  datatype Place = Caller | Pushing(t: Thread) | Shared | Taken(k: nat)

  /** The stack as a sequence, top first, that every successful exchange extends and every
      `take_all` empties; `stacks` is what the owners made of the sequences they took. `owner`
      gives every node one place. */
  datatype Ledger = Ledger(content: seq<Node>, stacks: seq<seq<Node>>, owner: map<Node, Place>)

  function Opened(s: State): Ledger {
    Ledger([], [], map n | n in s.callers :: Caller)
  }

  function Post(l: Ledger, e: Event): Ledger {
    match e
    case Silent => l
    case Called(t, n) => l.(owner := l.owner[n := Pushing(t)])
    case Pushed(n) => l.(content := [n] + l.content, owner := l.owner[n := Shared])
    case Took =>
      l.(content := [], stacks := l.stacks + [l.content],
         owner := map n | n in l.owner :: if n in l.content then Taken(|l.stacks|) else l.owner[n])
    case Added(k, n) =>
      if k >= |l.stacks| then l
      else l.(stacks := l.stacks[k := [n] + l.stacks[k]], owner := l.owner[n := Taken(k)])
    case Popped(k, r) =>
      if k >= |l.stacks| || r.None? || l.stacks[k] == [] then l
      else l.(stacks := l.stacks[k := l.stacks[k][1..]], owner := l.owner[r.value := Caller])
  }

  function Posted(s: State, l: Ledger, run: seq<Action>): Ledger
    requires Runs(s, run)
    decreases |run|
  {
    if run == [] then l else
      var (s', e) := Step(s, run[0]);
      Posted(s', Post(l, e), run[1..])
  }

  // ---- The invariant ----

  function After(c: seq<Node>, i: nat): Option<Node> {
    if i + 1 < |c| then Some(c[i + 1]) else None
  }

  /** The links from `h` spell out `c`. */
  predicate Chain(next: map<Node, Node>, h: Option<Node>, c: seq<Node>) {
    && h == (if c == [] then None else Some(c[0]))
    && forall i | 0 <= i < |c| :: LinkOf(next, c[i]) == After(c, i)
  }

  predicate Owned(l: Ledger, n: Node, p: Place) {
    n in l.owner && l.owner[n] == p
  }

  /** A chain of distinct nodes that all have this one place. */
  ghost predicate Holds(s: State, l: Ledger, h: Option<Node>, c: seq<Node>, p: Place) {
    Chain(s.next, h, c) && Distinct(c) && forall i | 0 <= i < |c| :: Owned(l, c[i], p)
  }

  predicate ThreadOk(s: State, l: Ledger, t: Thread) {
    match At(s, t)
    case Idle => true
    case Load(n) => Owned(l, n, Pushing(t)) && n !in s.next
    case Write(n, _) => Owned(l, n, Pushing(t))
    case Cas(n, seen) => Owned(l, n, Pushing(t)) && LinkOf(s.next, n) == seen
  }

  predicate PlaceOk(s: State, l: Ledger, n: Node)
    requires n in l.owner
  {
    match l.owner[n]
    case Caller => n in s.callers
    case Pushing(t) => !At(s, t).Idle? && At(s, t).n == n
    case Shared => n in l.content
    case Taken(k) => k < |l.stacks| && n in l.stacks[k]
  }

  ghost predicate Inv(s: State, l: Ledger) {
    && Holds(s, l, s.head, l.content, Shared)
    && |s.stacks| == |l.stacks|
    && (forall k | 0 <= k < |l.stacks| :: Holds(s, l, s.stacks[k], l.stacks[k], Taken(k)))
    && (forall n | n in s.callers :: Owned(l, n, Caller) && n !in s.next)
    && (forall t :: ThreadOk(s, l, t))
    && (forall n | n in l.owner :: PlaceOk(s, l, n))
  }

  /** A chain none of whose nodes is touched stays as it is. */
  lemma HoldsKept(s: State, l: Ledger, s': State, l': Ledger, h: Option<Node>, c: seq<Node>, p: Place, x: Node)
    requires Holds(s, l, h, c, p) && x !in c
    requires forall n | n != x :: LinkOf(s'.next, n) == LinkOf(s.next, n)
    requires forall n | n != x && n in l.owner :: n in l'.owner && l'.owner[n] == l.owner[n]
    ensures Holds(s', l', h, c, p)
  {
  }

  lemma KeepPush(s: State, l: Ledger, t: Thread, n: Node)
    requires Inv(s, l) && Enabled(s, Push(t, n))
    ensures var (s', e) := Step(s, Push(t, n)); Inv(s', Post(l, e))
  {
    var (s', e) := Step(s, Push(t, n));
    var l' := Post(l, e);
    HoldsKept(s, l, s', l', s.head, l.content, Shared, n);
    forall k | 0 <= k < |l.stacks| ensures Holds(s', l', s'.stacks[k], l'.stacks[k], Taken(k)) {
      HoldsKept(s, l, s', l', s.stacks[k], l.stacks[k], Taken(k), n);
    }
    forall u ensures ThreadOk(s', l', u) { assert ThreadOk(s, l, u); }
  }

  /** A step of a pusher that moves no node. */
  lemma KeepPrivate(s: State, l: Ledger, t: Thread, weak: bool)
    requires Inv(s, l) && Enabled(s, Proceed(t, weak)) && Step(s, Proceed(t, weak)).1 == Silent
    ensures Inv(Step(s, Proceed(t, weak)).0, l)
  {
    var s' := Step(s, Proceed(t, weak)).0;
    var n := At(s, t).n;
    assert ThreadOk(s, l, t);
    HoldsKept(s, l, s', l, s.head, l.content, Shared, n);
    forall k | 0 <= k < |l.stacks| ensures Holds(s', l, s'.stacks[k], l.stacks[k], Taken(k)) {
      HoldsKept(s, l, s', l, s.stacks[k], l.stacks[k], Taken(k), n);
    }
    forall u ensures ThreadOk(s', l, u) { assert ThreadOk(s, l, u); }
    forall m | m in l.owner ensures PlaceOk(s', l, m) { assert PlaceOk(s, l, m); }
  }

  lemma HoldsPush(s: State, l: Ledger, h: Option<Node>, c: seq<Node>, p: Place, n: Node)
    requires Holds(s, l, h, c, p) && LinkOf(s.next, n) == h && Owned(l, n, p) && n !in c
    ensures Holds(s, l, Some(n), [n] + c, p)
  {
  }

  /** Whoever owned the old head meanwhile, the new link is what the exchange compared. */
  lemma KeepPushed(s: State, l: Ledger, t: Thread)
    requires Inv(s, l) && Enabled(s, Proceed(t, false)) && Step(s, Proceed(t, false)).1.Pushed?
    ensures var (s', e) := Step(s, Proceed(t, false)); Inv(s', Post(l, e))
  {
    var (s', e) := Step(s, Proceed(t, false));
    var l', n := Post(l, e), e.n;
    assert ThreadOk(s, l, t);
    HoldsKept(s, l, s', l', s.head, l.content, Shared, n);
    HoldsPush(s', l', s.head, l.content, Shared, n);
    forall k | 0 <= k < |l.stacks| ensures Holds(s', l', s'.stacks[k], l'.stacks[k], Taken(k)) {
      HoldsKept(s, l, s', l', s.stacks[k], l.stacks[k], Taken(k), n);
    }
    forall u ensures ThreadOk(s', l', u) { assert ThreadOk(s, l, u); }
    forall m | m in l'.owner ensures PlaceOk(s', l', m) { if m != n { assert PlaceOk(s, l, m); } }
  }

  lemma KeepTake(s: State, l: Ledger)
    requires Inv(s, l)
    ensures var (s', e) := Step(s, TakeAll); Inv(s', Post(l, e))
  {
    var (s', e) := Step(s, TakeAll);
    var l' := Post(l, e);
    forall k | 0 <= k < |l'.stacks| ensures Holds(s', l', s'.stacks[k], l'.stacks[k], Taken(k)) {
      if k < |l.stacks| {
        var c := l.stacks[k];
        assert Holds(s, l, s.stacks[k], c, Taken(k));
        forall i | 0 <= i < |c| ensures Owned(l', c[i], Taken(k)) { assert Owned(l, c[i], Taken(k)); }
      }
    }
    forall u ensures ThreadOk(s', l', u) { assert ThreadOk(s, l, u); }
    forall m | m in l'.owner ensures PlaceOk(s', l', m) { assert PlaceOk(s, l, m); }
  }

  lemma KeepAdd(s: State, l: Ledger, k: nat, n: Node)
    requires Inv(s, l) && Enabled(s, StackPush(k, n))
    ensures var (s', e) := Step(s, StackPush(k, n)); Inv(s', Post(l, e))
  {
    var (s', e) := Step(s, StackPush(k, n));
    var l' := Post(l, e);
    HoldsKept(s, l, s', l', s.head, l.content, Shared, n);
    HoldsKept(s, l, s', l', s.stacks[k], l.stacks[k], Taken(k), n);
    HoldsPush(s', l', s.stacks[k], l.stacks[k], Taken(k), n);
    forall j | 0 <= j < |l.stacks| && j != k ensures Holds(s', l', s'.stacks[j], l'.stacks[j], Taken(j)) {
      HoldsKept(s, l, s', l', s.stacks[j], l.stacks[j], Taken(j), n);
    }
    forall u ensures ThreadOk(s', l', u) { assert ThreadOk(s, l, u); }
    forall m | m in l'.owner ensures PlaceOk(s', l', m) { if m != n { assert PlaceOk(s, l, m); } }
  }

  lemma HoldsPop(s: State, l: Ledger, h: Option<Node>, c: seq<Node>, p: Place)
    requires Holds(s, l, h, c, p) && c != []
    ensures Holds(s, l, LinkOf(s.next, c[0]), c[1..], p) && c[0] !in c[1..]
    ensures forall m | m in c :: m == c[0] || m in c[1..]
  {
  }

  lemma PopHolds(s: State, l: Ledger, k: nat, j: nat)
    requires Inv(s, l) && k < |l.stacks| && s.stacks[k].Some? && j < |l.stacks|
    ensures var (s', e) := Step(s, StackPop(k));
            var l' := Post(l, e);
            Holds(s', l', s'.stacks[j], l'.stacks[j], Taken(j)) && Holds(s', l', s'.head, l'.content, Shared)
  {
    var (s', e) := Step(s, StackPop(k));
    var l', n, c := Post(l, e), s.stacks[k].value, l.stacks[k];
    HoldsPop(s, l, s.stacks[k], c, Taken(k));
    assert Owned(l, n, Taken(k)) by { assert c[0] == n; }
    HoldsKept(s, l, s', l', s.head, l.content, Shared, n);
    if j == k {
      HoldsKept(s, l, s', l', s'.stacks[k], c[1..], Taken(k), n);
    } else {
      HoldsKept(s, l, s', l', s.stacks[j], l.stacks[j], Taken(j), n);
    }
  }

  lemma KeepPop(s: State, l: Ledger, k: nat)
    requires Inv(s, l) && Enabled(s, StackPop(k)) && s.stacks[k].Some?
    ensures var (s', e) := Step(s, StackPop(k)); Inv(s', Post(l, e))
  {
    var (s', e) := Step(s, StackPop(k));
    var l', n, c := Post(l, e), s.stacks[k].value, l.stacks[k];
    HoldsPop(s, l, s.stacks[k], c, Taken(k));
    PopHolds(s, l, k, k);
    forall j | 0 <= j < |l.stacks| ensures Holds(s', l', s'.stacks[j], l'.stacks[j], Taken(j)) { PopHolds(s, l, k, j); }
    forall u ensures ThreadOk(s', l', u) { assert ThreadOk(s, l, u); }
    forall m | m in l'.owner ensures PlaceOk(s', l', m) { if m != n { assert PlaceOk(s, l, m); } }
  }

  lemma StepKeeps(s: State, l: Ledger, a: Action)
    requires Inv(s, l) && Enabled(s, a)
    ensures var (s', e) := Step(s, a); Inv(s', Post(l, e))
  {
    match a
    case Push(t, n) => KeepPush(s, l, t, n);
    case Proceed(t, weak) =>
      if Step(s, a).1.Pushed? { KeepPushed(s, l, t); } else { KeepPrivate(s, l, t, weak); }
    case TakeAll => KeepTake(s, l);
    case StackPush(k, n) => KeepAdd(s, l, k, n);
    case StackPop(k) => if s.stacks[k].Some? { KeepPop(s, l, k); }
  }

  lemma {:induction false} RunKeeps(s: State, l: Ledger, run: seq<Action>)
    requires Inv(s, l) && Runs(s, run)
    ensures Inv(Exec(s, run), Posted(s, l, run))
    decreases |run|
  {
    if run != [] {
      StepKeeps(s, l, run[0]);
      var (s', e) := Step(s, run[0]);
      RunKeeps(s', Post(l, e), run[1..]);
    }
  }

  // ---- Whole runs ----

  lemma Reached(s: State, run: seq<Action>)
    requires Initial(s) && Runs(s, run)
    ensures Inv(Exec(s, run), Posted(s, Opened(s), run))
  {
    RunKeeps(s, Opened(s), run);
  }

  /** The links hold what the ledger says: every taken stack and the shared one, node by node
      and in order. A pop returns the top of its stack, and nothing exactly when it is empty. */
  lemma StacksAreRight(s: State, run: seq<Action>, k: nat)
    requires Initial(s) && Runs(s, run)
    ensures var s', l := Exec(s, run), Posted(s, Opened(s), run);
            && Chain(s'.next, s'.head, l.content) && |s'.stacks| == |l.stacks|
            && (k < |l.stacks| ==>
                  && Chain(s'.next, s'.stacks[k], l.stacks[k])
                  && Step(s', StackPop(k)).1 == Popped(k, if l.stacks[k] == [] then None else Some(l.stacks[k][0])))
  {
    Reached(s, run);
    var s', l := Exec(s, run), Posted(s, Opened(s), run);
    if k < |l.stacks| { assert Holds(s', l, s'.stacks[k], l.stacks[k], Taken(k)); }
  }

  /** The nodes that the links spell from a head, read off the memory. A node is taken out of
      the links once it was met, so the walk ends. */
  function Spelled(next: map<Node, Node>, h: Option<Node>): seq<Node>
    decreases |next|
  {
    if h.None? then []
    else if h.value !in next then [h.value]
    else [h.value] + Spelled(next - {h.value}, Some(next[h.value]))
  }

  lemma {:induction false} ChainSpelled(next: map<Node, Node>, h: Option<Node>, c: seq<Node>)
    requires Chain(next, h, c) && Distinct(c)
    ensures Spelled(next, h) == c
    decreases |c|
  {
    if c != [] {
      assert LinkOf(next, c[0]) == After(c, 0);
      if |c| > 1 {
        var d, next' := c[1..], next - {c[0]};
        forall i | 0 <= i < |d| ensures LinkOf(next', d[i]) == After(d, i) {
          assert d[i] == c[i + 1] && After(d, i) == After(c, i + 1);
        }
        ChainSpelled(next', Some(c[1]), d);
      }
    }
  }

  /** The nodes pushed, in the order of their successful exchanges. */
  function Pushes(s: State, run: seq<Action>): seq<Node>
    requires Runs(s, run)
    decreases |run|
  {
    if run == [] then [] else
      var (s', e) := Step(s, run[0]);
      (if e.Pushed? then [e.n] else []) + Pushes(s', run[1..])
  }

  /** What each `take_all` takes: the nodes that the links spell from the head it swaps out. */
  function Takes(s: State, run: seq<Action>): seq<seq<Node>>
    requires Runs(s, run)
    decreases |run|
  {
    if run == [] then [] else
      (if run[0].TakeAll? then [Spelled(s.next, s.head)] else []) + Takes(Step(s, run[0]).0, run[1..])
  }

  /** Batches one after the other, each from its oldest node to its newest. */
  function Oldest(batches: seq<seq<Node>>): seq<Node> {
    if batches == [] then [] else Reversed(batches[0]) + Oldest(batches[1..])
  }

  /** What a step does to the shared stack, by what it reports and what the links spell. */
  lemma StepContent(s: State, l: Ledger, a: Action)
    requires Inv(s, l) && Enabled(s, a)
    ensures var e := Step(s, a).1;
            var c := Post(l, e).content;
            if a.TakeAll? then !e.Pushed? && c == [] && Spelled(s.next, s.head) == l.content
            else c == (if e.Pushed? then [e.n] else []) + l.content
  {
    if a.TakeAll? { ChainSpelled(s.next, s.head, l.content); }
  }

  lemma PushedLast(pushed: seq<Node>, content: seq<Node>, later: seq<Node>)
    requires |pushed| <= 1
    ensures Reversed(content) + (pushed + later) == Reversed(pushed + content) + later
  {
    if pushed != [] {
      assert (pushed + content)[1..] == content;
      assert pushed == [pushed[0]];
    } else {
      assert pushed + content == content && pushed + later == later;
    }
  }

  lemma OldestFirst(batch: seq<Node>, batches: seq<seq<Node>>, rest: seq<Node>)
    ensures Oldest([batch] + batches) + rest == Reversed(batch) + (Oldest(batches) + rest)
  {
    assert ([batch] + batches)[1..] == batches;
  }

  lemma {:induction false} RunInOrder(s: State, l: Ledger, run: seq<Action>)
    requires Inv(s, l) && Runs(s, run)
    ensures Reversed(l.content) + Pushes(s, run) == Oldest(Takes(s, run)) + Reversed(Posted(s, l, run).content)
    decreases |run|
  {
    if run != [] {
      var (s', e) := Step(s, run[0]);
      var l', rest := Post(l, e), run[1..];
      StepKeeps(s, l, run[0]);
      StepContent(s, l, run[0]);
      RunInOrder(s', l', rest);
      if run[0].TakeAll? {
        OldestFirst(l.content, Takes(s', rest), Reversed(Posted(s', l', rest).content));
      } else {
        assert Takes(s, run) == Takes(s', rest);
        PushedLast(if e.Pushed? then [e.n] else [], l.content, Pushes(s', rest));
      }
    }
  }

  /** In every run the batches that the takes read off the links, oldest node first, followed by
      what the links still spell from the head, are the pushes in the order of their exchanges:
      nothing is lost, doubled or reordered, even if the compared head was taken and pushed
      again in between. */
  lemma PushesInOrder(s: State, run: seq<Action>) returns (c: seq<Node>)
    requires Initial(s) && Runs(s, run)
    ensures Chain(Exec(s, run).next, Exec(s, run).head, c) && Distinct(c)
    ensures Pushes(s, run) == Oldest(Takes(s, run)) + Reversed(c)
  {
    c := Posted(s, Opened(s), run).content;
    Reached(s, run);
    RunInOrder(s, Opened(s), run);
  }

  lemma StepOwners(s: State, l: Ledger, a: Action)
    requires Inv(s, l) && Enabled(s, a)
    ensures Post(l, Step(s, a).1).owner.Keys == l.owner.Keys
  {
    match a
    case Push(_, n) => assert Owned(l, n, Caller);
    case Proceed(t, _) => assert ThreadOk(s, l, t);
    case TakeAll =>
    case StackPush(_, n) => assert Owned(l, n, Caller);
    case StackPop(k) =>
      assert Holds(s, l, s.stacks[k], l.stacks[k], Taken(k));
      if l.stacks[k] != [] { assert Owned(l, l.stacks[k][0], Taken(k)); }
  }

  /** No node appears or disappears. */
  lemma {:induction false} OwnersKept(s: State, l: Ledger, run: seq<Action>)
    requires Inv(s, l) && Runs(s, run)
    ensures Posted(s, l, run).owner.Keys == l.owner.Keys
    decreases |run|
  {
    if run != [] {
      StepOwners(s, l, run[0]);
      StepKeeps(s, l, run[0]);
      var (s', e) := Step(s, run[0]);
      OwnersKept(s', Post(l, e), run[1..]);
    }
  }

  /** Every handle the callers began with is in exactly one place: with a caller, in the hands
      of one pusher, on the shared stack, or on one taken stack. */
  lemma OnePlace(s: State, run: seq<Action>, n: Node)
    requires Initial(s) && Runs(s, run) && n in s.callers
    ensures var s', l := Exec(s, run), Posted(s, Opened(s), run);
            n in l.owner &&
            var p := l.owner[n];
            && (n in s'.callers <==> p == Caller)
            && (forall t :: !At(s', t).Idle? && At(s', t).n == n <==> p == Pushing(t))
            && (n in l.content <==> p == Shared)
            && (forall k | 0 <= k < |l.stacks| :: n in l.stacks[k] <==> p == Taken(k))
  {
    Reached(s, run);
    OwnersKept(s, Opened(s), run);
    var s', l := Exec(s, run), Posted(s, Opened(s), run);
    assert n in Opened(s).owner.Keys;
    assert PlaceOk(s', l, n);
    forall t ensures !At(s', t).Idle? && At(s', t).n == n <==> l.owner[n] == Pushing(t) { assert ThreadOk(s', l, t); }
    forall k | 0 <= k < |l.stacks| ensures n in l.stacks[k] <==> l.owner[n] == Taken(k) {
      assert Holds(s', l, s'.stacks[k], l.stacks[k], Taken(k));
    }
  }

  /** `push` finds its node unlinked, as both pushes assert. */
  lemma HandlesUnlinked(s: State, run: seq<Action>, n: Node)
    requires Initial(s) && Runs(s, run) && n in Exec(s, run).callers
    ensures LinkOf(Exec(s, run).next, n) == None
  {
    Reached(s, run);
  }

  /** A push without interruption, whose exchange does not fail for no reason, puts its node on
      top. */
  lemma PushAlone(s: State, l: Ledger, t: Thread, n: Node)
    requires Inv(s, l) && Enabled(s, Push(t, n))
    ensures var s1 := Step(s, Push(t, n)).0;
            var s2 := Step(s1, Proceed(t, false)).0;
            var s3 := Step(s2, Proceed(t, false)).0;
            var (s4, e4) := Step(s3, Proceed(t, false));
            e4 == Pushed(n) && At(s4, t).Idle? && Chain(s4.next, s4.head, [n] + l.content)
  {
    var s1, e1 := Step(s, Push(t, n)).0, Step(s, Push(t, n)).1;
    var l1 := Post(l, e1);
    StepKeeps(s, l, Push(t, n));
    StepKeeps(s1, l1, Proceed(t, false));
    var s2 := Step(s1, Proceed(t, false)).0;
    StepKeeps(s2, l1, Proceed(t, false));
    var s3 := Step(s2, Proceed(t, false)).0;
    StepKeeps(s3, l1, Proceed(t, false));
  }
}
