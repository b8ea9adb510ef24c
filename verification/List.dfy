/** The intrusive doubly linked list of cordyceps/src/list.rs. The links live in the nodes; a
    list owns its head, tail and length. Its meaning is a sequence of distinct nodes. */
module List {
  import opened Sequences
  import opened Wrappers

  const USIZE_MAX: nat := 0xFFFF_FFFF_FFFF_FFFF

  class Node {
    var prev: Node?
    var next: Node?

    constructor ()
      ensures prev == null && next == null
    {
      prev, next := null, null;
    }
  }

  /** Distinct nodes, each linked both ways with its neighbours in the sequence. */
  ghost predicate Segment(s: seq<Node>)
    reads s
  {
    && Distinct(s)
    && (forall i | 0 <= i < |s| :: i > 0 ==> s[i].prev == s[i - 1])
    && (forall i | 0 <= i < |s| :: i + 1 < |s| ==> s[i].next == s[i + 1])
  }

  /** A segment with nothing before it and nothing after it. */
  ghost predicate Linked(s: seq<Node>)
    reads s
  {
    Segment(s) && (s != [] ==> s[0].prev == null && s[|s| - 1].next == null)
  }

  ghost predicate Disjoint(s: seq<Node>, t: seq<Node>) {
    forall i, j | 0 <= i < |s| && 0 <= j < |t| :: s[i] != t[j]
  }

  function First(s: seq<Node>): Node? {
    if s == [] then null else s[0]
  }

  function Last(s: seq<Node>): Node? {
    if s == [] then null else s[|s| - 1]
  }

  /** Nothing before the chain, or nothing after it. */
  ghost predicate OpenLeft(s: seq<Node>)
    reads s
  {
    s != [] ==> s[0].prev == null
  }

  ghost predicate OpenRight(s: seq<Node>)
    reads s
  {
    s != [] ==> s[|s| - 1].next == null
  }

  /** A chain stays one while its inner links are left alone. */
  twostate lemma Kept(s: seq<Node>)
    requires old(Segment(s))
    requires forall i | 0 <= i < |s| :: i > 0 ==> s[i].prev == old(s[i].prev)
    requires forall i | 0 <= i < |s| :: i + 1 < |s| ==> s[i].next == old(s[i].next)
    ensures Segment(s)
  {
  }

  /** Two chains whose ends point at each other are one chain. */
  lemma Join(s: seq<Node>, t: seq<Node>)
    requires Segment(s) && Segment(t) && Disjoint(s, t)
    requires s != [] && t != [] ==> s[|s| - 1].next == t[0] && t[0].prev == s[|s| - 1]
    ensures Segment(s + t)
  {
  }

  lemma JoinThree(a: seq<Node>, b: seq<Node>, c: seq<Node>)
    requires Segment(a) && Segment(b) && Segment(c) && Disjoint(a, b) && Disjoint(a, c) && Disjoint(c, b) && b != []
    requires OpenLeft(a) && OpenRight(c) && b[0].prev == Last(a) && b[|b| - 1].next == First(c)
    requires (a != [] ==> a[|a| - 1].next == b[0]) && (c != [] ==> c[0].prev == b[|b| - 1])
    ensures Linked(a + b + c)
    ensures First(a + b + c) == (if a == [] then b[0] else a[0])
    ensures Last(a + b + c) == (if c == [] then b[|b| - 1] else c[|c| - 1])
  {
    Join(a, b);
    Join(a + b, c);
  }

  /** The two halves of a list. */
  lemma Halves(s: seq<Node>, k: nat)
    requires Linked(s) && k <= |s|
    ensures Segment(s[..k]) && Segment(s[k..]) && Disjoint(s[..k], s[k..]) && OpenLeft(s[..k]) && OpenRight(s[k..])
    ensures 0 < k < |s| ==> s[k - 1].next == s[k] && s[k].prev == s[k - 1]
  {
  }

  /** What is left and right of a node of a list. */
  lemma Around(s: seq<Node>, k: nat)
    requires Linked(s) && k < |s|
    ensures var before, after := s[..k], s[k + 1..];
            && Segment(before) && Segment(after) && Disjoint(before, after) && OpenLeft(before) && OpenRight(after)
            && s[k] !in before && s[k] !in after && s[k].prev == Last(before) && s[k].next == First(after)
  {
  }

  /** Cuts the links behind a node: both halves are chains of their own. */
  method CutLinks(node: Node, first: Node?, ghost s: seq<Node>, ghost k: nat)
    requires Linked(s) && 0 < k <= |s| && node == s[k - 1] && first == node.next
    modifies s
    ensures first == First(s[k..]) && Linked(s[..k]) && Linked(s[k..])
  {
    Halves(s, k);
    node.next := null;
    if first != null {
      assert first == s[k];
      first.prev := null;
    }
    Kept(s[..k]);
    Kept(s[k..]);
  }

  /** Clears the links of a node and joins what is left and right of it. */
  method JoinAround(item: Node, prev: Node?, next: Node?, ghost s: seq<Node>, ghost k: nat)
    requires Linked(s) && k < |s| && item == s[k] && prev == item.prev && next == item.next
    modifies s
    ensures item.prev == null && item.next == null && Linked(s[..k] + s[k + 1..])
  {
    ghost var before, after := s[..k], s[k + 1..];
    Around(s, k);
    item.prev, item.next := null, null;
    if prev != null {
      assert prev == before[k - 1];
      prev.next := next;
    }
    if next != null {
      assert next == after[0];
      next.prev := prev;
    }
    Kept(before);
    Kept(after);
    Join(before, after);
  }

  /** Links a chain of nodes in between two neighbours. */
  method SpliceLinks(prev: Node?, next: Node?, first: Node, last: Node, ghost s: seq<Node>, ghost at: nat,
                     ghost spliced: seq<Node>)
    requires Linked(s) && at <= |s| && prev == Last(s[..at]) && next == First(s[at..])
    requires Segment(spliced) && Disjoint(s, spliced)
    requires spliced != [] && first == spliced[0] && last == spliced[|spliced| - 1]
    modifies s, spliced
    ensures Linked(s[..at] + spliced + s[at..])
  {
    ghost var before, after := s[..at], s[at..];
    Halves(s, at);
    if prev != null {
      assert prev == s[at - 1];
      prev.next := first;
    }
    if next != null {
      assert next == s[at];
      next.prev := last;
    }
    first.prev := prev;
    last.next := next;
    Kept(before);
    Kept(spliced);
    Kept(after);
    JoinThree(before, spliced, after);
  }

  class List {
    var head: Node?
    var tail: Node?
    var len: nat
    ghost var nodes: seq<Node>

    ghost predicate Valid()
      reads this, nodes
    {
      Linked(nodes) && head == First(nodes) && tail == Last(nodes) && len == |nodes|
    }

    constructor ()
      ensures Valid() && nodes == []
    {
      head, tail, len, nodes := null, null, 0, [];
    }

    /** A list made of its parts. */
    constructor Of(head: Node?, tail: Node?, len: nat, ghost nodes: seq<Node>)
      requires Linked(nodes) && head == First(nodes) && tail == Last(nodes) && len == |nodes|
      ensures Valid() && this.nodes == nodes
    {
      this.head, this.tail, this.len, this.nodes := head, tail, len, nodes;
    }

    method PushBack(item: Node)
      requires Valid() && item !in nodes
      modifies this, nodes, item
      ensures Valid() && nodes == old(nodes) + [item]
    {
      item.next := null;
      item.prev := tail;
      if tail != null {
        tail.next := item;
      }
      tail := item;
      if head == null {
        head := item;
      }
      len := len + 1;
      nodes := nodes + [item];
    }

    method PushFront(item: Node)
      requires Valid() && item !in nodes
      modifies this, nodes, item
      ensures Valid() && nodes == [item] + old(nodes)
    {
      item.next := head;
      item.prev := null;
      if head != null {
        head.prev := item;
      }
      head := item;
      if tail == null {
        tail := item;
      }
      len := len + 1;
      nodes := [item] + nodes;
    }

    method PopBack() returns (item: Node?)
      requires Valid()
      modifies this, nodes
      ensures Valid() && item == Last(old(nodes))
      ensures item == null ==> nodes == []
      ensures item != null ==> old(nodes) == nodes + [item] && item.prev == null && item.next == null
    {
      if tail == null { return null; }
      item := tail;
      assert item == nodes[|nodes| - 1] && (|nodes| > 1 ==> item.prev == nodes[|nodes| - 2]);
      len := len - 1;
      tail := item.prev;
      if item.prev != null {
        item.prev.next := null;
      } else {
        head := null;
      }
      item.prev, item.next := null, null;
      nodes := nodes[..|nodes| - 1];
    }

    method PopFront() returns (item: Node?)
      requires Valid()
      modifies this, nodes
      ensures Valid() && item == First(old(nodes))
      ensures item == null ==> nodes == []
      ensures item != null ==> old(nodes) == [item] + nodes && item.prev == null && item.next == null
    {
      if head == null { return null; }
      item := head;
      assert item == nodes[0] && (|nodes| > 1 ==> item.next == nodes[1] && nodes[1].prev == item);
      len := len - 1;
      head := item.next;
      if item.next != null {
        item.next.prev := null;
      } else {
        tail := null;
      }
      item.prev, item.next := null, null;
      nodes := nodes[1..];
    }

    /** Empties the list and hands out what it held. */
    method TakeAll() returns (first: Node?, last: Node?, count: nat)
      requires Valid()
      modifies this
      ensures Valid() && nodes == []
      ensures first == First(old(nodes)) && last == Last(old(nodes)) && count == |old(nodes)|
    {
      first, last, count := head, tail, len;
      if head == null { return; }
      head, tail, len, nodes := null, null, 0, [];
    }

    /** `mem::swap`. */
    method Swap(other: List)
      requires Valid() && other.Valid() && other != this
      modifies this, other
      ensures Valid() && other.Valid() && nodes == old(other.nodes) && other.nodes == old(nodes)
    {
      head, tail, len, nodes, other.head, other.tail, other.len, other.nodes :=
        other.head, other.tail, other.len, other.nodes, head, tail, len, nodes;
    }

    method Append(other: List)
      requires Valid() && other.Valid() && other != this && Disjoint(nodes, other.nodes)
      modifies this, other, nodes, other.nodes
      ensures Valid() && other.Valid()
      ensures nodes == old(nodes) + old(other.nodes) && other.nodes == []
    {
      ghost var more := other.nodes;
      if tail == null {
        Swap(other);
        assert nodes == [] + more;
        return;
      }
      var first, last, count := other.TakeAll();
      if first != null {
        tail.next := first;
        first.prev := tail;
        tail := last;
        len := len + count;
      }
      nodes := nodes + more;
      Kept(old(nodes));
      Kept(more);
      Join(old(nodes), more);
    }

    /** Replaces the list with an empty one and returns the old. */
    method Replace() returns (r: List)
      requires Valid()
      modifies this
      ensures fresh(r) && r.Valid() && r.nodes == old(nodes)
      ensures Valid() && nodes == []
    {
      r := new List();
      r.head, r.tail, r.len, r.nodes := head, tail, len, nodes;
      head, tail, len, nodes := null, null, 0, [];
    }

    /** Cuts behind a node, the one at `idx - 1`, and returns the ends of the rest. */
    method CutAfter(node: Node, idx: nat) returns (first: Node?, last: Node?, count: nat)
      requires Valid() && 0 < idx <= |nodes| && node == nodes[idx - 1]
      modifies this, nodes
      ensures Valid() && nodes == old(nodes)[..idx]
      ensures Linked(old(nodes)[idx..])
      ensures first == First(old(nodes)[idx..]) && last == Last(old(nodes)[idx..]) && count == |old(nodes)[idx..]|
    {
      first, last, count := node.next, null, len - idx;
      if first != null { last, tail := tail, node; }
      len, nodes := idx, nodes[..idx];
      CutLinks(node, first, old(nodes), idx);
    }

    method SplitAfterNode(node: Node?, idx: nat) returns (r: List)
      requires Valid()
      requires if node == null then idx == 0 else 0 < idx <= |nodes| && node == nodes[idx - 1]
      modifies this, nodes
      ensures fresh(r) && r.Valid() && Valid()
      ensures nodes == old(nodes)[..idx] && r.nodes == old(nodes)[idx..]
    {
      if node == null {
        r := Replace();
      } else {
        ghost var rest := nodes[idx..];
        var first, last, count := CutAfter(node, idx);
        r := new List.Of(first, last, count, rest);
      }
    }

    /** Keeps the first `at` nodes and returns the rest, walking from the nearer end. */
    method TrySplitOff(at: nat) returns (r: Option<List>)
      requires Valid()
      modifies this, nodes
      ensures Valid() && (r.None? <==> at > |old(nodes)|)
      ensures r.None? ==> nodes == old(nodes)
      ensures r.Some? ==> fresh(r.value) && r.value.Valid()
      ensures r.Some? ==> nodes == old(nodes)[..at] && r.value.nodes == old(nodes)[at..]
    {
      if at == 0 {
        var all := Replace();
        return Some(all);
      }
      if at == len {
        var none := new List();
        return Some(none);
      }
      if at > len { return None; }
      var node := NodeAt(at - 1);
      var rest := SplitAfterNode(node, at);
      r := Some(rest);
    }

    /** The node at a position, reached from the nearer end. */
    method NodeAt(i: nat) returns (node: Node?)
      requires Valid() && i < |nodes|
      ensures node == nodes[i]
    {
      var iter := new Iter(this);
      var fromTail := len - 1 - i;
      if i <= fromTail {
        for k := 0 to i
          invariant iter.Valid() && iter.list == this && iter.lo == k && iter.hi == |nodes|
        {
          var _ := iter.Next();
        }
        node := iter.curr;
      } else {
        for k := 0 to fromTail
          invariant iter.Valid() && iter.list == this && iter.lo == 0 && iter.hi == |nodes| - k
        {
          var _ := iter.NextBack();
        }
        node := iter.currBack;
      }
    }

    /** Puts a chain of nodes of no other list between two neighbours. */
    method InsertNodesBetween(prev: Node?, next: Node?, first: Node, last: Node, count: nat,
                              ghost at: nat, ghost spliced: seq<Node>)
      requires Valid() && at <= |nodes| && prev == Last(nodes[..at]) && next == First(nodes[at..])
      requires Segment(spliced) && Disjoint(nodes, spliced)
      requires |spliced| == count > 0 && first == spliced[0] && last == spliced[count - 1]
      modifies this, nodes, spliced
      ensures Valid() && nodes == old(nodes)[..at] + spliced + old(nodes)[at..]
    {
      ghost var before, after := nodes[..at], nodes[at..];
      if prev == null { head := first; }
      if next == null { tail := last; }
      len, nodes := len + count, before + spliced + after;
      SpliceLinks(prev, next, first, last, old(nodes), at, spliced);
    }

    /** `remove`, for the node at position `k`. */
    method Unlink(item: Node, ghost k: nat)
      requires Valid() && k < |nodes| && item == nodes[k]
      modifies this, nodes
      ensures Valid() && item.prev == null && item.next == null
      ensures nodes == old(nodes)[..k] + old(nodes)[k + 1..]
    {
      ghost var before, after := nodes[..k], nodes[k + 1..];
      Around(nodes, k);
      var prev, next := item.prev, item.next;
      if prev == null { head := next; }
      if next == null { tail := prev; }
      len, nodes := len - 1, before + after;
      JoinAround(item, prev, next, old(nodes), k);
    }

    /** Unlinks a node of this list; a node that is in no list stays out. */
    method Remove(item: Node) returns (r: Node?)
      requires Valid() && (item in nodes || (item.prev == null && item.next == null))
      modifies this, nodes, item
      ensures Valid() && item.prev == null && item.next == null
      ensures r == if item in old(nodes) then item else null
      ensures item !in old(nodes) ==> nodes == old(nodes)
      ensures item in old(nodes) ==>
                var k := IndexIn(old(nodes), item); nodes == old(nodes)[..k] + old(nodes)[k + 1..]
    {
      if item in nodes { Around(nodes, IndexIn(nodes, item)); }
      if item.prev == null && head != item { return null; }
      if item.next == null && tail != item { return null; }
      Unlink(item, IndexIn(nodes, item));
      r := item;
    }

    /** `remove` of the node at position `k` of another list, which the source forbids and does
        not notice. An inner node is returned: the other list is linked without it, and both
        counts are off by one. A node at an end is not: if it has a neighbour, the link between
        them is cut on one side at least and the other list is broken. */
    method RemoveStray(item: Node, other: List, ghost k: nat) returns (r: Node?)
      requires Valid() && other.Valid() && Disjoint(nodes, other.nodes) && k < |other.nodes| && item == other.nodes[k]
      modifies this, other.nodes
      ensures head == old(head) && tail == old(tail) && nodes == old(nodes) && Linked(nodes)
      ensures item.prev == null && item.next == null
      ensures other.head == old(other.head) && other.tail == old(other.tail) && other.len == old(other.len)
      ensures r == if 0 < k < |other.nodes| - 1 then item else null
      ensures r == null ==> Valid() && (other.Valid() <==> |other.nodes| == 1)
      ensures r == item ==> Linked(other.nodes[..k] + other.nodes[k + 1..])
      ensures r == item ==> len == if old(len) == 0 then USIZE_MAX else old(len) - 1
    {
      ghost var mine, before, after := nodes, other.nodes[..k], other.nodes[k + 1..];
      Around(other.nodes, k);
      assert item !in mine;
      assert (k > 0 ==> item.prev == other.nodes[k - 1]) && (k + 1 < |other.nodes| ==> item.next == other.nodes[k + 1]);
      var prev, next := item.prev, item.next;
      item.prev, item.next := null, null;
      if prev != null {
        prev.next := next;
      } else {
        // It is not the head of this list.
        assert k == 0 && (|other.nodes| > 1 ==> other.nodes[0].next != other.nodes[1]);
        Kept(mine);
        return null;
      }
      if next != null {
        next.prev := prev;
      } else {
        // Nor its tail.
        assert other.nodes[k].prev != other.nodes[k - 1];
        Kept(mine);
        return null;
      }
      len := if len == 0 then USIZE_MAX else len - 1;
      r := item;
      Kept(mine);
      Kept(before);
      Kept(after);
      Join(before, after);
    }
  }

  /** A borrowing iterator; `lo` and `hi` bound what it has not yielded. */
  class Iter {
    const list: List
    var curr: Node?
    var currBack: Node?
    var len: nat
    ghost var lo: nat
    ghost var hi: nat

    ghost predicate Valid()
      reads this, list, list.nodes
    {
      && list.Valid() && lo <= hi <= |list.nodes| && len == hi - lo
      && (lo < hi ==> curr == list.nodes[lo] && currBack == list.nodes[hi - 1])
    }

    constructor (list: List)
      requires list.Valid()
      ensures Valid() && this.list == list && lo == 0 && hi == |list.nodes|
    {
      this.list := list;
      curr, currBack, len := list.head, list.tail, list.len;
      lo, hi := 0, |list.nodes|;
    }

    method Next() returns (r: Node?)
      requires Valid()
      modifies this
      ensures Valid() && hi == old(hi)
      ensures old(lo) == hi ==> r == null && lo == old(lo)
      ensures old(lo) < hi ==> r == list.nodes[old(lo)] && lo == old(lo) + 1
    {
      if len == 0 { return null; }
      r := curr;
      curr := null;
      if r == null { return; }
      len := len - 1;
      lo := lo + 1;
      curr := r.next;
    }

    method NextBack() returns (r: Node?)
      requires Valid()
      modifies this
      ensures Valid() && lo == old(lo)
      ensures lo == old(hi) ==> r == null && hi == old(hi)
      ensures lo < old(hi) ==> r == list.nodes[old(hi) - 1] && hi == old(hi) - 1
    {
      if len == 0 { return null; }
      r := currBack;
      currBack := null;
      if r == null { return; }
      len := len - 1;
      hi := hi - 1;
      currBack := r.prev;
    }
  }

  /** What `append` is to `try_split_off`: the list is whole again. */
  method SplitThenAppend(list: List, at: nat)
    requires list.Valid()
    modifies list, list.nodes
    ensures list.Valid() && list.nodes == old(list.nodes)
  {
    if at <= |list.nodes| { Halves(list.nodes, at); }
    var rest := list.TrySplitOff(at);
    if rest.Some? {
      assert Disjoint(list.nodes, rest.value.nodes);
      list.Append(rest.value);
    }
  }

  /** What came from the front, and what came from the back. */
  ghost predicate Yielded(nodes: seq<Node>, lo: nat, hi: nat, front: seq<Node>, back: seq<Node>) {
    lo <= hi <= |nodes| && front == nodes[..lo] && Reversed(back) == nodes[hi..]
  }

  lemma YieldedMore(nodes: seq<Node>, lo: nat, hi: nat, front: seq<Node>, back: seq<Node>)
    requires Yielded(nodes, lo, hi, front, back) && lo < hi
    ensures Yielded(nodes, lo + 1, hi, front + [nodes[lo]], back)
    ensures Yielded(nodes, lo, hi - 1, front, back + [nodes[hi - 1]])
  {
    var more := back + [nodes[hi - 1]];
    forall i | 0 <= i < |more| ensures Reversed(more)[i] == nodes[hi - 1..][i] {
      assert i > 0 ==> Reversed(more)[i] == Reversed(back)[i - 1];
    }
  }

  /** One call of `next` or `next_back`. */
  method Turn(iter: Iter, forward: bool, front: seq<Node>, back: seq<Node>) returns (front': seq<Node>, back': seq<Node>)
    requires iter.Valid() && Yielded(iter.list.nodes, iter.lo, iter.hi, front, back)
    modifies iter
    ensures iter.Valid() && Yielded(iter.list.nodes, iter.lo, iter.hi, front', back')
    ensures |front'| + |back'| == |front| + |back| + if old(iter.lo < iter.hi) then 1 else 0
  {
    front', back' := front, back;
    if iter.lo < iter.hi { YieldedMore(iter.list.nodes, iter.lo, iter.hi, front, back); }
    if forward {
      var n := iter.Next();
      if n != null { front' := front + [n]; }
    } else {
      var n := iter.NextBack();
      if n != null { back' := back + [n]; }
    }
  }

  /** Any mix of `next` (true) and `next_back` (false) yields each node at most once, and what
      came from the front followed by the reverse of what came from the back is the list as soon
      as there were enough calls. */
  method Mixed(list: List, turns: seq<bool>) returns (front: seq<Node>, back: seq<Node>)
    requires list.Valid()
    ensures |front| + |back| == if |turns| < |list.nodes| then |turns| else |list.nodes|
    ensures front == list.nodes[..|front|] && Reversed(back) == list.nodes[|list.nodes| - |back|..]
    ensures |list.nodes| <= |turns| ==> front + Reversed(back) == list.nodes
  {
    var iter := new Iter(list);
    front, back := [], [];
    for k := 0 to |turns|
      invariant iter.Valid() && iter.list == list && fresh(iter)
      invariant Yielded(list.nodes, iter.lo, iter.hi, front, back)
      invariant |front| + |back| == if k < |list.nodes| then k else |list.nodes|
    {
      front, back := Turn(iter, turns[k], front, back);
    }
  }
}
