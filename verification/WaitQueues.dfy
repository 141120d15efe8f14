/** Wait queues: intrusive doubly linked lists of waiting tasks, several at a time. */
module WaitQueues {

  /** What a list is without one of its elements. */
  function Without<T>(s: seq<T>, k: nat): (r: seq<T>)
    requires k < |s|
    ensures forall n :: n in r ==> n in s
  {
    s[..k] + s[k + 1..]
  }

  // ------------------------------------------------------------ order of service

  /** What can happen to one queue: an arrival, a dequeue, or a removal from the middle. */
  datatype Op = Arrive | Serve | Leave(k: nat)

  /** A queue of arrivals numbered in order, and the arrivals served so far. */
  datatype Line = Line(waiting: seq<nat>, served: seq<nat>, next: nat)

  function Apply(l: Line, op: Op): (l': Line) {
    match op
    case Arrive => l.(waiting := l.waiting + [l.next], next := l.next + 1)
    case Serve => if l.waiting == [] then l else l.(waiting := l.waiting[1..], served := l.served + [l.waiting[0]])
    case Leave(k) => if k < |l.waiting| then l.(waiting := Without(l.waiting, k)) else l
  }

  /** A node is taken out of the line at `k`: served at the front, or removed anywhere. */
  predicate TakesOut(op: Op, k: nat) {
    op == Leave(k) || (op == Serve && k == 0)
  }

  lemma TakenOut(l: Line, op: Op, k: nat)
    requires TakesOut(op, k) && k < |l.waiting|
    ensures Apply(l, op).waiting == Without(l.waiting, k)
  {}

  predicate Ascending(s: seq<nat>) {
    forall i, j :: 0 <= i < j < |s| ==> s[i] < s[j]
  }

  predicate Below(s: seq<nat>, bound: nat) {
    forall i :: 0 <= i < |s| ==> s[i] < bound
  }

  predicate InTurn(l: Line) {
    Ascending(l.served + l.waiting) && Below(l.served + l.waiting, l.next)
  }

  lemma AscendingAppend(s: seq<nat>, n: nat)
    requires Ascending(s) && Below(s, n)
    ensures Ascending(s + [n]) && Below(s + [n], n + 1)
  {}

  lemma AscendingWithout(s: seq<nat>, k: nat, n: nat)
    requires Ascending(s) && Below(s, n) && k < |s|
    ensures Ascending(Without(s, k)) && Below(Without(s, k), n)
  {}

  lemma ApplyInTurn(l: Line, op: Op)
    requires InTurn(l)
    ensures InTurn(Apply(l, op))
  {
    hide Ascending, Below;
    var all, l' := l.served + l.waiting, Apply(l, op);
    var all' := l'.served + l'.waiting;
    match op
    case Arrive =>
      assert all' == all + [l.next];
      AscendingAppend(all, l.next);
    case Serve =>
      if l.waiting != [] {
        assert all' == all;
      }
    case Leave(k) =>
      if k < |l.waiting| {
        assert all' == Without(all, |l.served| + k);
        AscendingWithout(all, |l.served| + k, l.next);
      }
  }

  function ApplyAll(l: Line, ops: seq<Op>): (l': Line)
    decreases |ops|
  {
    if ops == [] then l else ApplyAll(Apply(l, ops[0]), ops[1..])
  }

  /** Whatever happens, nodes are served in the order they came. */
  lemma {:induction false} ServedInOrder(l: Line, ops: seq<Op>)
    requires InTurn(l)
    ensures InTurn(ApplyAll(l, ops)) && Ascending(ApplyAll(l, ops).served)
    decreases |ops|
  {
    if ops == [] {
      var all := l.served + l.waiting;
      forall i, j | 0 <= i < j < |l.served|
        ensures l.served[i] < l.served[j]
      {
        assert all[i] < all[j];
      }
    } else {
      ApplyInTurn(l, ops[0]);
      ServedInOrder(Apply(l, ops[0]), ops[1..]);
    }
  }

  // ------------------------------------------------------------ nodes and queues

  class WaitNode {
    var previous: WaitNode?
    var next: WaitNode?
    var queue: WaitQueue?
    var queued: bool
    /** The number of its last arrival. */
    ghost var ticket: nat

    constructor ()
      ensures previous == null && next == null && queue == null && !queued
    {
      previous, next, queue, queued := null, null, null, false;
    }

    /** In no queue and linked to nothing. */
    predicate Loose()
      reads this
    {
      !queued && queue == null && previous == null && next == null
    }
  }

  function At(nodes: seq<WaitNode>, i: int): (n: WaitNode?) {
    if 0 <= i < |nodes| then nodes[i] else null
  }

  class WaitQueue {
    var head: WaitNode?
    var tail: WaitNode?
    var count: nat
    /** The waiting nodes, first to last. */
    ghost var nodes: seq<WaitNode>
    /** The arrivals at this queue, by number: those still waiting and those served. */
    ghost var line: Line

    /** A node's links are its neighbours in the list. */
    ghost predicate Linked(i: nat)
      requires i < |nodes|
      reads this`nodes, nodes[i]
    {
      && nodes[i].queued && nodes[i].queue == this
      && nodes[i].previous == At(nodes, i - 1) && nodes[i].next == At(nodes, i + 1)
    }

    /** The nodes stand as their arrivals do. */
    ghost predicate InLine()
      reads this, nodes
    {
      |line.waiting| == |nodes| && InTurn(line) && forall i :: 0 <= i < |nodes| ==> nodes[i].ticket == line.waiting[i]
    }

    ghost predicate Chained()
      reads this`head, this`tail, this`count, this`nodes, nodes
    {
      && head == At(nodes, 0) && tail == At(nodes, |nodes| - 1) && count == |nodes|
      && (forall i: nat :: i < |nodes| ==> Linked(i))
      && (forall i, j :: 0 <= i < j < |nodes| ==> nodes[i] != nodes[j])
    }

    ghost predicate Valid()
      reads this, nodes
    {
      Chained() && InLine()
    }

    constructor ()
      ensures Valid() && nodes == [] && line == Line([], [], 0)
    {
      head, tail, count, nodes, line := null, null, 0, [], Line([], [], 0);
    }

    /** A node in no queue goes to the end. */
    method Enqueue(node: WaitNode) returns (ok: bool)
      requires Valid()
      requires !node.queued ==> node !in nodes
      modifies this, node, tail
      ensures Valid() && ok == !old(node.queued)
      ensures nodes == if ok then old(nodes) + [node] else old(nodes)
      ensures line == if ok then Apply(old(line), Arrive) else old(line)
      ensures ok ==> node.ticket == old(line).next
      ensures !ok ==> unchanged(this) && unchanged(node) && (tail != null ==> unchanged(tail))
    {
      if node.queued {
        return false;
      }
      node.previous, node.next, node.queue, node.queued := tail, null, this, true;
      if tail != null {
        tail.next := node;
      } else {
        head := node;
      }
      tail := node;
      count := count + 1;
      nodes := nodes + [node];
      ApplyInTurn(line, Arrive);
      node.ticket := line.next;
      line := Apply(line, Arrive);
      forall i: nat | i < |nodes|
        ensures Linked(i)
      {
        if i < |nodes| - 1 {
          assert old(Linked(i));
        }
      }
      return true;
    }

    /** A waiting node leaves, wherever it stands. */
    method Unlink(node: WaitNode, ghost k: nat)
      requires Chained() && k < |nodes| && nodes[k] == node
      modifies this`head, this`tail, this`count, this`nodes, node, node.previous, node.next
      ensures Chained() && nodes == Without(old(nodes), k) && node.Loose()
      ensures forall n :: n in old(nodes) ==> n.ticket == old(n.ticket)
    {
      assert Linked(k);
      if node.previous != null {
        node.previous.next := node.next;
      } else {
        head := node.next;
      }
      if node.next != null {
        node.next.previous := node.previous;
      } else {
        tail := node.previous;
      }
      node.previous, node.next, node.queue, node.queued := null, null, null, false;
      count := count - 1;
      nodes := Without(nodes, k);
      forall i: nat | i < |nodes|
        ensures Linked(i)
      {
        if i < k {
          assert old(Linked(i));
        } else {
          assert old(Linked(i + 1));
        }
      }
    }

    /** The same, with its arrival served or given up. */
    method Release(node: WaitNode, ghost k: nat, ghost op: Op)
      requires Valid() && k < |nodes| && nodes[k] == node && TakesOut(op, k)
      modifies this, node, node.previous, node.next
      ensures Valid() && nodes == Without(old(nodes), k) && node.Loose()
      ensures line == Apply(old(line), op)
    {
      hide InTurn, Apply, Chained;
      Unlink(node, k);
      ApplyInTurn(line, op);
      TakenOut(line, op, k);
      line := Apply(line, op);
    }
  }

  // ------------------------------------------------------------ all queues together

  /** Every queue is in order, and every node is in the queue it says it is in, or in none. */
  ghost predicate World(queues: set<WaitQueue>, nodes: set<WaitNode>)
    reads queues, nodes
  {
    && (forall q :: q in queues ==> (forall n :: n in q.nodes ==> n in nodes) && q.Valid())
    && (forall n :: n in nodes ==> Placed(n, queues))
  }

  ghost predicate Placed(n: WaitNode, queues: set<WaitQueue>)
    reads n, queues
  {
    if n.queued then n.queue != null && n.queue in queues && n in n.queue.nodes else n.Loose()
  }

  /** A node waits in at most one queue. */
  lemma InOneQueue(queues: set<WaitQueue>, nodes: set<WaitNode>, n: WaitNode, q: WaitQueue, r: WaitQueue)
    requires World(queues, nodes) && q in queues && r in queues && n in q.nodes && n in r.nodes
    ensures q == r && n.queued && n.queue == q
  {
    var i :| 0 <= i < |q.nodes| && q.nodes[i] == n;
    var j :| 0 <= j < |r.nodes| && r.nodes[j] == n;
    assert q.Linked(i) && r.Linked(j);
  }

  lemma Members(q: WaitQueue)
    requires q.Valid()
    ensures forall n :: n in q.nodes ==> n.queued && n.queue == q
    ensures q.tail != null ==> q.tail in q.nodes
    ensures q.head != null ==> |q.nodes| > 0 && q.head == q.nodes[0]
  {
    forall n | n in q.nodes
      ensures n.queued && n.queue == q
    {
      var i :| 0 <= i < |q.nodes| && q.nodes[i] == n;
      assert q.Linked(i);
    }
  }

  lemma Position(q: WaitQueue, n: WaitNode) returns (k: nat)
    requires q.Valid() && n in q.nodes
    ensures k < |q.nodes| && q.nodes[k] == n
    ensures n.previous != null ==> n.previous in q.nodes && n.previous != n
    ensures n.next != null ==> n.next in q.nodes && n.next != n
  {
    k :| 0 <= k < |q.nodes| && q.nodes[k] == n;
    assert q.Linked(k);
  }

  method Enqueue(q: WaitQueue, n: WaitNode, ghost queues: set<WaitQueue>, ghost nodes: set<WaitNode>) returns (ok: bool)
    requires World(queues, nodes) && q in queues && n in nodes
    modifies q, n, q.tail
    ensures World(queues, nodes) && ok == !old(n.queued)
    ensures q.nodes == if ok then old(q.nodes) + [n] else old(q.nodes)
    ensures q.line == if ok then Apply(old(q.line), Arrive) else old(q.line)
    ensures forall r :: r in queues && r != q ==> r.nodes == old(r.nodes) && r.line == old(r.line)
  {
    hide WaitQueue.Linked, InTurn, Apply;
    forall r | r in queues
      ensures forall m :: m in r.nodes ==> m.queued && m.queue == r
    {
      Members(r);
    }
    Members(q);
    ok := q.Enqueue(n);
    Members(q);
    forall m | m in nodes
      ensures Placed(m, queues)
    {
      assert old(Placed(m, queues));
      if m in q.nodes {
        assert m.queued && m.queue == q;
      }
    }
  }

  /** The node that has waited longest leaves. */
  method Dequeue(q: WaitQueue, ghost queues: set<WaitQueue>, ghost nodes: set<WaitNode>) returns (n: WaitNode?)
    requires World(queues, nodes) && q in queues
    modifies q, nodes
    ensures World(queues, nodes)
    ensures if |old(q.nodes)| == 0 then n == null && q.nodes == []
      else n == old(q.nodes)[0] && q.nodes == old(q.nodes)[1..] && n.Loose()
    ensures q.line == Apply(old(q.line), Serve)
    ensures forall r :: r in queues && r != q ==> r.nodes == old(r.nodes) && r.line == old(r.line)
  {
    n := q.head;
    if n != null {
      Members(q);
      Depart(q, n, 0, Serve, queues, nodes);
    }
  }

  /** A node leaves the queue it waits in, and only that one. */
  method Remove(q: WaitQueue, n: WaitNode, ghost queues: set<WaitQueue>, ghost nodes: set<WaitNode>)
    returns (removed: bool)
    requires World(queues, nodes) && q in queues && n in nodes
    modifies q, nodes
    ensures World(queues, nodes) && removed == (n in old(q.nodes))
    ensures removed ==> n.Loose() && exists k: nat ::
      && k < |old(q.nodes)| && old(q.nodes)[k] == n
      && q.nodes == Without(old(q.nodes), k) && q.line == Apply(old(q.line), Leave(k))
    ensures !removed ==> q.nodes == old(q.nodes) && q.line == old(q.line)
    ensures forall r :: r in queues && r != q ==> r.nodes == old(r.nodes) && r.line == old(r.line)
  {
    Members(q);
    removed := n.queued && n.queue == q;
    if removed {
      ghost var k := Position(q, n);
      Depart(q, n, k, Leave(k), queues, nodes);
    }
  }

  /** Unlinking one node leaves all other queues in order. */
  method Depart(q: WaitQueue, n: WaitNode, ghost k: nat, ghost op: Op, ghost queues: set<WaitQueue>,
                ghost nodes: set<WaitNode>)
    requires World(queues, nodes) && q in queues && k < |q.nodes| && q.nodes[k] == n && TakesOut(op, k)
    modifies q, nodes
    ensures World(queues, nodes) && n.Loose() && q.nodes == Without(old(q.nodes), k) && q.line == Apply(old(q.line), op)
    ensures forall r :: r in queues && r != q ==> r.nodes == old(r.nodes) && r.line == old(r.line)
  {
    hide WaitQueue.Linked, WaitQueue.Chained, WaitQueue.InLine, InTurn, Apply;
    forall r | r in queues
      ensures forall m :: m in r.nodes ==> m.queued && m.queue == r
    {
      Members(r);
    }
    ghost var i := Position(q, n);
    q.Release(n, k, op);
    Members(q);
  }

  /** The node to be served next came before all others that wait, and after all that were served. */
  lemma LongestWaiting(q: WaitQueue)
    requires q.Valid() && q.nodes != []
    ensures forall i :: 0 < i < |q.nodes| ==> q.nodes[0].ticket < q.nodes[i].ticket
    ensures Ascending(q.line.served) && forall i :: 0 <= i < |q.line.served| ==> q.line.served[i] < q.nodes[0].ticket
  {
    var l := q.line;
    var all, n := l.served + l.waiting, |l.served|;
    assert all[n] == l.waiting[0] == q.nodes[0].ticket by { assert q.Linked(0); }
    ServedInOrder(l, []);
    forall i | 0 < i < |q.nodes|
      ensures q.nodes[0].ticket < q.nodes[i].ticket
    {
      assert q.Linked(i);
      assert all[n] < all[n + i];
    }
    assert forall i :: 0 <= i < n ==> all[i] == l.served[i];
  }
}
