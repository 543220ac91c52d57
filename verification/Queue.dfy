/**
 * The singly linked FIFO of utils/queue.ts as a heap class.
 * The ghost field `spine` lists the nodes reachable from `head`.
 */
module Queues {
  import opened Common

  class Node<T> {
    const value: T
    var next: Node?<T>

    constructor (value: T, next: Node?<T>)
      ensures this.value == value && this.next == next
    {
      this.value := value;
      this.next := next;
    }
  }

  /** The values held by a list of nodes, in order. */
  ghost function Values<T>(nodes: seq<Node<T>>): (r: seq<T>) {
    seq(|nodes|, i requires 0 <= i < |nodes| => nodes[i].value)
  }

  lemma ValuesPrepend<T>(node: Node<T>, nodes: seq<Node<T>>)
    ensures Values([node] + nodes) == [node.value] + Values(nodes)
  {
  }

  /** The node at index `i`, or null past the end. */
  ghost function Nth<T>(nodes: seq<Node<T>>, i: nat): (r: Node?<T>) {
    if i < |nodes| then nodes[i] else null
  }

  class Queue<T> {
    var head: Node?<T>
    var tail: Node?<T>
    var size: nat
    ghost var spine: seq<Node<T>>

    /** `head` starts the spine, `next` links it, `tail` ends it and `size` counts it. */
    ghost predicate Valid()
      reads this, spine
    {
      && size == |spine|
      && head == Nth(spine, 0)
      && tail == (if spine == [] then null else spine[|spine| - 1])
      && (forall i :: 0 <= i < |spine| ==> spine[i].next == Nth(spine, i + 1))
      && (forall i, j :: 0 <= i < j < |spine| ==> spine[i] != spine[j])
    }

    ghost function Contents(): (r: seq<T>)
      reads this
    {
      Values(spine)
    }

    ghost function Repr(): (r: set<object>)
      reads this
    {
      {this} + set n: object | n in spine
    }

    constructor ()
      ensures Valid() && Contents() == [] && Repr() == {this}
    {
      head, tail, size := null, null, 0;
      spine := [];
    }

    method Clear()
      modifies this
      ensures Valid() && Contents() == [] && Repr() == {this}
    {
      head, tail, size := null, null, 0;
      spine := [];
    }

    method Enqueue(value: T)
      requires Valid()
      modifies Repr()
      ensures Valid() && Contents() == old(Contents()) + [value]
      ensures fresh(Repr() - old(Repr()))
    {
      var last := tail;
      var node := new Node(value, null);
      if last != null {
        last.next := node;
      } else {
        head := node;
      }
      tail := node;
      size := size + 1;
      spine := spine + [node];
    }

    method EnqueueFront(value: T)
      requires Valid()
      modifies this
      ensures Valid() && Contents() == [value] + old(Contents())
      ensures fresh(Repr() - old(Repr()))
    {
      var first := head;
      var node := new Node(value, first);
      if first == null {
        tail := node;
      }
      head := node;
      size := size + 1;
      ghost var was := spine;
      spine := [node] + was;
      ValuesPrepend(node, was);
      hide Values;
      forall i | 0 <= i < |spine|
        ensures spine[i].next == Nth(spine, i + 1)
      {
        if i > 0 {
          assert spine[i] == was[i - 1];
        }
      }
    }

    /** `None` stands for the `undefined` an empty queue returns. */
    method Dequeue() returns (r: Option<T>)
      requires Valid()
      modifies this
      ensures Valid()
      ensures r == if old(Contents()) == [] then None else Some(old(Contents())[0])
      ensures Contents() == if old(Contents()) == [] then [] else old(Contents())[1..]
      ensures Repr() <= old(Repr())
    {
      var first := head;
      if first == null {
        return None;
      }
      var next := first.next;
      head := next;
      if next == null {
        tail := null;
      }
      size := size - 1;
      ghost var was := spine;
      spine := was[1..];
      assert forall i :: 0 <= i ==> Nth(spine, i) == Nth(was, i + 1);
      assert forall i :: 0 <= i < |spine| ==> spine[i] == was[i + 1] && spine[i].next == Nth(was, i + 2);
      r := Some(first.value);
    }

    method Peek() returns (r: Option<T>)
      requires Valid()
      ensures r == if Contents() == [] then None else Some(Contents()[0])
    {
      r := if head == null then None else Some(head.value);
    }

    /** A caller that takes at most `limit` values from the draining iterator, each as `Dequeue` does. */
    method Drain(limit: nat) returns (taken: seq<T>)
      requires Valid()
      modifies this
      ensures Valid() && Repr() <= old(Repr())
      ensures |taken| == Min(limit, |old(Contents())|)
      ensures old(Contents()) == taken + Contents()
    {
      taken := [];
      while |taken| < limit && head != null
        invariant Valid() && Repr() <= old(Repr())
        invariant |taken| <= limit
        invariant old(Contents()) == taken + Contents()
        decreases limit - |taken|
      {
        var v := Dequeue();
        taken := taken + [v.value];
      }
    }

    /** The non-draining iterator, run to its end. */
    method Iterate() returns (all: seq<T>)
      requires Valid()
      ensures all == Contents()
    {
      var current := head;
      all := [];
      while current != null
        invariant |all| <= |spine|
        invariant current == Nth(spine, |all|)
        invariant all == Contents()[..|all|]
        decreases |spine| - |all|
      {
        all := all + [current.value];
        current := current.next;
      }
    }
  }

  // ---------------------------------------------------------------------------------
  // The same operations on a plain sequence

  datatype Op<T> = Enqueue(value: T) | EnqueueFront(value: T) | Dequeue | Clear | Drain(limit: nat)

  /** What `op` leaves in the queue. */
  function After<T>(s: seq<T>, op: Op<T>): (r: seq<T>) {
    match op
    case Enqueue(x) => s + [x]
    case EnqueueFront(x) => [x] + s
    case Dequeue => s[Min(1, |s|)..]
    case Clear => []
    case Drain(limit) => s[Min(limit, |s|)..]
  }

  /** What `op` hands to its caller. */
  function Out<T>(s: seq<T>, op: Op<T>): (r: seq<T>) {
    match op
    case Dequeue => s[..Min(1, |s|)]
    case Drain(limit) => s[..Min(limit, |s|)]
    case _ => []
  }

  function AfterAll<T>(s: seq<T>, ops: seq<Op<T>>): (r: seq<T>)
    decreases |ops|
  {
    if ops == [] then s else AfterAll(After(s, ops[0]), ops[1..])
  }

  function OutAll<T>(s: seq<T>, ops: seq<Op<T>>): (r: seq<T>)
    decreases |ops|
  {
    if ops == [] then [] else Out(s, ops[0]) + OutAll(After(s, ops[0]), ops[1..])
  }

  lemma {:induction false} RunStep<T>(s: seq<T>, done: seq<Op<T>>, op: Op<T>)
    ensures AfterAll(s, done + [op]) == After(AfterAll(s, done), op)
    ensures OutAll(s, done + [op]) == OutAll(s, done) + Out(AfterAll(s, done), op)
    decreases |done|
  {
    if done == [] {
      assert done + [op] == [op];
    } else {
      var now := After(s, done[0]);
      assert (done + [op])[1..] == done[1..] + [op];
      RunStep(now, done[1..], op);
      Associate(Out(s, done[0]), OutAll(now, done[1..]), Out(AfterAll(s, done), op));
    }
  }

  method Perform<T>(q: Queue<T>, op: Op<T>) returns (out: seq<T>)
    requires q.Valid()
    modifies q.Repr()
    ensures q.Valid() && fresh(q.Repr() - old(q.Repr()))
    ensures q.Contents() == After(old(q.Contents()), op)
    ensures out == Out(old(q.Contents()), op)
  {
    out := [];
    match op {
      case Enqueue(x) =>
        q.Enqueue(x);
      case EnqueueFront(x) =>
        q.EnqueueFront(x);
      case Dequeue =>
        var v := q.Dequeue();
        if v.Some? {
          out := [v.value];
        }
      case Clear =>
        q.Clear();
      case Drain(limit) =>
        out := q.Drain(limit);
    }
  }

  /** Any interleaving of operations on the linked queue gives the results it gives on a sequence. */
  method Run<T>(q: Queue<T>, ops: seq<Op<T>>) returns (out: seq<T>)
    requires q.Valid()
    modifies q.Repr()
    ensures q.Valid() && fresh(q.Repr() - old(q.Repr()))
    ensures q.Contents() == AfterAll(old(q.Contents()), ops)
    ensures out == OutAll(old(q.Contents()), ops)
  {
    hide After, Out, Min, Values, Nth;
    ghost var start := q.Contents();
    out := [];
    for i := 0 to |ops|
      invariant q.Valid() && fresh(q.Repr() - old(q.Repr()))
      invariant q.Contents() == AfterAll(start, ops[..i])
      invariant out == OutAll(start, ops[..i])
    {
      assert ops[..i + 1] == ops[..i] + [ops[i]];
      RunStep(start, ops[..i], ops[i]);
      var taken := Perform(q, ops[i]);
      out := out + taken;
    }
    assert ops[..|ops|] == ops;
  }

  /** The values `ops` puts at the back. */
  function Enqueued<T>(ops: seq<Op<T>>): (r: seq<T>) {
    if ops == [] then [] else (if ops[0].Enqueue? then [ops[0].value] else []) + Enqueued(ops[1..])
  }

  lemma Conserve<T>(s: seq<T>, op: Op<T>)
    requires !op.EnqueueFront? && !op.Clear?
    ensures Out(s, op) + After(s, op) == s + if op.Enqueue? then [op.value] else []
  {
  }

  /** First in, first out: without `enqueueFront` and `clear`, nothing is lost, doubled or reordered. */
  lemma {:induction false} FirstInFirstOut<T>(s: seq<T>, ops: seq<Op<T>>)
    requires forall i :: 0 <= i < |ops| ==> !ops[i].EnqueueFront? && !ops[i].Clear?
    ensures OutAll(s, ops) + AfterAll(s, ops) == s + Enqueued(ops)
    decreases |ops|
  {
    if ops == [] {
    } else {
      var op, rest := ops[0], ops[1..];
      var now, out := After(s, op), Out(s, op);
      var put := if op.Enqueue? then [op.value] else [];
      FirstInFirstOut(now, rest);
      Conserve(s, op);
      Associate(out, OutAll(now, rest), AfterAll(now, rest));
      Associate(out, now, Enqueued(rest));
      Associate(s, put, Enqueued(rest));
    }
  }

  lemma Associate<T>(a: seq<T>, b: seq<T>, c: seq<T>)
    ensures (a + b) + c == a + (b + c)
  {
  }
}
