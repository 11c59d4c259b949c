/** The linked queue of pthreads/pthread_cancel/queue.c. Both ends of its traffic are at the front. */
module LinkedQueue {
  import opened LinkedNodes

  class Queue<T> {
    var head: Node?<T>
    var tail: Node?<T>
    /** The nodes from the head on. */
    ghost var nodes: seq<Node<T>>

    /** Nothing is said of the tail: Init clears it, and it then stays NULL, since Put moves it only when it is set. */
    ghost predicate Valid()
      reads this, nodes
    {
      && head == (if nodes == [] then null else nodes[0])
      && (forall i, j | 0 <= i < j < |nodes| :: nodes[i] != nodes[j])
      && (forall i {:trigger nodes[i].next} | 0 <= i < |nodes| ::
            nodes[i].next == if i + 1 < |nodes| then nodes[i + 1] else null)
    }

    constructor Init()
      ensures Valid() && nodes == [] && tail == null
    {
      head, tail, nodes := null, null, [];
    }

    method Put(mynode: Node<T>)
      requires Valid() && mynode !in nodes
      modifies this, mynode`next
      ensures Valid() && nodes == [mynode] + old(nodes)
      ensures tail == if old(tail) == null then null else mynode
    {
      mynode.next := head;
      head := mynode;
      if tail != null { tail := mynode; }
      nodes := [mynode] + nodes;
    }

    /** NULL exactly on the empty queue; the node that is returned keeps its link. */
    method Get() returns (mynode: Node?<T>)
      requires Valid()
      modifies this
      ensures Valid() && tail == old(tail)
      ensures mynode == null <==> old(nodes) == []
      ensures nodes == if old(nodes) == [] then [] else old(nodes)[1..]
      ensures mynode != null ==> mynode == old(nodes)[0] && mynode !in nodes
    {
      mynode := head;
      if mynode != null {
        head := head.next;
        nodes := nodes[1..];
      }
    }
  }

  /** The contents after putting xs one after the other. */
  function AfterPuts<T>(q: seq<T>, xs: seq<T>): seq<T>
    decreases |xs|
  {
    if xs == [] then q else AfterPuts([xs[0]] + q, xs[1..])
  }

  lemma {:induction false} AfterPutsAt<T>(q: seq<T>, xs: seq<T>, i: nat)
    requires i < |xs| + |q|
    ensures |AfterPuts(q, xs)| == |xs| + |q|
    ensures AfterPuts(q, xs)[i] == if i < |xs| then xs[|xs| - 1 - i] else q[i - |xs|]
    decreases |xs|
  {
    if xs != [] {
      AfterPutsAt([xs[0]] + q, xs[1..], i);
    }
  }

  /** The queue is a stack: distinct nodes come out in the order they went in only when there is at most one. */
  lemma ArrivalOrderIff<T>(xs: seq<T>)
    requires forall i, j | 0 <= i < j < |xs| :: xs[i] != xs[j]
    ensures AfterPuts([], xs) == xs <==> |xs| <= 1
  {
    if xs == [] {
      assert AfterPuts([], xs) == [];
    } else {
      hide AfterPuts;
      var r := AfterPuts([], xs);
      AfterPutsAt([], xs, 0);
      assert |r| == |xs| && r[0] == xs[|xs| - 1];
      assert |xs| == 1 ==> r == [r[0]] && xs == [xs[0]];
    }
  }
}
