/** The two linked lists of a pool in pthreads/thr_pool.c: queued jobs, and workers that perform one. */
module PoolLists {
  import opened SeqEdits
  import opened LinkedNodes

  /** A job and its link; the number stands for the function and its argument. */
  type Job = Node<nat>

  /** pool_head and pool_tail. */
  class JobQueue {
    var head: Node?<nat>
    var tail: Node?<nat>
    ghost var list: seq<Job>

    ghost predicate Valid()
      reads this, list
    {
      && head == (if list == [] then null else list[0])
      && tail == (if list == [] then null else list[|list| - 1])
      && (forall i, j | 0 <= i < j < |list| :: list[i] != list[j])
      && (forall i {:trigger list[i].next} | 0 <= i < |list| ::
            list[i].next == if i + 1 < |list| then list[i + 1] else null)
    }

    constructor ()
      ensures Valid() && list == []
    {
      head, tail, list := null, null, [];
    }

    method Append(job: Job)
      requires Valid() && job !in list && job.next == null
      modifies this, list
      ensures Valid() && list == old(list) + [job]
    {
      if head == null {
        head := job;
      } else {
        tail.next := job;
      }
      tail := job;
      list := list + [job];
    }

    /** Takes the first job; the tail is cleared with the last one. */
    method Take() returns (job: Job)
      requires Valid() && list != []
      modifies this
      ensures Valid() && [job] + list == old(list)
    {
      job := head;
      head := job.next;
      if job == tail { tail := null; }
      list := list[1..];
    }
  }

  /** The entry of a worker in the active list; every worker has one, on its stack. */
  class Active {
    var next: Active?
    const tid: nat

    constructor (t: nat)
      ensures next == null && tid == t
    {
      next, tid := null, t;
    }
  }

  function Tids(s: seq<Active>): (r: seq<nat>)
    ensures |r| == |s| && forall i | 0 <= i < |s| :: r[i] == s[i].tid
  {
    seq(|s|, i requires 0 <= i < |s| => s[i].tid)
  }

  /** pool_active. */
  class ActiveList {
    var first: Active?
    ghost var list: seq<Active>

    ghost predicate Valid()
      reads this, list
    {
      && first == (if list == [] then null else list[0])
      && (forall i, j | 0 <= i < j < |list| :: list[i] != list[j])
      && (forall i {:trigger list[i].next} | 0 <= i < |list| ::
            list[i].next == if i + 1 < |list| then list[i + 1] else null)
    }

    constructor ()
      ensures Valid() && list == []
    {
      first, list := null, [];
    }

    method Push(a: Active)
      requires Valid() && a !in list
      modifies this, a`next
      ensures Valid() && list == [a] + old(list)
    {
      a.next := first;
      first := a;
      list := [a] + list;
    }

    /** The walk of job_cleanup: unlinks the first entry of thread t, or nothing when there is none. */
    method Remove(t: nat) returns (ghost i: nat)
      requires Valid()
      modifies this, list
      ensures Valid() && i <= |old(list)|
      ensures forall k | 0 <= k < i :: old(list)[k].tid != t
      ensures i == |old(list)| ==> list == old(list)
      ensures i < |old(list)| ==> old(list)[i].tid == t && list == Removed(old(list), i)
    {
      var prev: Active?, cur := null, first;
      i := 0;
      while cur != null && cur.tid != t
        invariant 0 <= i <= |list| && cur == (if i < |list| then list[i] else null)
        invariant prev == (if i == 0 then null else list[i - 1])
        invariant forall k | 0 <= k < i :: list[k].tid != t
        decreases |list| - i
      {
        assert list[i].next == if i + 1 < |list| then list[i + 1] else null;
        prev := cur;
        cur := cur.next;
        i := i + 1;
      }
      if cur != null { Unhook(prev, cur, i); }
    }

    /** The store through the pointer to the link that holds entry i. */
    method Unhook(prev: Active?, cur: Active, ghost i: nat)
      requires Valid() && i < |list| && cur == list[i] && prev == if i == 0 then null else list[i - 1]
      modifies this, list
      ensures Valid() && list == Removed(old(list), i)
    {
      ghost var s := list;
      assert s[i].next == if i + 1 < |s| then s[i + 1] else null;
      if prev == null {
        first := cur.next;
      } else {
        prev.next := cur.next;
      }
      list := Removed(list, i);
      assert forall k {:trigger s[k].next} | 0 <= k < |s| && k != i && k != i - 1 ::
          s[k].next == if k + 1 < |s| then s[k + 1] else null;
    }
  }
}
