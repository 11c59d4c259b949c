/** The code of pthreads/pthread_cancel/workcrew.c on the linked queues of queue.c, each region a method proved against
    its step. What is ghost here is not in the program's memory: where each thread is, and what became of the nodes. */
module CrewMonitor {
  import opened Counting
  import opened LinkedNodes
  import opened LinkedQueue
  import opened Crew
  import opened CrewProofs

  /** The numbers that a consumer and a responder write into a work node; -1 before they do. */
  datatype Work = Work(jobnum: int, respnum: int)

  /** The nodes of a queue are among `all`, each at the place of its number. */
  ghost predicate Registered<T>(ns: seq<Node<T>>, all: seq<Node<T>>) {
    forall x | x in ns :: x.number < |all| && all[x.number] == x
  }

  // ---- what the protocol says about single nodes ----

  lemma InQueue(q: seq<nat>, v: nat)
    ensures v in q <==> Count(q, Is(v)) > 0
  {
    CountIsPositive(q, v);
  }

  lemma HeldNotQueued(s: State, t: nat, role: Role, v: nat)
    requires Inv(s) && InHands(s, t, role, v)
    ensures v < s.nodes && v !in s.wq && v !in s.jq
  {
    hide Count;
    assert Flow(s, v);
    RoleOf(s, t);
    CountPositive(s.threads, HeldAs(role, v));
    assert HeldAs(role, v)(s.threads[t]);
    InQueue(s.wq, v);
    InQueue(s.jq, v);
  }

  lemma NotInLog(log: seq<Pass>, v: nat)
    requires Count(log, Of(v)) == 0
    ensures forall p | p in log :: p.node != v
  {
    CountPositive(log, Of(v));
    forall p | p in log ensures p.node != v {
      var i :| 0 <= i < |log| && log[i] == p;
      assert !Of(v)(log[i]);
    }
  }

  /** A queued node has not been taken from that queue before, and is not in the other one. */
  lemma QueuedIsNew(s: State, v: nat)
    requires Inv(s)
    ensures v in s.wq ==> v < s.nodes && v !in s.jq && forall p | p in s.taken :: p.node != v
    ensures v in s.jq ==> v < s.nodes && v !in s.wq && forall p | p in s.answered :: p.node != v
  {
    hide Count;
    assert Flow(s, v);
    InQueue(s.wq, v);
    InQueue(s.jq, v);
    if v in s.wq { NotInLog(s.taken, v); }
    if v in s.jq { NotInLog(s.answered, v); }
  }

  lemma ExitingNotQueued(s: State, t: nat)
    requires Inv(s) && t < |s.threads| && s.threads[t].pc.Exiting?
    ensures t !in s.cq
  {
    hide Count;
    assert Exit(s, t);
    InQueue(s.cq, t);
  }

  lemma CreatedSoFar(s: State)
    requires Inv(s) && s.main.Creating?
    ensures s.numthreads == |s.threads| <= |s.roster|
  {
  }

  // ---- the steps as the regions take them ----

  lemma QueueStep(s: State, t: nat)
    requires Enabled(s, Run(t, {})) && (s.threads[t].pc.Ready? || s.threads[t].pc.Woken?)
    ensures t < |s.threads| && Next(s, Run(t, {})) == QueueRegion(s, t)
  {
  }

  lemma EndStep(s: State, t: nat)
    requires Enabled(s, Run(t, {})) && s.threads[t].pc.Ending?
    ensures t < |s.threads|
    ensures Next(s, Run(t, {})) == Move(if s.main.Asleep? then s.(main := Awake) else s, t, Gone)
  {
  }

  lemma JoinStep(s: State)
    requires Enabled(s, MainRun) && s.main.JoinWait?
    ensures s.main.t < |s.threads|
    ensures var counted := s.(numthreads := s.numthreads - 1, joined := s.joined + [s.main.t], main := Joining);
            Next(s, MainRun) == Move(counted, s.main.t, Joined)
  {
  }

  lemma NotNumbered<T>(x: Node<T>, ns: seq<Node<T>>)
    requires x.number !in NumbersOf(ns)
    ensures x !in ns
  {
    forall i | 0 <= i < |ns| ensures ns[i] != x { assert NumbersOf(ns)[i] in NumbersOf(ns); }
  }

  class WorkCrew {
    const roster: seq<Role>
    const wq: Queue<Work>
    var wActive: bool
    const jq: Queue<Work>
    var jActive: bool
    const cq: Queue<nat>
    var numthreads: int
    ghost var made: seq<Node<Work>>       // every work node allocated
    ghost var cleanups: seq<Node<nat>>    // the cleanup node of every thread
    ghost var threads: seq<Thread>
    ghost var main: Main
    ghost var total: int
    ghost var taken: seq<Pass>
    ghost var answered: seq<Pass>
    ghost var freed: seq<nat>
    ghost var enqueued: seq<nat>
    ghost var joined: seq<nat>

    ghost function View(): State
      reads this, wq, jq, cq
    {
      State(roster, NumbersOf(wq.nodes), wActive, NumbersOf(jq.nodes), jActive, NumbersOf(cq.nodes), threads, main,
            numthreads, total, |made|, taken, answered, freed, enqueued, joined)
    }

    ghost predicate Linked()
      reads this, wq, jq, cq, wq.nodes, jq.nodes, cq.nodes
    {
      && wq != jq && wq.Valid() && jq.Valid() && cq.Valid()
      && (forall v | 0 <= v < |made| :: made[v].number == v)
      && (forall t | 0 <= t < |cleanups| :: cleanups[t].number == t)
      && Registered(wq.nodes, made) && Registered(jq.nodes, made) && Registered(cq.nodes, cleanups)
      && |cleanups| == |threads|
    }

    /** The fields of the nodes hold the numbers that the protocol records. */
    ghost predicate Marked()
      reads this, made, cleanups
    {
      && (forall p | p in taken :: p.node < |made| && made[p.node].data.jobnum == p.thread)
      && (forall p | p in answered :: p.node < |made| && made[p.node].data.respnum == p.thread)
      && (forall t | 0 <= t < |cleanups| :: cleanups[t].data == t)
    }

    ghost predicate Valid()
      reads this, wq, jq, cq, wq.nodes, jq.nodes, cq.nodes, made, cleanups
    {
      Linked() && Marked() && Inv(View())
    }

    /** initialize_structs */
    constructor (crew: seq<Role>)
      ensures Valid() && View() == Init(crew)
    {
      roster := crew;
      wq := new Queue<Work>.Init();
      jq := new Queue<Work>.Init();
      cq := new Queue<nat>.Init();
      wActive, jActive, numthreads := true, true, 0;
      made, cleanups := [], [];
      threads, main, total := [], Creating, 0;
      taken, answered, freed, enqueued, joined := [], [], [], [], [];
      new;
      InvInit(crew);
    }

    ghost method MoveTo(t: nat, pc: Pc)
      requires t < |threads|
      modifies this`threads
      ensures threads == old(threads)[t := Thread(old(threads)[t].role, pc)]
    {
      threads := threads[t := Thread(threads[t].role, pc)];
    }

    // ---- producer ----

    /** One round of the for loop: a new node, put to the front. */
    method PutNew()
      requires Linked() && Marked()
      modifies this`made, wq
      ensures Linked() && Marked()
      ensures |made| == |old(made)| + 1 && |wq.nodes| == |old(wq.nodes)| + 1
      ensures NumbersOf(wq.nodes) == [|old(made)|] + old(NumbersOf(wq.nodes))
    {
      var mywork := new Node<Work>(Work(-1, -1), |made|);
      NumbersPut(mywork, wq.nodes);
      made := made + [mywork];
      wq.Put(mywork);
    }

    method Produce(t: nat)
      requires Valid() && Enabled(View(), Run(t, {})) && threads[t] == Thread(Producer, Ready)
      modifies this, wq
      ensures Valid() && View() == Next(old(View()), Run(t, {}))
    {
      InvStep(View(), Run(t, {}));
      hide Inv, Linked, Marked, PutNodes;
      if wActive {
        PutBatch();
        MoveThread(t, Notify);
      } else {
        MoveThread(t, Exiting);
      }
    }

    method PutBatch()
      requires Linked() && Marked()
      modifies this`made, wq
      ensures Linked() && Marked()
      ensures var s := old(View()); View() == s.(wq := PutNodes(s.wq, s.nodes, BATCH), nodes := s.nodes + BATCH)
      ensures |made| == |old(made)| + 6 && |wq.nodes| == |old(wq.nodes)| + 6
    {
      hide Linked, Marked;
      ghost var start, before := |made|, NumbersOf(wq.nodes);
      for x := 0 to BATCH
        invariant Linked() && Marked() && |made| == start + x && NumbersOf(wq.nodes) == PutNodes(before, start, x)
        invariant View() == old(View()).(wq := NumbersOf(wq.nodes), nodes := |made|)
        invariant |wq.nodes| == |old(wq.nodes)| + x
      {
        PutNew();
      }
    }

    /** Moving a thread touches no queue and no node. */
    ghost method MoveThread(t: nat, pc: Pc)
      requires t < |threads| && Linked() && Marked()
      modifies this`threads
      ensures Linked() && Marked()
      ensures View() == Move(old(View()), t, pc)
    {
      MoveTo(t, pc);
    }

    // ---- consumer and responder ----

    lemma HeadsMeanQueues()
      requires Linked()
      ensures wq.head == null <==> View().wq == []
      ensures jq.head == null <==> View().jq == []
      ensures cq.head == null <==> View().cq == []
    {
    }

    /** queue_get on the work queue, and the consumer's number written into the node. */
    method TakeWork(t: nat) returns (mywork: Node<Work>)
      requires Valid() && View().wq != []
      modifies wq, made, this`taken
      ensures Linked() && Marked()
      ensures var v := old(View()).wq[0]; v == mywork.number < |made| && made[v] == mywork
      ensures View() == old(View()).(wq := old(View()).wq[1..], taken := old(taken) + [Pass(mywork.number, t)])
    {
      QueuedIsNew(View(), wq.nodes[0].number);
      NumbersGet(wq.nodes);
      hide Inv, Marked;
      var node := wq.Get();
      MarkWork(node, t);
      mywork := node;
    }

    method MarkWork(mywork: Node<Work>, t: nat)
      requires Linked() && Marked() && mywork.number < |made| && made[mywork.number] == mywork
      requires forall p | p in taken :: p.node != mywork.number
      modifies mywork`data, this`taken
      ensures Linked() && Marked() && View() == old(View()).(taken := old(taken) + [Pass(mywork.number, t)])
    {
      mywork.data := mywork.data.(jobnum := t);
      taken := taken + [Pass(mywork.number, t)];
    }

    method TakeJob(t: nat) returns (myjob: Node<Work>)
      requires Valid() && View().jq != []
      modifies jq, made, this`answered
      ensures Linked() && Marked()
      ensures var v := old(View()).jq[0]; v == myjob.number < |made| && made[v] == myjob
      ensures View() == old(View()).(jq := old(View()).jq[1..], answered := old(answered) + [Pass(myjob.number, t)])
    {
      QueuedIsNew(View(), jq.nodes[0].number);
      NumbersGet(jq.nodes);
      hide Inv, Marked;
      var node := jq.Get();
      MarkJob(node, t);
      myjob := node;
    }

    method MarkJob(myjob: Node<Work>, t: nat)
      requires Linked() && Marked() && myjob.number < |made| && made[myjob.number] == myjob
      requires forall p | p in answered :: p.node != myjob.number
      modifies myjob`data, this`answered
      ensures Linked() && Marked() && View() == old(View()).(answered := old(answered) + [Pass(myjob.number, t)])
    {
      myjob.data := myjob.data.(respnum := t);
      answered := answered + [Pass(myjob.number, t)];
    }

    /** From the mutex of wq to the wait, to the unlock with a node in hand, or out of the loop. */
    method Consume(t: nat) returns (mywork: Node?<Work>)
      requires Valid() && Enabled(View(), Run(t, {}))
      requires threads[t].role == Consumer && (threads[t].pc.Ready? || threads[t].pc.Woken?)
      modifies this, wq, made
      ensures Valid() && View() == Next(old(View()), Run(t, {}))
      ensures mywork != null <==> threads[t].pc.Holding?
      ensures mywork != null ==> threads[t].pc.node == mywork.number < |made| && made[mywork.number] == mywork
    {
      hide Inv, Linked, Marked, Next, Enabled;
      InvStep(View(), Run(t, {}));
      QueueStep(View(), t);
      HeadsMeanQueues();
      mywork := null;
      if wq.head == null && wActive {
        MoveThread(t, Blocked);
      } else if !wActive {
        MoveThread(t, Exiting);
      } else {
        var node := TakeWork(t);
        mywork := node;
        MoveThread(t, Holding(node.number));
      }
    }

    method PassOn(t: nat, mywork: Node<Work>)
      requires Valid() && Enabled(View(), Run(t, {})) && threads[t] == Thread(Consumer, Holding(mywork.number))
      requires mywork.number < |made| && made[mywork.number] == mywork
      modifies this, jq, mywork`next
      ensures Valid() && View() == Next(old(View()), Run(t, {}))
    {
      InvStep(View(), Run(t, {}));
      PutJob(t, mywork);
      hide Inv, Linked, Marked;
      MoveThread(t, Notify);
    }

    /** queue_put on the job queue of the node that consumer t holds. */
    method PutJob(t: nat, mywork: Node<Work>)
      requires Valid() && InHands(View(), t, Consumer, mywork.number)
      requires mywork.number < |made| && made[mywork.number] == mywork
      modifies jq, mywork`next
      ensures Linked() && Marked()
      ensures View() == old(View()).(jq := [mywork.number] + old(View()).jq)
    {
      HeldNotQueued(View(), t, Consumer, mywork.number);
      NotNumbered(mywork, wq.nodes);
      NotNumbered(mywork, jq.nodes);
      NumbersPut(mywork, jq.nodes);
      hide Inv;
      jq.Put(mywork);
    }

    method Respond(t: nat) returns (myjob: Node?<Work>)
      requires Valid() && Enabled(View(), Run(t, {}))
      requires threads[t].role == Responder && (threads[t].pc.Ready? || threads[t].pc.Woken?)
      modifies this, jq, made
      ensures Valid() && View() == Next(old(View()), Run(t, {}))
      ensures myjob != null <==> threads[t].pc.Holding?
      ensures myjob != null ==> threads[t].pc.node == myjob.number < |made| && made[myjob.number] == myjob
    {
      hide Inv, Linked, Marked, Next, Enabled;
      InvStep(View(), Run(t, {}));
      QueueStep(View(), t);
      HeadsMeanQueues();
      myjob := null;
      if jq.head == null && jActive {
        MoveThread(t, Blocked);
      } else if !jActive {
        MoveThread(t, Exiting);
      } else {
        var node := TakeJob(t);
        myjob := node;
        MoveThread(t, Holding(node.number));
      }
    }

    ghost method Free(t: nat, myjob: nat)
      requires Valid() && Enabled(View(), Run(t, {})) && threads[t] == Thread(Responder, Holding(myjob))
      modifies this
      ensures Valid() && View() == Next(old(View()), Run(t, {}))
    {
      InvStep(View(), Run(t, {}));
      hide Inv, Linked, Marked;
      NoteFreed(myjob);
      MoveThread(t, Ready);
    }

    ghost method NoteFreed(myjob: nat)
      requires Linked() && Marked()
      modifies this`freed
      ensures Linked() && Marked() && View() == old(View()).(freed := old(freed) + [myjob])
    {
      freed := freed + [myjob];
    }

    /** pthread_cond_signal on the queue that thread t has just filled. */
    ghost method SignalQueue(t: nat, woken: set<nat>)
      requires Valid() && Enabled(View(), Run(t, woken)) && threads[t].pc.Notify?
      modifies this
      ensures Valid() && View() == Next(old(View()), Run(t, woken))
    {
      InvStep(View(), Run(t, woken));
      hide Inv, Linked, Marked, Reached;
      var target := Target(threads[t].role);
      MoveThread(t, Ready);
      WakeThreads(Rouse(threads, target, woken));
    }

    ghost method WakeThreads(r: seq<Thread>)
      requires |r| == |threads| && Linked() && Marked()
      modifies this`threads
      ensures Linked() && Marked() && View() == old(View()).(threads := r)
    {
      threads := r;
    }

    // ---- the end of every thread ----

    method PutCleanup(t: nat, mynode: Node<nat>)
      requires Valid() && Enabled(View(), Run(t, {})) && threads[t].pc.Exiting? && mynode == cleanups[t]
      modifies this, cq, mynode`next
      ensures Valid() && View() == Next(old(View()), Run(t, {}))
    {
      InvStep(View(), Run(t, {}));
      ExitingNotQueued(View(), t);
      NotNumbered(mynode, cq.nodes);
      hide Inv, Linked, Marked;
      PutExit(t, mynode);
      MoveThread(t, Ending);
    }

    method PutExit(t: nat, mynode: Node<nat>)
      requires Linked() && Marked() && t < |cleanups| && mynode == cleanups[t] && mynode !in cq.nodes
      modifies cq, mynode`next, this`enqueued
      ensures Linked() && Marked()
      ensures View() == old(View()).(cq := [t] + old(View()).cq, enqueued := old(enqueued) + [t])
    {
      NumbersPut(mynode, cq.nodes);
      cq.Put(mynode);
      enqueued := enqueued + [t];
    }

    ghost method SignalCleanup(t: nat)
      requires Valid() && Enabled(View(), Run(t, {})) && threads[t].pc.Ending?
      modifies this
      ensures Valid() && View() == Next(old(View()), Run(t, {}))
    {
      InvStep(View(), Run(t, {}));
      EndStep(View(), t);
      hide Inv, Linked, Marked, Next, Enabled, Move;
      if main.Asleep? { SetMain(Awake); }
      MoveThread(t, Gone);
    }

    // ---- main ----

    /** One round of create_threads, or, when all are started, control_deactivate(&wq.control) up to its broadcast. */
    method CreateOrStop()
      requires Valid() && main.Creating?
      modifies this
      ensures Valid() && View() == Next(old(View()), MainRun)
    {
      InvStep(View(), MainRun);
      CreatedSoFar(View());
      hide Inv, Linked, Marked;
      if numthreads < |roster| {
        StartThread();
      } else {
        Deactivate(true);
        SetMain(BroadcastWork);
      }
    }

    method StartThread()
      requires Linked() && Marked() && 0 <= numthreads == |threads| < |roster|
      modifies this`cleanups, this`threads, this`numthreads
      ensures Linked() && Marked()
      ensures View() == old(View()).(threads := old(threads) + [Thread(roster[|old(threads)|], Ready)],
                                     numthreads := old(numthreads) + 1)
    {
      var curnode := new Node<nat>(numthreads, |threads|);
      cleanups := cleanups + [curnode];
      threads := threads + [Thread(roster[|threads|], Ready)];
      numthreads := numthreads + 1;
    }

    /** The broadcast on wq, and control_deactivate(&jq.control) around its own mutex. */
    method StopResponders()
      requires Valid() && main.StopJobs?
      modifies this
      ensures Valid() && View() == Next(old(View()), MainRun)
    {
      InvStep(View(), MainRun);
      hide Inv, Linked, Marked;
      Deactivate(false);
      SetMain(BroadcastJobs);
    }

    /** The mutex-held part of control_deactivate. */
    method Deactivate(work: bool)
      requires Linked() && Marked()
      modifies this`wActive, this`jActive
      ensures Linked() && Marked()
      ensures View() == if work then old(View()).(wActive := false) else old(View()).(jActive := false)
    {
      if work { wActive := false; } else { jActive := false; }
    }

    ghost method Broadcast()
      requires Valid() && (main.BroadcastWork? || main.BroadcastJobs?)
      modifies this
      ensures Valid() && View() == Next(old(View()), MainRun)
    {
      InvStep(View(), MainRun);
      hide Inv, Linked, Marked;
      if main.BroadcastWork? {
        WakeThreads(RouseAll(threads, Consumer));
        SetMain(StopJobs);
      } else {
        WakeThreads(RouseAll(threads, Responder));
        StartJoining();
      }
    }

    ghost method StartJoining()
      requires Linked() && Marked()
      modifies this`main, this`total
      ensures Linked() && Marked() && View() == old(View()).(main := Joining, total := numthreads)
    {
      total := numthreads;
      main := Joining;
    }

    /** The mutex-held part of one round of join_threads: a cleanup node, or none when main sleeps or is done. */
    method NextToJoin() returns (curnode: Node?<nat>)
      requires Valid() && (main.Joining? || main.Awake?)
      modifies this, cq
      ensures Valid() && View() == Next(old(View()), MainRun)
      ensures curnode != null <==> main.JoinWait?
      ensures curnode != null ==> main.t == curnode.number == curnode.data && curnode == cleanups[main.t]
    {
      InvStep(View(), MainRun);
      HeadsMeanQueues();
      assert main.Awake? ==> numthreads > 0;
      hide Inv, Linked, Marked;
      curnode := null;
      if numthreads == 0 {
        SetMain(Leaving(total));
      } else if cq.head == null {
        SetMain(Asleep);
      } else {
        curnode := TakeCleanup();
        SetMain(JoinWait(curnode.number));
      }
    }

    ghost method SetMain(m: Main)
      requires Linked() && Marked()
      modifies this`main
      ensures Linked() && Marked() && View() == old(View()).(main := m)
    {
      main := m;
    }

    /** queue_get on the cleanup queue. */
    method TakeCleanup() returns (curnode: Node<nat>)
      requires Linked() && Marked() && View().cq != []
      modifies cq
      ensures Linked() && Marked()
      ensures var t := old(View()).cq[0]; t == curnode.number == curnode.data < |cleanups| && curnode == cleanups[t]
      ensures View() == old(View()).(cq := old(View()).cq[1..])
    {
      NumbersGet(cq.nodes);
      var node := cq.Get();
      curnode := node;
    }

    /** After pthread_join. */
    method AfterJoin(curnode: Node<nat>)
      requires Valid() && Enabled(View(), MainRun) && main == JoinWait(curnode.number)
      modifies this
      ensures Valid() && View() == Next(old(View()), MainRun)
    {
      hide Inv, Linked, Marked, Next, Enabled, Move;
      InvStep(View(), MainRun);
      JoinStep(View());
      CountOut(curnode.number);
      MoveThread(curnode.number, Joined);
    }

    method CountOut(ghost t: nat)
      requires Linked() && Marked()
      modifies this`numthreads, this`joined, this`main
      ensures Linked() && Marked() && threads == old(threads)
      ensures View() == old(View()).(numthreads := old(numthreads) - 1, joined := old(joined) + [t], main := Joining)
    {
      joined := joined + [t];
      numthreads := numthreads - 1;
      main := Joining;
    }
  }
}
