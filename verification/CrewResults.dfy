/** What the work crew guarantees: conservation of work nodes, and a shutdown that joins every thread once. */
module CrewResults {
  import opened Counting
  import opened Crew
  import opened CrewProofs

  /** An allocated node is in one place: a queue, the hands of one thread, or freed; no other node is anywhere. */
  lemma OnePlace(roster: seq<Role>, es: seq<Event>, s: State, v: nat)
    requires Reaches(roster, es, s)
    ensures Count(s.wq, Is(v)) + Count(s.threads, HeldAs(Consumer, v)) + Count(s.jq, Is(v))
          + Count(s.threads, HeldAs(Responder, v)) + Count(s.freed, Is(v)) == if v < s.nodes then 1 else 0
  {
    hide Reaches, Count;
    InvReached(roster, es, s);
    assert Flow(s, v);
  }

  lemma {:induction false} CountOne(log: seq<Pass>, v: nat)
    requires Count(log, Of(v)) == 1
    ensures exists c: nat :: Pass(v, c) in log && forall d: nat | Pass(v, d) in log :: d == c
  {
    var n := |log| - 1;
    var x := log[n];
    assert log == log[..n] + [x];
    if x.node == v {
      CountPositive(log[..n], Of(v));
      forall i | 0 <= i < n ensures log[i].node != v {
        assert !Of(v)(log[..n][i]);
      }
      assert Pass(v, x.thread) in log;
    } else {
      CountOne(log[..n], v);
    }
  }

  /** A node that is freed was handled by exactly one consumer, then by exactly one responder. */
  lemma HandledOnce(roster: seq<Role>, es: seq<Event>, s: State, v: nat)
    requires Reaches(roster, es, s) && v in s.freed
    ensures Count(s.taken, Of(v)) == 1 && Count(s.answered, Of(v)) == 1 && Count(s.freed, Is(v)) == 1
    ensures exists c: nat :: Handles(s, Pass(v, c), Consumer) && forall d: nat :: Pass(v, d) in s.taken <==> d == c
    ensures exists c: nat :: Handles(s, Pass(v, c), Responder) && forall d: nat :: Pass(v, d) in s.answered <==> d == c
  {
    hide Reaches, Count;
    InvReached(roster, es, s);
    assert Flow(s, v);
    CountIsPositive(s.freed, v);
    CountOne(s.taken, v);
    CountOne(s.answered, v);
    var c: nat :| Pass(v, c) in s.taken && forall d: nat | Pass(v, d) in s.taken :: d == c;
    assert Handles(s, Pass(v, c), Consumer);
    var d: nat :| Pass(v, d) in s.answered && forall c: nat | Pass(v, c) in s.answered :: c == d;
    assert Handles(s, Pass(v, d), Responder);
  }

  /** Whoever has a node in hand is the one whose number is in it. */
  lemma HolderIsRecorded(roster: seq<Role>, es: seq<Event>, s: State, t: nat, v: nat, role: Role)
    requires Reaches(roster, es, s) && InHands(s, t, role, v)
    ensures role != Producer && forall u: nat :: Pass(v, u) in LogOf(s, role) <==> u == t
  {
    hide Reaches, Count;
    InvReached(roster, es, s);
    assert Flow(s, v);
    RoleOf(s, t);
    HeldPositive(s, t, role, v);
    CountOne(LogOf(s, role), v);
  }

  lemma HeldPositive(s: State, t: nat, role: Role, v: nat)
    requires InHands(s, t, role, v)
    ensures Count(s.threads, HeldAs(role, v)) > 0
  {
    CountPositive(s.threads, HeldAs(role, v));
    assert HeldAs(role, v)(s.threads[t]);
  }

  /** While a queue is active, holds work, and has a thread to serve it, some thread is about to look at it or to
      signal it. */
  lemma NoStall(roster: seq<Role>, es: seq<Event>, s: State, t: nat, role: Role)
    requires Reaches(roster, es, s) && role != Producer && ActiveOf(s, role) && QueueOf(s, role) != []
    requires t < |s.threads| && s.threads[t].role == role
    ensures exists u: nat :: Stirring(s, u, role)
  {
    hide Reaches;
    InvReached(roster, es, s);
    if !BlockedAs(s, t, role) {
      assert !OnWayOut(s.threads[t].pc);
      assert Stirring(s, t, role);
    }
  }

  // ---- shutdown ----

  /** From the broadcast on the work queue on no consumer is blocked, and from the one on the job queue on nobody is. */
  lemma NobodyBlocked(roster: seq<Role>, es: seq<Event>, s: State, t: nat)
    requires Reaches(roster, es, s) && t < |s.threads|
    ensures !s.main.Creating? && !s.main.BroadcastWork? ==> s.threads[t] != Thread(Consumer, Blocked)
    ensures ShutDown(s) ==> !s.threads[t].pc.Blocked?
  {
    hide Reaches;
    InvReached(roster, es, s);
    assert RoleAllows(s.threads[t]);
    if !s.main.Creating? && !s.main.BroadcastWork? { assert !BlockedAs(s, t, Consumer); }
    if ShutDown(s) { assert !BlockedAs(s, t, Responder); }
  }

  /** Every thread puts its cleanup node at most once and is joined at most once, after it has ended. */
  lemma ExitsOnce(roster: seq<Role>, es: seq<Event>, s: State, t: nat)
    requires Reaches(roster, es, s)
    ensures Count(s.joined, Is(t)) <= Count(s.enqueued, Is(t)) <= 1
    ensures t < |s.threads| && s.threads[t].pc.Gone? ==> Count(s.enqueued, Is(t)) == 1 && Count(s.joined, Is(t)) == 0
    ensures Count(s.joined, Is(t)) == 1 <==> t < |s.threads| && s.threads[t].pc.Joined?
  {
    hide Reaches, Count;
    InvReached(roster, es, s);
    assert Exit(s, t);
  }

  /** When join_threads returns, it returns the number of threads created; each has ended and was joined once. */
  lemma JoinsAll(roster: seq<Role>, es: seq<Event>, s: State, t: nat)
    requires Reaches(roster, es, s) && (s.main.Leaving? || s.main.Destroyed?)
    ensures s.numthreads == 0 && |s.threads| == |roster| && (s.main.Leaving? ==> s.main.result == |roster|)
    ensures t < |roster| ==> s.threads[t].pc.Joined? && Count(s.joined, Is(t)) == 1 && Count(s.enqueued, Is(t)) == 1
    ensures t !in s.cq
  {
    hide Reaches, Count;
    InvReached(roster, es, s);
    assert Exit(s, t);
    CountPositive(s.threads, Unjoined);
    assert t < |s.threads| ==> !Unjoined(s.threads[t]);
    CountIsPositive(s.cq, t);
  }

  /** At the end nothing is lost: a node that was not freed is still in one of the two queues. */
  lemma NothingLost(roster: seq<Role>, es: seq<Event>, s: State, v: nat)
    requires Reaches(roster, es, s) && s.main.Destroyed?
    ensures Count(s.wq, Is(v)) + Count(s.jq, Is(v)) + Count(s.freed, Is(v)) == if v < s.nodes then 1 else 0
  {
    hide Reaches, Count;
    OnePlace(roster, es, s, v);
    forall t | 0 <= t < |s.threads| ensures s.threads[t].pc.Joined? {
      InvReached(roster, es, s);
      JoinsAll(roster, es, s, t);
    }
    CountPositive(s.threads, HeldAs(Consumer, v));
    CountPositive(s.threads, HeldAs(Responder, v));
  }

  // ---- termination of the shutdown ----

  function Weight(x: Thread): nat {
    match x.pc
    case Holding(_) => 8
    case Notify => 7
    case Ready => 6
    case Woken => 6
    case Blocked => 0
    case Exiting => 5
    case Ending => 4
    case Gone => 1
    case Joined => 0
  }

  function MainWeight(m: Main): nat {
    match m
    case Joining => 3
    case Awake => 2
    case Asleep => 1
    case Leaving(_) => 1
    case _ => 0
  }

  function Rank(s: State): int {
    Sum(s.threads, Weight) + 4 * s.numthreads + MainWeight(s.main)
  }

  predicate Genuine(e: Event) { e.Run? || e.MainRun? }

  lemma RegionEnds(s: State, t: nat)
    requires t < |s.threads| && !s.wActive && !s.jActive
    ensures QueueRegion(s, t) == Move(s, t, Exiting)
  {
  }

  /** After shutdown a thread's step changes only its own entry there. */
  lemma StepWeight(s: State, t: nat, woken: set<nat>)
    requires Shape(s) && ShutDown(s) && Enabled(s, Run(t, woken))
    ensures var r := ThreadStep(s, t, woken); exists pc ::
      && r.threads == s.threads[t := Thread(s.threads[t].role, pc)] && r.numthreads == s.numthreads
      && Weight(Thread(s.threads[t].role, pc)) + MainWeight(r.main) < Weight(s.threads[t]) + MainWeight(s.main)
      && ShutDown(r)
  {
    hide QueueRegion, Rouse;
    var r := ThreadStep(s, t, woken);
    RegionEnds(s, t);
    RoleOf(s, t);
    match s.threads[t].pc
    case Notify =>
      NobodyToRouse(s, t, woken);
      assert r.threads == s.threads[t := Thread(s.threads[t].role, Ready)];
    case Ready => assert r.threads == s.threads[t := Thread(s.threads[t].role, Exiting)];
    case Woken => assert r.threads == s.threads[t := Thread(s.threads[t].role, Exiting)];
    case Holding(_) =>
      var pc := if s.threads[t].role == Consumer then Notify else Ready;
      assert r.threads == s.threads[t := Thread(s.threads[t].role, pc)];
    case Exiting => assert r.threads == s.threads[t := Thread(s.threads[t].role, Ending)];
    case Ending => assert r.threads == s.threads[t := Thread(s.threads[t].role, Gone)];
  }

  lemma NobodyToRouse(s: State, t: nat, woken: set<nat>)
    requires Shape(s) && ShutDown(s) && t < |s.threads|
    ensures forall role | role == Consumer || role == Responder ::
              Rouse(Move(s, t, Ready).threads, role, woken) == Move(s, t, Ready).threads
  {
    forall role | role == Consumer || role == Responder
      ensures Rouse(Move(s, t, Ready).threads, role, woken) == Move(s, t, Ready).threads
    {
      forall i | 0 <= i < |s.threads|
        ensures Rouse(Move(s, t, Ready).threads, role, woken)[i] == Move(s, t, Ready).threads[i]
      {
        assert !BlockedAs(s, i, role);
      }
    }
  }

  lemma RankDecreases(s: State, e: Event)
    requires Inv(s) && ShutDown(s) && Enabled(s, e) && Genuine(e)
    ensures Rank(Next(s, e)) < Rank(s) && ShutDown(Next(s, e))
  {
    hide Sum, Shape, Flow, Exit;
    if e.Run? {
      StepWeight(s, e.t, e.woken);
      var r := ThreadStep(s, e.t, e.woken);
      hide ThreadStep;
      var pc :| r.threads == s.threads[e.t := Thread(s.threads[e.t].role, pc)]
        && Weight(Thread(s.threads[e.t].role, pc)) + MainWeight(r.main) < Weight(s.threads[e.t]) + MainWeight(s.main);
      SumUpdate(s.threads, e.t, Thread(s.threads[e.t].role, pc), Weight);
    } else if s.main.JoinWait? {
      SumUpdate(s.threads, s.main.t, Thread(s.threads[s.main.t].role, Joined), Weight);
    }
  }

  /** Until the control structures are destroyed, somebody can take a step that is no spurious wakeup. */
  lemma Progress(s: State)
    requires Inv(s) && ShutDown(s) && !s.main.Destroyed?
    ensures exists e :: Genuine(e) && Enabled(s, e)
  {
    hide Count, Flow;
    if t: nat :| t < |s.threads| && CanRun(s.threads[t].pc) {
      NobodyReached(s, t);
      assert Genuine(Run(t, {}));
    } else {
      assert Genuine(MainRun);
      if s.main.JoinWait? {
        assert Exit(s, s.main.t);
        assert !BlockedAs(s, s.main.t, Consumer) && !BlockedAs(s, s.main.t, Responder);
        RoleOf(s, s.main.t);
        assert Enabled(s, MainRun);
      } else if s.main.Asleep? {
        SleepsInVain(s);
      }
    }
  }

  lemma NobodyReached(s: State, t: nat)
    requires Shape(s) && ShutDown(s) && t < |s.threads| && CanRun(s.threads[t].pc)
    ensures Enabled(s, Run(t, {}))
  {
    RoleOf(s, t);
    forall u: nat ensures !BlockedAs(s, u, Target(s.threads[t].role)) {
      assert !BlockedAs(s, u, Consumer) && !BlockedAs(s, u, Responder);
    }
  }

  /** Main does not sleep on cq with every thread ended: the last node would be in cq, its signal still to come. */
  lemma SleepsInVain(s: State)
    requires Inv(s) && ShutDown(s) && s.main.Asleep?
    ensures exists t: nat :: t < |s.threads| && CanRun(s.threads[t].pc)
  {
    hide Count, Flow;
    CountPositive(s.threads, Unjoined);
    var i :| 0 <= i < |s.threads| && Unjoined(s.threads[i]);
    assert !BlockedAs(s, i, Consumer) && !BlockedAs(s, i, Responder);
    RoleOf(s, i);
    if s.threads[i].pc.Gone? {
      assert Exit(s, i);
      CountIsPositive<nat>(s.cq, i);
      var t: nat :| EndingAt(s, t);
    }
  }

  ghost predicate GenuineRun(s: State, es: seq<Event>, r: State)
    decreases |es|
  {
    if es == [] then r == s
    else Enabled(s, es[0]) && Genuine(es[0]) && GenuineRun(Next(s, es[0]), es[1..], r)
  }

  lemma RankNatural(s: State)
    requires Inv(s)
    ensures Rank(s) >= 0
  {
  }

  /** After both deactivations every run without spurious wakeups is bounded, and one that cannot go on has
      joined every thread and destroyed the control structures. */
  lemma {:induction false} ShutdownCompletes(s: State, es: seq<Event>, r: State)
    requires Inv(s) && ShutDown(s) && GenuineRun(s, es, r)
    ensures |es| + Rank(r) <= Rank(s) && Rank(r) >= 0
    ensures (forall e | Genuine(e) :: !Enabled(r, e)) ==> r.main.Destroyed? && r.numthreads == 0
    decreases |es|
  {
    hide Enabled, Next, Shape, Flow, Exit, Rank;
    RankNatural(s);
    if es == [] {
      if !s.main.Destroyed? { Progress(s); }
    } else {
      RankDecreases(s, es[0]);
      InvStep(s, es[0]);
      ShutdownCompletes(Next(s, es[0]), es[1..], r);
    }
  }

  // ---- a thread's turn ----

  /** What a thread does when it gets the mutex of its queue: it leaves its loop exactly when the queue is inactive;
      a producer then has six new nodes put to the front; the others sleep exactly on an empty queue, else take its
      front. */
  lemma TurnIs(s: State, t: nat)
    requires Enabled(s, Run(t, {})) && RoleAllows(s.threads[t]) && (s.threads[t].pc.Ready? || s.threads[t].pc.Woken?)
    ensures var r := Next(s, Run(t, {})); var role, pc := s.threads[t].role, r.threads[t].pc;
      && |r.threads| == |s.threads| && (pc.Exiting? <==> !ActiveOf(s, role))
      && (role == Producer && s.wActive ==> pc.Notify? && r.nodes == s.nodes + 6 && |r.wq| == |s.wq| + 6)
      && (role != Producer ==> r.nodes == s.nodes)
      && (role != Producer && ActiveOf(s, role) ==> (pc.Blocked? <==> QueueOf(s, role) == []))
      && (role != Producer && ActiveOf(s, role) && QueueOf(s, role) != [] ==>
            pc == Holding(QueueOf(s, role)[0]) && QueueOf(r, role) == QueueOf(s, role)[1..])
  {
    PutNodesLength(s.wq, s.nodes, BATCH);
    hide PutNodes;
  }

  lemma {:induction false} PutNodesLength(q: seq<nat>, a: nat, k: nat)
    ensures |PutNodes(q, a, k)| == |q| + k
  {
    if k > 0 { PutNodesLength(q, a, k - 1); }
  }

  ghost predicate AnyRun(s: State, es: seq<Event>, r: State)
    decreases |es|
  {
    if es == [] then r == s else Enabled(s, es[0]) && AnyRun(Next(s, es[0]), es[1..], r)
  }

  lemma StopsWork(s: State, e: Event)
    requires Shape(s) && ShutDown(s) && Enabled(s, e)
    ensures var r := Next(s, e); ShutDown(r) && r.nodes == s.nodes && r.taken == s.taken && r.answered == s.answered
  {
    hide Rouse, RouseAll, Reached, BlockedAs, RoleAllows;
  }

  /** After the shutdown no node is allocated or taken any more, whatever the threads do. */
  lemma {:induction false} NoWorkAfterStop(s: State, es: seq<Event>, r: State)
    requires Inv(s) && ShutDown(s) && AnyRun(s, es, r)
    ensures r.nodes == s.nodes && r.taken == s.taken && r.answered == s.answered
    decreases |es|
  {
    hide Enabled, Next, Shape, Flow, Exit;
    if es != [] {
      StopsWork(s, es[0]);
      InvStep(s, es[0]);
      NoWorkAfterStop(Next(s, es[0]), es[1..], r);
    }
  }
}
