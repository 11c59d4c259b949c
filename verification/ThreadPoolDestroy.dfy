/** How thr_pool_destroy ends: it completes exactly when no job is active or none is queued. */
module ThreadPoolDestroy {
  import opened Counting
  import opened ThreadPool
  import opened ThreadPoolProofs

  /** When the pool is freed no worker is left and no job is being performed. */
  lemma FreedPoolIsEmpty(s: Pool)
    requires Inv(s) && s.destroyer.Freed?
    ensures s.active == [] && s.nthreads == 0 && forall t | 0 <= t < |s.workers| :: s.workers[t].Gone?
  {
    CountPositive(s.workers, Live);
  }

  /** With an empty queue every sleep of thr_pool_destroy has someone left to end it. */
  lemma DestroySleepEnds(s: Pool)
    requires Inv(s) && s.queue == []
    ensures s.destroyer == OnWaitCv(false) ==> s.active != []
    ensures s.destroyer == OnBusyCv(false) ==> s.nthreads > 0
  {
  }

  // ---- the sleep that nobody ends ----

  /** Asleep on pool_waitcv with jobs still queued. */
  ghost predicate Starved(s: Pool) {
    s.destroyFlag && s.queue != [] && s.destroyer == OnWaitCv(false)
  }

  /** A call of thr_pool_destroy falls into that sleep exactly when it finds jobs both active and queued. */
  lemma DestroyStarves(s: Pool)
    requires Inv(s) && s.destroyer.NotCalled?
    ensures Starved(Next(s, Destroy)) <==> s.active != [] && s.queue != []
  {
  }

  /** The broadcast in notify_waiters needs an empty queue, and no job is dispatched any more. */
  lemma StarvedStep(s: Pool, e: Event)
    requires Inv(s) && Starved(s) && Enabled(s, e)
    ensures Starved(Next(s, e)) <==> e != DestroyerRouse
  {
    hide Counts, ActiveList, Jobs, Waits, Served;
    if e.Run? { RunSettles(s, e.t); }
    if e.Return? {
      JobDoneKeeps(s, e.t);
      IdleSettles(JobCleanup(s, e.t), e.t);
    }
  }

  ghost predicate AnyRun(s: Pool, es: seq<Event>, r: Pool)
    decreases |es|
  {
    if es == [] then r == s else Enabled(s, es[0]) && AnyRun(Next(s, es[0]), es[1..], r)
  }

  /** Whatever workers and clients do, nothing but a spurious wakeup ends the sleep. */
  lemma {:induction false} StarvedForever(s: Pool, es: seq<Event>, r: Pool)
    requires Inv(s) && Starved(s) && AnyRun(s, es, r)
    ensures DestroyerRouse !in es ==> Starved(r)
    decreases |es|
  {
    if es != [] {
      StarvedStep(s, es[0]);
      InvStep(s, es[0]);
      if es[0] != DestroyerRouse { StarvedForever(Next(s, es[0]), es[1..], r); }
    }
  }

  /** The states of a pool of one thread: a job starts, a second one is queued, the pool is destroyed. */
  function Example(k: nat): Pool {
    var s := Init(0, 1, 0);
    if k == 0 then s
    else if k == 1 then s.(queue := [0], submitted := 1, nthreads := 1, workers := [Starting])
    else if k == 2 then s.(active := [0], submitted := 1, nthreads := 1, workers := [Busy(0)])
    else if k == 3 then s.(queue := [1], active := [0], submitted := 2, nthreads := 1, workers := [Busy(0)])
    else s.(queue := [1], active := [0], submitted := 2, nthreads := 1, workers := [Busy(0)],
            waitFlag := true, destroyFlag := true, destroyer := OnWaitCv(false))
  }

  const EXAMPLE: seq<Event> := [Queue({}, true), Run(0), Queue({}, true), Destroy]

  lemma ExampleStep(k: nat)
    requires k < 4
    ensures Enabled(Example(k), EXAMPLE[k]) && Example(k + 1) == Next(Example(k), EXAMPLE[k])
  {
    assert [0][1..] == [] && [Starting][0 := Busy(0)] == [Busy(0)];
    assert BroadcastWork([Busy(0)]) == [Busy(0)] && RouseWorkers([Busy(0)], {}) == [Busy(0)];
    assert [] + [0] == [0] && [] + [Starting] == [Starting] && [] + [1] == [1] && [0] + [] == [0];
  }

  lemma {:induction false} ExampleReached(k: nat)
    requires k <= 4
    ensures Reaches(0, 1, 0, EXAMPLE[..k], Example(k))
  {
    if k > 0 {
      ExampleReached(k - 1);
      ExampleStep(k - 1);
      hide Next, Enabled, Example, Reaches;
      assert EXAMPLE[..k] == EXAMPLE[..k - 1] + [EXAMPLE[k - 1]];
      ReachesNext(0, 1, 0, EXAMPLE[..k - 1], Example(k - 1), EXAMPLE[k - 1]);
    }
  }

  /** Such a sleep is reached by two submissions to a pool of one thread and a destroy. */
  lemma StarvationReached()
    ensures exists s :: Reaches(0, 1, 0, [Queue({}, true), Run(0), Queue({}, true), Destroy], s) && Starved(s)
  {
    ExampleReached(4);
    assert EXAMPLE[..4] == [Queue({}, true), Run(0), Queue({}, true), Destroy];
    assert Starved(Example(4));
  }

  // ---- completion ----

  /** Steps that are neither calls of clients nor spurious wakeups. */
  predicate Internal(e: Event) {
    e.Run? || e.Return? || e.ExitJob? || e.WaiterRun? || e.DestroyerRun?
  }

  function DestroyerRank(d: Destroyer): nat {
    match d
    case NotCalled => 0
    case OnWaitCv(roused) => if roused then 5 else 4
    case OnBusyCv(roused) => if roused then 3 else 2
    case Freed => 0
  }

  function Rank(s: Pool): int {
    (|s.waiters| + 4) * s.nthreads + Count(s.waiters, Roused) + DestroyerRank(s.destroyer)
  }

  lemma RankNatural(s: Pool)
    requires Inv(s)
    ensures Rank(s) >= 0
  {
    assert (|s.waiters| + 4) * s.nthreads >= 0;
  }

  /** A worker's last act: it is gone, and has woken no more than every waiter and the destroyer. */
  ghost predicate LastAct(s: Pool, r: Pool) {
    && r.nthreads == s.nthreads - 1 && |r.waiters| == |s.waiters| && r.queue == s.queue && r.destroyFlag
    && DestroyerRank(r.destroyer) <= DestroyerRank(s.destroyer) + 1
    && (r.destroyer.OnWaitCv? <==> s.destroyer.OnWaitCv?)
  }

  lemma WorkersLastAct(s: Pool, e: Event)
    requires Inv(s) && s.destroyFlag && Enabled(s, e) && (e.Run? || e.Return? || e.ExitJob?)
    ensures LastAct(s, Next(s, e))
  {
    hide Counts, Jobs, Served;
    if e.Run? { RunSettles(s, e.t); }
    if e.Return? {
      JobDoneKeeps(s, e.t);
      WaitsMeanWork(Afresh(JobCleanup(s, e.t), e.t));
      IdleSettles(JobCleanup(s, e.t), e.t);
    }
  }

  lemma OneFewer(k: int, n: int)
    ensures k * (n - 1) == k * n - k
  {
  }

  lemma WaitsRank(s: Pool, e: Event)
    requires Enabled(s, e) && s.destroyFlag && (e.WaiterRun? || e.DestroyerRun?)
    ensures var r := Next(s, e);
      && Count(r.waiters, Roused) + DestroyerRank(r.destroyer) < Count(s.waiters, Roused) + DestroyerRank(s.destroyer)
      && r.nthreads == s.nthreads && |r.waiters| == |s.waiters| && r.queue == s.queue && r.destroyFlag
      && (r.destroyer.OnWaitCv? ==> s.destroyer.OnWaitCv?)
  {
    if e.WaiterRun? {
      CountUpdate(s.waiters, e.w, Next(s, e).waiters[e.w], Roused);
    }
  }

  lemma RankDecreases(s: Pool, e: Event)
    requires Inv(s) && s.destroyFlag && Enabled(s, e) && Internal(e)
    ensures var r := Next(s, e);
      Rank(r) < Rank(s) && r.destroyFlag && r.queue == s.queue && (r.destroyer.OnWaitCv? ==> s.destroyer.OnWaitCv?)
  {
    var r := Next(s, e);
    if e.Run? || e.Return? || e.ExitJob? {
      WorkersLastAct(s, e);
      hide Next, Inv, Enabled;
      CountAtMost(r.waiters, Roused);
      OneFewer(|s.waiters| + 4, s.nthreads);
    } else {
      WaitsRank(s, e);
    }
  }

  ghost predicate AtRest(s: Pool) {
    forall e | Internal(e) :: !Enabled(s, e)
  }

  /** A destroy that cannot go on has freed the pool or starves. */
  lemma RestIs(s: Pool)
    requires Inv(s) && s.destroyFlag && AtRest(s)
    ensures s.destroyer.Freed? || Starved(s)
  {
    CountPositive(s.workers, Live);
    if t :| 0 <= t < |s.workers| && Live(s.workers[t]) {
      var e := if s.workers[t].Busy? then Return(t) else Run(t);
      assert Internal(e);
    }
    assert Internal(DestroyerRun);
    NoMembers(s.active);
  }

  ghost predicate InternalRun(s: Pool, es: seq<Event>, r: Pool)
    decreases |es|
  {
    if es == [] then r == s
    else Enabled(s, es[0]) && Internal(es[0]) && InternalRun(Next(s, es[0]), es[1..], r)
  }

  /** Without spurious wakeups and new calls every run of a destroy is bounded, and its start settles whether it can
      starve. */
  lemma {:induction false} DestroyRuns(s: Pool, es: seq<Event>, r: Pool)
    requires Inv(s) && s.destroyFlag && InternalRun(s, es, r)
    ensures Inv(r) && r.destroyFlag && |es| + Rank(r) <= Rank(s) && Rank(r) >= 0 && r.queue == s.queue
    ensures Starved(s) ==> Starved(r)
    ensures s.queue == [] || !s.destroyer.OnWaitCv? ==> r.queue == [] || !r.destroyer.OnWaitCv?
    decreases |es|
  {
    RankNatural(s);
    if es != [] {
      RankDecreases(s, es[0]);
      InvStep(s, es[0]);
      if Starved(s) { StarvedStep(s, es[0]); }
      DestroyRuns(Next(s, es[0]), es[1..], r);
    }
  }

  lemma {:induction false} RestReached(s: Pool)
    requires Inv(s) && s.destroyFlag
    ensures exists es, r :: InternalRun(s, es, r) && AtRest(r)
    decreases Rank(s)
  {
    hide Inv, Enabled, Next, Rank;
    RankNatural(s);
    if e :| Internal(e) && Enabled(s, e) {
      var p := Next(s, e);
      RankDecreases(s, e);
      InvStep(s, e);
      RankNatural(p);
      RestReached(p);
      var es, r :| InternalRun(p, es, r) && AtRest(r);
      assert ([e] + es)[1..] == es;
      assert InternalRun(s, [e] + es, r);
    } else {
      assert InternalRun(s, [], s);
    }
  }

  /** Without further calls and spurious wakeups thr_pool_destroy takes a bounded number of steps, and every run that
      cannot go on has freed the pool, exactly when at the call no job is active or no job is queued. */
  lemma DestroyCompletesIff(s: Pool)
    requires Inv(s) && s.destroyer.NotCalled?
    ensures forall es, r | InternalRun(Next(s, Destroy), es, r) :: |es| <= Rank(Next(s, Destroy))
    ensures (forall es, r | InternalRun(Next(s, Destroy), es, r) && AtRest(r) :: r.destroyer.Freed?)
            <==> s.active == [] || s.queue == []
  {
    var d := Next(s, Destroy);
    InvStep(s, Destroy);
    DestroyStarves(s);
    assert s.active == [] ==> !d.destroyer.OnWaitCv?;
    assert d.queue == s.queue && d.destroyFlag;
    hide Inv, Next, Rank, AtRest, Enabled;
    forall es, r | InternalRun(d, es, r)
      ensures |es| <= Rank(d)
      ensures AtRest(r) && (s.active == [] || s.queue == []) ==> r.destroyer.Freed?
      ensures s.active != [] && s.queue != [] ==> Starved(r)
    {
      DestroyRuns(d, es, r);
      if AtRest(r) { RestIs(r); }
    }
    RestReached(d);
  }

  // ---- who is left in thr_pool_wait ----

  /** Only an empty queue lets a worker notify the waiters. */
  lemma WorkersRouseNobody(s: Pool, e: Event)
    requires Inv(s) && s.queue != [] && s.destroyFlag && Enabled(s, e) && (e.Run? || e.Return? || e.ExitJob?)
    ensures Next(s, e).waiters == s.waiters
  {
    hide Counts, ActiveList, Jobs, Waits, Served;
    if e.Run? { RunSettles(s, e.t); }
    if e.Return? {
      JobDoneKeeps(s, e.t);
      IdleSettles(JobCleanup(s, e.t), e.t);
    }
  }

  /** No waiter returns, and those asleep stay so. */
  ghost predicate KeepsWaiting(s: Pool, r: Pool) {
    && |r.waiters| == |s.waiters|
    && (forall w | 0 <= w < |s.waiters| :: r.waiters[w].Returned? <==> s.waiters[w].Returned?)
    && (forall w | 0 <= w < |s.waiters| && s.waiters[w] == Waiting(false) :: r.waiters[w] == Waiting(false))
  }

  lemma StepKeepsWaiting(s: Pool, e: Event)
    requires Inv(s) && s.queue != [] && s.destroyFlag && Enabled(s, e) && Internal(e)
    ensures KeepsWaiting(s, Next(s, e))
  {
    if e.Run? || e.Return? || e.ExitJob? {
      WorkersRouseNobody(s, e);
      hide Next, Inv, Enabled;
    }
  }

  /** While a destroy goes on with jobs queued, nobody gets out of thr_pool_wait. */
  lemma {:induction false} RunKeepsWaiting(s: Pool, es: seq<Event>, r: Pool)
    requires Inv(s) && s.queue != [] && s.destroyFlag && InternalRun(s, es, r)
    ensures KeepsWaiting(s, r)
    decreases |es|
  {
    if es != [] {
      RankDecreases(s, es[0]);
      InvStep(s, es[0]);
      StepKeepsWaiting(s, es[0]);
      hide Inv, Enabled, Next;
      RunKeepsWaiting(Next(s, es[0]), es[1..], r);
    }
  }

  lemma NobodyLeftAsleep(r: Pool, w: nat)
    requires Inv(r) && r.destroyer.Freed? && r.queue == [] && w < |r.waiters|
    ensures r.waiters[w] != Waiting(false)
  {
  }

  /** What a call of thr_pool_destroy does at once. */
  lemma DestroyAtOnce(s: Pool)
    requires s.destroyer.NotCalled?
    ensures var d := Next(s, Destroy);
      && d.waiters == s.waiters && d.queue == s.queue && d.destroyFlag
      && (s.active == [] ==> d.destroyer == if s.nthreads != 0 then OnBusyCv(false) else Freed)
  {
  }

  /** Waiter w can be asleep when the destroy that d has started frees the pool. */
  ghost predicate LeavesAsleep(d: Pool, w: nat) {
    exists es, r :: InternalRun(d, es, r) && r.destroyer.Freed? && w < |r.waiters| && r.waiters[w] == Waiting(false)
  }

  lemma AsleepIsLeft(d: Pool, w: nat)
    requires Inv(d) && d.destroyFlag && d.queue != [] && !d.destroyer.OnWaitCv?
    requires w < |d.waiters| && d.waiters[w] == Waiting(false)
    ensures LeavesAsleep(d, w)
  {
    hide Inv, AtRest, Next, Enabled;
    RestReached(d);
    var es, r :| InternalRun(d, es, r) && AtRest(r);
    DestroyRuns(d, es, r);
    RunKeepsWaiting(d, es, r);
    RestIs(r);
  }

  lemma RousedIsLeft(d: Pool, w: nat)
    requires Inv(d) && d.destroyFlag && d.queue != [] && d.destroyer.OnBusyCv?
    requires w < |d.waiters| && d.waiters[w] == Waiting(true)
    ensures LeavesAsleep(d, w)
  {
    var e := WaiterRun(w);
    var p := Next(d, e);
    assert Enabled(d, e) && Internal(e);
    InvStep(d, e);
    assert p.waiters[w] == Waiting(false) && p.destroyer.OnBusyCv? && p.queue == d.queue;
    hide Inv, Next, Enabled;
    AsleepIsLeft(p, w);
    var es, r :| InternalRun(p, es, r) && r.destroyer.Freed? && w < |r.waiters| && r.waiters[w] == Waiting(false);
    assert ([e] + es)[1..] == es;
    assert InternalRun(d, [e] + es, r);
  }

  /** A destroy can free the pool with waiter w asleep exactly when at the call no job is active, some job is queued,
      and the waiter is asleep, or awake with a worker left to end first. */
  lemma SleeperLeftIff(s: Pool, w: nat)
    requires Inv(s) && s.destroyer.NotCalled? && w < |s.waiters|
    ensures LeavesAsleep(Next(s, Destroy), w) <==>
              s.active == [] && s.queue != []
              && (s.waiters[w] == Waiting(false) || (s.waiters[w] == Waiting(true) && s.nthreads != 0))
  {
    var d := Next(s, Destroy);
    InvStep(s, Destroy);
    DestroyStarves(s);
    DestroyAtOnce(s);
    if LeavesAsleep(d, w) {
      var es, r :| InternalRun(d, es, r) && r.destroyer.Freed? && w < |r.waiters| && r.waiters[w] == Waiting(false);
      assert d.destroyer.Freed? ==> es == [];
      hide Inv, Next, Enabled;
      DestroyRuns(d, es, r);
      if s.queue == [] { NobodyLeftAsleep(r, w); }
      if s.queue != [] { RunKeepsWaiting(d, es, r); }
    }
    if s.active == [] && s.queue != [] {
      if s.waiters[w] == Waiting(false) { AsleepIsLeft(d, w); }
      if s.waiters[w] == Waiting(true) && s.nthreads != 0 { RousedIsLeft(d, w); }
    }
  }

  /** A destroy with jobs queued leaves behind exactly the waiters that had not returned at the call. */
  lemma WaitersLeft(s: Pool, es: seq<Event>, r: Pool, w: nat)
    requires Inv(s) && s.destroyer.NotCalled? && s.queue != [] && w < |s.waiters|
    requires InternalRun(Next(s, Destroy), es, r)
    ensures w < |r.waiters| && (r.waiters[w].Returned? <==> s.waiters[w].Returned?)
    ensures s.waiters[w] == Waiting(false) ==> r.waiters[w] == Waiting(false)
  {
    InvStep(s, Destroy);
    DestroyAtOnce(s);
    RunKeepsWaiting(Next(s, Destroy), es, r);
  }

  /** One job submitted and one thread in thr_pool_wait, before the worker starts. */
  lemma SleeperReached()
    ensures exists s :: Reaches(0, 1, 0, [Queue({}, true), Wait], s) && s.destroyer.NotCalled? && |s.waiters| == 1
                        && LeavesAsleep(Next(s, Destroy), 0)
  {
    var a := Example(1);
    var s := a.(waitFlag := true, waiters := [Waiting(false)]);
    ExampleReached(1);
    assert EXAMPLE[..1] == [Queue({}, true)];
    assert [] + [Waiting(true)] == [Waiting(true)] && [Waiting(true)][0 := Waiting(false)] == [Waiting(false)];
    assert Enabled(a, Wait) && Next(a, Wait) == s;
    ReachesNext(0, 1, 0, [Queue({}, true)], a, Wait);
    assert [Queue({}, true)] + [Wait] == [Queue({}, true), Wait];
    InvReached(0, 1, 0, [Queue({}, true), Wait], s);
    SleeperLeftIff(s, 0);
  }
}
