/** Invariants of the thread pool over all interleavings. */
module ThreadPoolProofs {
  import opened Counting
  import opened ThreadPool

  function Dispatched(s: Pool): int {
    s.submitted - |s.queue|
  }

  /** pool_idle and pool_nthreads count what they say. */
  ghost predicate Counts(s: Pool) {
    && 1 <= s.maximum && s.minimum <= s.maximum
    && s.idle == Count(s.workers, Idle)
    && s.nthreads == Count(s.workers, Live) <= s.maximum
  }

  /** The active list holds exactly the workers that perform a job, each once. */
  ghost predicate ActiveList(s: Pool) {
    && (forall i, j | 0 <= i < j < |s.active| :: s.active[i] != s.active[j])
    && (forall t | t in s.active :: t < |s.workers| && s.workers[t].Busy?)
    && (forall t | 0 <= t < |s.workers| && s.workers[t].Busy? :: t in s.active)
  }

  ghost predicate HeldBy(s: Pool, j: nat, t: nat) {
    t < |s.workers| && s.workers[t] == Busy(j)
  }

  /** Submitted jobs are dispatched ++ queued, and a dispatched job is finished or held by exactly one worker. */
  ghost predicate Jobs(s: Pool) {
    && |s.queue| <= s.submitted
    && (forall i | 0 <= i < |s.queue| :: s.queue[i] == Dispatched(s) + i)
    && (forall j | j in s.finished :: j < Dispatched(s))
    && (forall j: nat, t: nat | HeldBy(s, j, t) :: j < Dispatched(s) && j !in s.finished)
    && (forall j: nat, t: nat, u: nat | HeldBy(s, j, t) && HeldBy(s, j, u) :: t == u)
    && (forall j: nat | j < Dispatched(s) && j !in s.finished :: exists t: nat :: HeldBy(s, j, t))
  }

  /** POOL_WAIT is set while anyone sleeps on pool_waitcv, and only while there is something to wait for. */
  ghost predicate Waits(s: Pool) {
    && (s.waitFlag ==> s.queue != [] || s.active != [])
    && (forall w | 0 <= w < |s.waiters| && s.waiters[w] == Waiting(false) :: s.waitFlag)
    && (s.destroyer == OnWaitCv(false) ==> s.waitFlag)
  }

  ghost predicate Destruction(s: Pool) {
    && (s.destroyFlag <==> !s.destroyer.NotCalled?)
    && (s.destroyFlag ==> forall t | 0 <= t < |s.workers| :: !s.workers[t].Asleep?)
    && (s.destroyer.OnBusyCv? || s.destroyer.Freed? ==> s.active == [])
    && (s.destroyer == OnBusyCv(false) ==> s.nthreads != 0)
    && (s.destroyer.Freed? ==> s.nthreads == 0)
  }

  /** While any worker sleeps, every queued job has an awake worker of its own on the way to the queue. */
  ghost predicate Served(s: Pool) {
    !s.destroyFlag && Count(s.workers, Sleeping) > 0 ==> |s.queue| <= Count(s.workers, Heading)
  }

  ghost predicate Inv(s: Pool) {
    Counts(s) && ActiveList(s) && Jobs(s) && Waits(s) && Destruction(s) && Served(s)
  }

  /** The three ways a worker that is neither idle nor busy can give up the mutex. */
  ghost predicate Sleeps(s: Pool, t: nat, s': Pool)
    requires t < |s.workers|
  {
    && s.queue == [] && !s.destroyFlag
    && exists timed :: s' == s.(idle := s.idle + 1, workers := s.workers[t := Asleep(timed)])
  }

  ghost predicate Dispatches(s: Pool, t: nat, s': Pool)
    requires t < |s.workers|
  {
    && s.queue != [] && !s.destroyFlag
    && s' == s.(queue := s.queue[1..], active := [t] + s.active, workers := s.workers[t := Busy(s.queue[0])])
  }

  ghost predicate Exits(s: Pool, t: nat, s': Pool)
    requires t < |s.workers|
  {
    && (s.destroyFlag || (s.queue == [] && s.nthreads > s.minimum))
    && s' == WorkerCleanup(s, t, false)
  }

  ghost predicate Settles(s: Pool, t: nat, s': Pool)
    requires t < |s.workers|
  {
    Sleeps(s, t, s') || Dispatches(s, t, s') || Exits(s, t, s')
  }

  /** The worker seen as just started: not idle, not busy. */
  function Afresh(s: Pool, t: nat): Pool
    requires t < |s.workers|
  {
    s.(workers := s.workers[t := Starting])
  }

  lemma UpdateTwice<T>(s: seq<T>, t: nat, x: T)
    requires t < |s|
    ensures forall y {:trigger s[t := y]} :: s[t := x][t := y] == s[t := y]
  {
  }

  lemma LeaveSettles(s: Pool, t: nat, timedOut: bool)
    requires t < |s.workers| && (s.waitFlag ==> s.queue != [] || s.active != [])
    requires timedOut || s.queue != [] || s.destroyFlag
    ensures Settles(Afresh(s, t), t, LeaveIdle(s.(idle := s.idle + 1), t, timedOut))
  {
    var f := Afresh(s, t);
    UpdateTwice(s.workers, t, Starting);
    var r := LeaveIdle(s.(idle := s.idle + 1), t, timedOut);
    if !s.destroyFlag && s.queue == [] && s.nthreads <= s.minimum {
      assert r == f.(idle := f.idle + 1, workers := f.workers[t := Asleep(false)]);
    }
  }

  lemma IdleSettles(s: Pool, t: nat)
    requires t < |s.workers| && (s.waitFlag ==> s.queue != [] || s.active != [])
    ensures Settles(Afresh(s, t), t, IdleLoop(EnterIdle(s), t))
    ensures Settles(Afresh(s, t), t, IdleLoop(s.(idle := s.idle + 1), t))
  {
    var f := Afresh(s, t);
    UpdateTwice(s.workers, t, Starting);
    if s.queue == [] && !s.destroyFlag {
      if s.nthreads <= s.minimum {
        assert IdleLoop(EnterIdle(s), t) == f.(idle := f.idle + 1, workers := f.workers[t := Asleep(false)]);
      } else if s.linger == 0 {
        LeaveSettles(s, t, true);
      } else {
        assert IdleLoop(EnterIdle(s), t) == f.(idle := f.idle + 1, workers := f.workers[t := Asleep(true)]);
      }
    } else {
      LeaveSettles(s, t, false);
    }
  }

  // ---- each way of settling keeps the invariant ----

  /** How changing worker t from one state to another moves every count. */
  lemma Recount(ws: seq<Worker>, t: nat, x: Worker)
    requires t < |ws| && ws[t].Starting?
    ensures var r := ws[t := x];
      && Count(r, Idle) == Count(ws, Idle) + (if Idle(x) then 1 else 0)
      && Count(r, Live) == Count(ws, Live) - (if Live(x) then 0 else 1)
      && Count(r, Sleeping) == Count(ws, Sleeping) + (if Sleeping(x) then 1 else 0)
      && Count(r, Heading) == Count(ws, Heading) - (if Heading(x) then 0 else 1)
  {
    CountUpdate(ws, t, x, Idle);
    CountUpdate(ws, t, x, Live);
    CountUpdate(ws, t, x, Sleeping);
    CountUpdate(ws, t, x, Heading);
  }

  /** Jobs does not depend on workers that hold none. */
  lemma JobsFrame(s: Pool, r: Pool)
    requires Jobs(s) && r.queue == s.queue && r.submitted == s.submitted && r.finished == s.finished
    requires forall j: nat, u: nat :: HeldBy(r, j, u) <==> HeldBy(s, j, u)
    ensures Jobs(r)
  {
  }

  lemma JobsDispatch(s: Pool, t: nat, r: Pool)
    requires Jobs(s) && t < |s.workers| && s.workers[t].Starting? && s.queue != [] && r.finished == s.finished
    requires r.queue == s.queue[1..] && r.submitted == s.submitted && r.workers == s.workers[t := Busy(s.queue[0])]
    ensures Jobs(r)
  {
    forall j: nat, u: nat ensures HeldBy(r, j, u) <==> HeldBy(s, j, u) || (j == s.queue[0] && u == t) {}
    assert HeldBy(r, s.queue[0], t);
  }

  lemma JobsDone(s: Pool, t: nat, r: Pool)
    requires Jobs(s) && t < |s.workers| && s.workers[t].Busy? && r.finished == s.finished + {s.workers[t].job}
    requires r.queue == s.queue && r.submitted == s.submitted && r.workers == s.workers[t := Starting]
    ensures Jobs(r)
  {
    assert HeldBy(s, s.workers[t].job, t);
    forall j: nat, u: nat ensures HeldBy(r, j, u) <==> HeldBy(s, j, u) && u != t {}
  }

  lemma JobsPush(s: Pool, r: Pool)
    requires Jobs(s) && r.queue == s.queue + [s.submitted] && r.submitted == s.submitted + 1 && r.finished == s.finished
    requires forall j: nat, u: nat :: HeldBy(r, j, u) <==> HeldBy(s, j, u)
    ensures Jobs(r)
  {
    assert Dispatched(r) == Dispatched(s);
  }

  lemma SleepKeeps(s: Pool, t: nat, s': Pool)
    requires Inv(s) && t < |s.workers| && s.workers[t].Starting? && Sleeps(s, t, s')
    ensures Inv(s')
  {
    hide Jobs, Count;
    var timed :| s' == s.(idle := s.idle + 1, workers := s.workers[t := Asleep(timed)]);
    Recount(s.workers, t, Asleep(timed));
    JobsFrame(s, s');
  }

  lemma DispatchKeeps(s: Pool, t: nat, s': Pool)
    requires Inv(s) && t < |s.workers| && s.workers[t].Starting? && Dispatches(s, t, s')
    ensures Inv(s')
  {
    hide Jobs, Count;
    var job := s.queue[0];
    Recount(s.workers, t, Busy(job));
    JobsDispatch(s, t, s');
  }

  lemma ExitKeeps(s: Pool, t: nat, s': Pool)
    requires Inv(s) && t < |s.workers| && s.workers[t].Starting? && Exits(s, t, s')
    ensures Inv(s')
  {
    hide Jobs, Count;
    Recount(s.workers, t, Gone);
    JobsFrame(s, s');
  }

  lemma DistinctTail(a: seq<nat>)
    requires a != [] && forall i, j | 0 <= i < j < |a| :: a[i] != a[j]
    ensures forall i, j | 0 <= i < j < |a| - 1 :: a[1..][i] != a[1..][j]
    ensures a[0] !in a[1..] && forall x :: x in a <==> x == a[0] || x in a[1..]
  {
    assert a == [a[0]] + a[1..];
  }

  lemma {:induction false} UnlinkMember(a: seq<nat>, t: nat, x: nat)
    requires forall i, j | 0 <= i < j < |a| :: a[i] != a[j]
    ensures x in Unlink(a, t) <==> x in a && x != t
  {
    if a != [] {
      DistinctTail(a);
      UnlinkMember(a[1..], t, x);
    }
  }

  lemma {:induction false} UnlinkDistinct(a: seq<nat>, t: nat)
    requires forall i, j | 0 <= i < j < |a| :: a[i] != a[j]
    ensures var r := Unlink(a, t); forall i, j | 0 <= i < j < |r| :: r[i] != r[j]
  {
    if a != [] && a[0] != t {
      DistinctTail(a);
      UnlinkDistinct(a[1..], t);
      UnlinkMember(a[1..], t, a[0]);
    }
  }

  lemma UnlinkRemoves(a: seq<nat>, t: nat)
    requires forall i, j | 0 <= i < j < |a| :: a[i] != a[j]
    ensures var r := Unlink(a, t);
      && (forall i, j | 0 <= i < j < |r| :: r[i] != r[j])
      && (forall x :: x in r <==> x in a && x != t)
  {
    UnlinkDistinct(a, t);
    forall x: nat ensures x in Unlink(a, t) <==> x in a && x != t { UnlinkMember(a, t, x); }
  }

  /** Served with an awake worker to spare. */
  ghost predicate SpareServed(s: Pool) {
    !s.destroyFlag && Count(s.workers, Sleeping) > 0 ==> |s.queue| < Count(s.workers, Heading)
  }

  /** A job is over: its worker, seen as just started, has left the active list. */
  lemma JobDoneKeeps(s: Pool, t: nat)
    requires Inv(s) && t < |s.workers| && s.workers[t].Busy?
    ensures Inv(Afresh(JobCleanup(s, t), t)) && JobCleanup(s, t).workers == s.workers
    ensures SpareServed(Afresh(JobCleanup(s, t), t))
  {
    hide Jobs, Count;
    UnlinkRemoves(s.active, t);
    var job := s.workers[t].job;
    var r := Afresh(JobCleanup(s, t), t);
    var ws := s.workers;
    CountUpdate(ws, t, Starting, Idle);
    CountUpdate(ws, t, Starting, Live);
    CountUpdate(ws, t, Starting, Sleeping);
    CountUpdate(ws, t, Starting, Heading);
    JobsDone(s, t, r);
  }

  /** worker_cleanup after a job, when a replacement may be created. */
  lemma ReplaceKeeps(s: Pool, t: nat, created: bool)
    requires Inv(s) && t < |s.workers| && s.workers[t].Starting? && SpareServed(s)
    ensures Inv(WorkerCleanup(s, t, created))
  {
    hide Jobs, Count;
    Recount(s.workers, t, Gone);
    var ws := s.workers[t := Gone];
    CountAppend(ws, Starting, Idle);
    CountAppend(ws, Starting, Live);
    CountAppend(ws, Starting, Sleeping);
    CountAppend(ws, Starting, Heading);
    var r := WorkerCleanup(s, t, created);
    JobsFrame(s, r);
  }

  lemma {:induction false} RouseCounts(ws: seq<Worker>, r: seq<Worker>)
    requires |r| == |ws| && forall i | 0 <= i < |ws| :: r[i] == ws[i] || (ws[i].Asleep? && r[i].Awake?)
    ensures Count(r, Idle) == Count(ws, Idle) && Count(r, Live) == Count(ws, Live)
    ensures Count(r, Sleeping) + Count(r, Heading) == Count(ws, Sleeping) + Count(ws, Heading)
    ensures Count(r, Heading) >= Count(ws, Heading)
  {
    if ws != [] {
      var n := |ws| - 1;
      RouseCounts(ws[..n], r[..n]);
    }
  }

  lemma RouseKeeps(s: Pool, r: seq<Worker>)
    requires Inv(s) && |r| == |s.workers|
    requires forall i | 0 <= i < |r| :: r[i] == s.workers[i] || (s.workers[i].Asleep? && r[i].Awake?)
    ensures Inv(s.(workers := r))
  {
    hide Jobs, Count;
    RouseCounts(s.workers, r);
    var s' := s.(workers := r);
    JobsFrame(s, s');
  }

  /** A signal that reaches a sleeper makes one more worker head for the queue. */
  lemma SignalCounts(ws: seq<Worker>, woken: set<nat>)
    requires forall t | t in woken :: t < |ws| && ws[t].Asleep?
    ensures woken != {} ==> Count(RouseWorkers(ws, woken), Heading) > Count(ws, Heading)
  {
    var r := RouseWorkers(ws, woken);
    if t :| t in woken {
      var one := ws[t := Awake(false)];
      CountUpdate(ws, t, Awake(false), Heading);
      assert one[t] == Awake(false);
      RouseCounts(one, r);
    }
  }

  lemma QueueKeeps(s: Pool, woken: set<nat>, created: bool)
    requires Inv(s) && Enabled(s, Queue(woken, created))
    ensures Inv(QueueJob(s, woken, created))
  {
    hide Jobs, Count;
    var r := QueueJob(s, woken, created);
    RouseCounts(s.workers, RouseWorkers(s.workers, woken));
    SignalCounts(s.workers, woken);
    CountAppend(s.workers, Starting, Idle);
    CountAppend(s.workers, Starting, Live);
    CountAppend(s.workers, Starting, Sleeping);
    CountAppend(s.workers, Starting, Heading);
    SleepersAreIdle(s.workers);
    JobsPush(s, r);
  }

  lemma SleepersAreIdle(ws: seq<Worker>)
    ensures Count(ws, Sleeping) <= Count(ws, Idle) <= Count(ws, Live)
  {
    CountMonotone(ws, Sleeping, ws, Idle);
    CountMonotone(ws, Idle, ws, Live);
  }

  lemma DestroyKeeps(s: Pool)
    requires Inv(s) && s.destroyer.NotCalled?
    ensures Inv(Next(s, Destroy))
  {
    hide Jobs, Count;
    var s1 := s.(workers := BroadcastWork(s.workers));
    RouseKeeps(s, BroadcastWork(s.workers));
    JobsFrame(s1, Next(s, Destroy));
  }

  lemma InvStep(s: Pool, e: Event)
    requires Inv(s) && Enabled(s, e)
    ensures Inv(Next(s, e))
  {
    hide Inv, Settles, IdleLoop, LeaveIdle, WorkerCleanup, EnterIdle, QueueJob, DestroyLoops, WaitLoop;
    match e
    case Queue(woken, created) => QueueKeeps(s, woken, created);
    case Run(t) =>
      AwakeAfresh(s, t);
      RunSettles(s, t);
      SettleKeeps(RunBase(s, t), t, Next(s, e));
    case Return(t) =>
      JobDoneKeeps(s, t);
      var d := JobCleanup(s, t);
      WaitsMeanWork(Afresh(d, t));
      IdleSettles(d, t);
      SettleKeeps(Afresh(d, t), t, Next(s, e));
    case ExitJob(t, created) =>
      JobDoneKeeps(s, t);
      var d := JobCleanup(s, t);
      ReplaceKeeps(Afresh(d, t), t, created);
      UpdateTwice(d.workers, t, Starting);
      CleanupAfresh(d, t, created);
    case Rouse(t, timedOut) => RouseKeeps(s, s.workers[t := Awake(timedOut)]);
    case Destroy => DestroyKeeps(s);
    case _ => WaitingKeeps(s, e);
  }

  lemma CleanupAfresh(s: Pool, t: nat, created: bool)
    requires t < |s.workers|
    ensures WorkerCleanup(Afresh(s, t), t, created) == WorkerCleanup(s, t, created)
  {
    UpdateTwice(s.workers, t, Starting);
  }

  lemma WaitsMeanWork(s: Pool)
    requires Inv(s)
    ensures s.waitFlag ==> s.queue != [] || s.active != []
  {
  }

  lemma WaitingKeeps(s: Pool, e: Event)
    requires Inv(s) && Enabled(s, e)
    requires e.Wait? || e.WaiterRun? || e.WaiterRouse? || e.DestroyerRun? || e.DestroyerRouse?
    ensures Inv(Next(s, e))
  {
    hide Jobs, Count;
    JobsFrame(s, Next(s, e));
  }

  lemma SettleKeeps(s: Pool, t: nat, s': Pool)
    requires Inv(s) && t < |s.workers| && s.workers[t].Starting? && Settles(s, t, s')
    ensures Inv(s')
  {
    if Sleeps(s, t, s') { SleepKeeps(s, t, s'); }
    else if Dispatches(s, t, s') { DispatchKeeps(s, t, s'); }
    else { ExitKeeps(s, t, s'); }
  }

  /** The state from which an enabled Run(t) settles: t is no longer counted as idle. */
  function RunBase(s: Pool, t: nat): Pool
    requires t < |s.workers|
  {
    Afresh(if s.workers[t].Awake? then s.(idle := s.idle - 1) else s, t)
  }

  lemma AwakeAfresh(s: Pool, t: nat)
    requires Inv(s) && Enabled(s, Run(t))
    ensures Inv(RunBase(s, t))
  {
    hide Jobs, Count;
    var b := RunBase(s, t);
    CountUpdate(s.workers, t, Starting, Idle);
    CountUpdate(s.workers, t, Starting, Live);
    CountUpdate(s.workers, t, Starting, Sleeping);
    CountUpdate(s.workers, t, Starting, Heading);
    JobsFrame(s, b);
  }

  lemma RunSettles(s: Pool, t: nat)
    requires Inv(s) && Enabled(s, Run(t))
    ensures Settles(RunBase(s, t), t, Next(s, Run(t)))
  {
    if s.workers[t].Starting? {
      IdleSettles(s, t);
    } else {
      var b := s.(idle := s.idle - 1);
      assert b.(idle := b.idle + 1) == s;
      IdleSettles(b, t);
      if s.workers[t].timedOut { LeaveSettles(b, t, true); }
    }
  }

  // ---- runs ----

  predicate CreationSucceeds(e: Event) {
    match e
    case Queue(_, created) => created
    case ExitJob(_, created) => created
    case _ => true
  }

  /** The state after a run of enabled events from a fresh pool; thr_pool_create rejects other bounds. */
  ghost predicate Reaches(minimum: nat, maximum: nat, linger: nat, es: seq<Event>, s: Pool)
    decreases |es|
  {
    if es == [] then minimum <= maximum && 1 <= maximum && s == Init(minimum, maximum, linger)
    else
      var n := |es| - 1;
      exists s0 :: Reaches(minimum, maximum, linger, es[..n], s0) && Enabled(s0, es[n]) && s == Next(s0, es[n])
  }

  lemma ReachesNext(minimum: nat, maximum: nat, linger: nat, es: seq<Event>, s: Pool, e: Event)
    requires Reaches(minimum, maximum, linger, es, s) && Enabled(s, e)
    ensures Reaches(minimum, maximum, linger, es + [e], Next(s, e))
  {
    hide Enabled, Next;
    assert (es + [e])[..|es|] == es;
  }

  lemma {:induction false} InvReached(minimum: nat, maximum: nat, linger: nat, es: seq<Event>, s: Pool)
    requires Reaches(minimum, maximum, linger, es, s)
    ensures Inv(s)
    decreases |es|
  {
    if es != [] {
      var n := |es| - 1;
      var s0 :| Reaches(minimum, maximum, linger, es[..n], s0) && Enabled(s0, es[n]) && s == Next(s0, es[n]);
      InvReached(minimum, maximum, linger, es[..n], s0);
      InvStep(s0, es[n]);
    }
  }

  /** Some worker is alive and not asleep on pool_workcv. */
  ghost predicate SomeoneStirs(s: Pool) {
    exists t :: 0 <= t < |s.workers| && Live(s.workers[t]) && !s.workers[t].Asleep?
  }

  /** Whatever pthread_create does, queued jobs are stranded exactly when no worker is left. */
  lemma StrandedIffNoWorkers(s: Pool)
    requires Inv(s) && !s.destroyFlag && s.queue != []
    ensures SomeoneStirs(s) <==> s.nthreads != 0
  {
    CountPositive(s.workers, Live);
    CountPositive(s.workers, Heading);
    CountPositive(s.workers, Sleeping);
    if s.nthreads != 0 {
      var t :| 0 <= t < |s.workers| && Live(s.workers[t]);
      if s.workers[t].Asleep? {
        var u :| 0 <= u < |s.workers| && Heading(s.workers[u]);
        assert Live(s.workers[u]) && !s.workers[u].Asleep?;
      }
    }
  }

  /** The only steps that strand jobs: pthread_create fails for the first job of a pool without workers,
      or fails to replace the last worker while jobs are queued. */
  lemma StrandsIff(s: Pool, e: Event)
    requires Inv(s) && Enabled(s, e) && !Next(s, e).destroyFlag
    requires s.queue != [] ==> s.nthreads != 0
    ensures Next(s, e).queue != [] && Next(s, e).nthreads == 0 <==>
              || (e.Queue? && !e.created && s.nthreads == 0)
              || (e.ExitJob? && !e.created && s.nthreads == 1 && s.queue != [])
  {
    SleepersAreIdle(s.workers);
    hide IdleLoop, LeaveIdle, EnterIdle, ActiveList, Jobs, Destruction, Served, Waits;
    match e
    case Run(t) => hide Next; RunHasWorkers(s, t);
    case Return(t) => hide Next; ReturnHasWorkers(s, t);
    case ExitJob(t, created) => JobDoneKeeps(s, t);
    case _ =>
  }

  lemma RunHasWorkers(s: Pool, t: nat)
    requires Inv(s) && Enabled(s, Run(t)) && !Next(s, Run(t)).destroyFlag
    ensures Next(s, Run(t)).queue != [] ==> Next(s, Run(t)).nthreads != 0
  {
    RunSettles(s, t);
    AwakeAfresh(s, t);
    hide Next, Inv, Enabled, Settles;
    SettledHasWorkers(RunBase(s, t), t, Next(s, Run(t)));
  }

  lemma ReturnHasWorkers(s: Pool, t: nat)
    requires Inv(s) && Enabled(s, Return(t)) && !Next(s, Return(t)).destroyFlag
    ensures Next(s, Return(t)).queue != [] ==> Next(s, Return(t)).nthreads != 0
  {
    JobDoneKeeps(s, t);
    WaitsMeanWork(Afresh(JobCleanup(s, t), t));
    IdleSettles(JobCleanup(s, t), t);
    hide Inv, Settles, IdleLoop, EnterIdle, JobCleanup;
    SettledHasWorkers(Afresh(JobCleanup(s, t), t), t, Next(s, Return(t)));
  }

  lemma SettledHasWorkers(s: Pool, t: nat, s': Pool)
    requires Inv(s) && t < |s.workers| && s.workers[t].Starting? && Settles(s, t, s') && !s'.destroyFlag
    ensures s'.queue != [] ==> s'.nthreads != 0
  {
    CountPositive(s.workers, Live);
  }

  lemma DestroyIsFinal(s: Pool, e: Event)
    requires Enabled(s, e)
    ensures s.destroyFlag ==> Next(s, e).destroyFlag
  {
  }

  lemma {:induction false} WorkersRemain(minimum: nat, maximum: nat, linger: nat, es: seq<Event>, s: Pool)
    requires Reaches(minimum, maximum, linger, es, s) && !s.destroyFlag
    requires forall i | 0 <= i < |es| :: CreationSucceeds(es[i])
    ensures s.queue != [] ==> s.nthreads != 0
    decreases |es|
  {
    if es != [] {
      var n := |es| - 1;
      var s0 :| Reaches(minimum, maximum, linger, es[..n], s0) && Enabled(s0, es[n]) && s == Next(s0, es[n]);
      DestroyIsFinal(s0, es[n]);
      WorkersRemain(minimum, maximum, linger, es[..n], s0);
      InvReached(minimum, maximum, linger, es[..n], s0);
      StrandsIff(s0, es[n]);
    }
  }

  /** No stranded job: over all interleavings, a queued job has a worker that is not asleep. */
  lemma NoStrandedJob(minimum: nat, maximum: nat, linger: nat, es: seq<Event>, s: Pool)
    requires Reaches(minimum, maximum, linger, es, s) && !s.destroyFlag && s.queue != []
    requires forall i | 0 <= i < |es| :: CreationSucceeds(es[i])
    ensures SomeoneStirs(s)
  {
    InvReached(minimum, maximum, linger, es, s);
    WorkersRemain(minimum, maximum, linger, es, s);
    StrandedIffNoWorkers(s);
  }

  // ---- thr_pool_wait ----

  lemma NoMembers(a: seq<nat>)
    ensures (forall t :: t !in a) ==> a == []
  {
    if a != [] { assert a[0] in a; }
  }

  lemma AllFinished(s: Pool)
    requires Inv(s) && s.queue == [] && s.active == []
    ensures forall j: nat | j < s.submitted :: j in s.finished
  {
    assert forall j: nat, t: nat :: !HeldBy(s, j, t);
  }

  lemma WorkersReturnNobody(s: Pool, e: Event, w: nat)
    requires Inv(s) && Enabled(s, e) && (e.Run? || e.Return? || e.ExitJob?)
    ensures |Next(s, e).waiters| == |s.waiters|
    ensures w < |s.waiters| && Next(s, e).waiters[w].Returned? ==> s.waiters[w].Returned?
  {
    hide Counts, ActiveList, Jobs, Served, Destruction, Count, IdleLoop, LeaveIdle;
    if e.Run? { RunSettles(s, e.t); }
    if e.Return? {
      JobDoneKeeps(s, e.t);
      WaitsMeanWork(Afresh(JobCleanup(s, e.t), e.t));
      IdleSettles(JobCleanup(s, e.t), e.t);
    }
  }

  /** thr_pool_wait returns only when every job submitted so far has finished. */
  lemma WaitReturnsWhenDone(s: Pool, e: Event, w: nat)
    requires Inv(s) && Enabled(s, e) && w < |Next(s, e).waiters|
    requires Next(s, e).waiters[w].Returned? && (w < |s.waiters| ==> !s.waiters[w].Returned?)
    ensures forall j: nat | j < Next(s, e).submitted :: j in Next(s, e).finished
  {
    hide Inv, Count, IdleLoop, LeaveIdle, JobCleanup, WorkerCleanup;
    if e.Run? || e.Return? || e.ExitJob? { WorkersReturnNobody(s, e, w); }
    if s.queue == [] && s.active == [] { AllFinished(s); }
  }

  /** No lost wakeup: whoever sleeps in thr_pool_wait will be notified, for POOL_WAIT is set and there is
      still a queued or running job. */
  lemma SleepingWaiterIsExpected(s: Pool, w: nat)
    requires Inv(s) && w < |s.waiters| && s.waiters[w] == Waiting(false)
    ensures s.waitFlag && (s.queue != [] || s.active != [])
  {
  }

  /** Every submitted job is queued, or held by exactly one worker of the active list, or finished. */
  lemma EachJobOnce(s: Pool, j: nat)
    requires Inv(s) && j < s.submitted
    ensures j in s.queue ==> j !in s.finished && forall t: nat :: !HeldBy(s, j, t)
    ensures j !in s.queue && j !in s.finished ==> exists t: nat :: HeldBy(s, j, t) && t in s.active
    ensures forall t: nat, u: nat | HeldBy(s, j, t) && HeldBy(s, j, u) :: t == u && j !in s.finished
  {
    var d := Dispatched(s);
    if j >= d {
      assert s.queue[j - d] == j;
    } else if j !in s.finished {
      var t: nat :| HeldBy(s, j, t);
      assert t in s.active;
    }
  }

  // ---- linger ----

  /** A worker leaves an undestroyed pool on its own account only with no job queued and the minimum kept. */
  lemma LingerKeepsMinimum(s: Pool, e: Event)
    requires Inv(s) && Enabled(s, e) && (e.Run? || e.Return?) && !s.destroyFlag
    requires Next(s, e).workers[e.t].Gone?
    ensures Next(s, e).nthreads >= s.minimum && Next(s, e).nthreads == s.nthreads - 1 && Next(s, e).queue == []
  {
    if e.Run? {
      RunSettles(s, e.t);
    } else {
      JobDoneKeeps(s, e.t);
      WaitsMeanWork(Afresh(JobCleanup(s, e.t), e.t));
      IdleSettles(JobCleanup(s, e.t), e.t);
    }
  }
}
