/** How many workers a pool has, and what each of them does when it gets the mutex. */
module ThreadPoolSize {
  import opened Counting
  import opened ThreadPool
  import opened ThreadPoolProofs

  // ---- growing ----

  /** A submission starts a worker exactly when creation succeeds, nobody is idle, and fewer than the maximum live. */
  lemma SubmissionGrows(s: Pool, woken: set<nat>, created: bool)
    requires Inv(s) && Enabled(s, Queue(woken, created))
    ensures Count(Next(s, Queue(woken, created)).workers, Live)
         == Count(s.workers, Live)
            + if created && Count(s.workers, Idle) == 0 && Count(s.workers, Live) < s.maximum then 1 else 0
  {
    InvStep(s, Queue(woken, created));
    hide Count, Jobs, ActiveList, Waits, Destruction, Served, RouseWorkers;
  }

  /** In a run: k submissions to a new pool, before any worker gets the mutex, start k workers or the maximum. */
  lemma {:induction false} FirstSubmissions(minimum: nat, maximum: nat, linger: nat, k: nat, s: Pool)
    requires Reaches(minimum, maximum, linger, seq(k, i => Queue({}, true)), s)
    ensures Count(s.workers, Live) == (if k < maximum then k else maximum) && |s.queue| == k
  {
    InvReached(minimum, maximum, linger, seq(k, i => Queue({}, true)), s);
    Unstarted(minimum, maximum, linger, k, s);
  }

  lemma {:induction false} Unstarted(minimum: nat, maximum: nat, linger: nat, k: nat, s: Pool)
    requires Reaches(minimum, maximum, linger, seq(k, i => Queue({}, true)), s)
    ensures s.idle == 0 && s.nthreads == (if k < maximum then k else maximum) && |s.queue| == k && s.maximum == maximum
  {
    if k > 0 {
      var es := seq(k, i => Queue({}, true));
      assert es[..k - 1] == seq(k - 1, i => Queue({}, true));
      var p :| Reaches(minimum, maximum, linger, es[..k - 1], p) && Enabled(p, es[k - 1]) && s == Next(p, es[k - 1]);
      Unstarted(minimum, maximum, linger, k - 1, p);
    }
  }

  /** A worker that ends inside a job is replaced exactly when jobs are queued, the pool is not being destroyed, and
      creation succeeds. */
  lemma ExitReplaces(s: Pool, t: nat, created: bool)
    requires Inv(s) && Enabled(s, ExitJob(t, created))
    ensures Count(Next(s, ExitJob(t, created)).workers, Live)
         == Count(s.workers, Live) - if created && s.queue != [] && !s.destroyFlag then 0 else 1
  {
    InvStep(s, ExitJob(t, created));
    hide Count, Jobs, ActiveList, Waits, Served, Unlink, RouseAll;
  }

  // ---- a worker's turn ----

  /** A worker that gets the mutex leaves exactly in a destroyed pool, or with no work, workers to spare, and its linger
      time over; it takes the first job whenever there is one; else it sleeps, for the linger time exactly when there
      are workers to spare. */
  lemma TurnIs(s: Pool, e: Event, t: nat)
    requires Inv(s) && Enabled(s, e) && (e == Run(t) || e == Return(t))
    ensures var r := Next(s, e); var x := r.workers[t];
      && (x.Gone? <==> s.destroyFlag || (s.queue == [] && s.nthreads > s.minimum
                                         && (s.workers[t] == Awake(true) || s.linger == 0)))
      && (x.Busy? <==> !s.destroyFlag && s.queue != [])
      && (x.Busy? ==> x.job == s.queue[0] && r.queue == s.queue[1..] && t in r.active)
      && (!x.Gone? && !x.Busy? ==> x == Asleep(s.nthreads > s.minimum))
      && r.nthreads == s.nthreads - (if x.Gone? then 1 else 0)
      && |r.workers| == |s.workers| && forall u | 0 <= u < |s.workers| && u != t :: r.workers[u] == s.workers[u]
  {
    if e == Run(t) { RunTurn(s, t); } else { ReturnTurn(s, t); }
  }

  lemma RunTurn(s: Pool, t: nat)
    requires Inv(s) && Enabled(s, Run(t))
    ensures Turn(s, s.workers[t] == Awake(true), t, Next(s, Run(t)))
  {
    WaitsMeanWork(s);
    hide Inv;
  }

  lemma ReturnTurn(s: Pool, t: nat)
    requires Inv(s) && Enabled(s, Return(t))
    ensures Turn(s, false, t, Next(s, Return(t)))
  {
    JobDoneKeeps(s, t);
    WaitsMeanWork(Afresh(JobCleanup(s, t), t));
    hide Inv;
  }

  ghost predicate Turn(s: Pool, timedOut: bool, t: nat, r: Pool) {
    && t < |s.workers| && |r.workers| == |s.workers|
    && (forall u | 0 <= u < |s.workers| && u != t :: r.workers[u] == s.workers[u])
    && var x := r.workers[t];
       && (x.Gone? <==> s.destroyFlag || (s.queue == [] && s.nthreads > s.minimum && (timedOut || s.linger == 0)))
       && (x.Busy? <==> !s.destroyFlag && s.queue != [])
       && (x.Busy? ==> x.job == s.queue[0] && r.queue == s.queue[1..] && t in r.active)
       && (!x.Gone? && !x.Busy? ==> x == Asleep(s.nthreads > s.minimum))
       && r.nthreads == s.nthreads - (if x.Gone? then 1 else 0)
  }

  // ---- who is woken ----

  /** A worker's step wakes a sleeping waiter exactly when it leaves nothing queued and nothing running. */
  lemma WaiterRousedIff(s: Pool, e: Event, w: nat)
    requires Inv(s) && Enabled(s, e) && (e.Run? || e.Return? || e.ExitJob?)
    requires w < |s.waiters| && s.waiters[w] == Waiting(false)
    ensures Next(s, e).waiters[w] == Waiting(true) <==> Next(s, e).queue == [] && Next(s, e).active == []
  {
    InvStep(s, e);
    WorkersReturnNobody(s, e, w);
    RousedMeansDone(s, e, w);
  }

  lemma RousedMeansDone(s: Pool, e: Event, w: nat)
    requires Inv(s) && Enabled(s, e) && (e.Run? || e.Return? || e.ExitJob?)
    requires w < |s.waiters| && s.waiters[w] == Waiting(false) && w < |Next(s, e).waiters|
    ensures Next(s, e).waiters[w] == Waiting(true) ==> Next(s, e).queue == [] && Next(s, e).active == []
  {
    hide Counts, ActiveList, Jobs, Served, Destruction, Count;
    if e.Run? { RunSettles(s, e.t); }
    if e.Return? {
      JobDoneKeeps(s, e.t);
      WaitsMeanWork(Afresh(JobCleanup(s, e.t), e.t));
      IdleSettles(JobCleanup(s, e.t), e.t);
    }
  }

  /** A worker's step wakes a destroyer that waits for the workers exactly when it was the last one. */
  lemma DestroyerRousedIff(s: Pool, e: Event)
    requires Inv(s) && Enabled(s, e) && (e.Run? || e.Return? || e.ExitJob?) && s.destroyer == OnBusyCv(false)
    ensures Next(s, e).destroyer == OnBusyCv(true) <==> Next(s, e).nthreads == 0
  {
    hide Counts, ActiveList, Jobs, Served, Count;
    if e.Run? { RunSettles(s, e.t); }
    if e.Return? {
      JobDoneKeeps(s, e.t);
      WaitsMeanWork(Afresh(JobCleanup(s, e.t), e.t));
      IdleSettles(JobCleanup(s, e.t), e.t);
    }
  }

  // ---- shrinking ----

  /** Only workers that the minimum needs sleep without a timeout. */
  ghost predicate Steady(s: Pool) {
    !s.destroyFlag ==> forall t | 0 <= t < |s.workers| && s.workers[t] == Asleep(false) :: s.nthreads <= s.minimum
  }

  lemma NobodyIdle(ws: seq<Worker>, t: nat)
    requires Count(ws, Idle) == 0 && t < |ws|
    ensures !ws[t].Asleep?
  {
    CountPositive(ws, Idle);
    assert !Idle(ws[t]);
  }

  lemma SteadyQueue(s: Pool, woken: set<nat>, created: bool)
    requires Inv(s) && Steady(s) && Enabled(s, Queue(woken, created))
    ensures Steady(Next(s, Queue(woken, created)))
  {
    hide Jobs, ActiveList, Waits, Destruction, Served, Count;
    var r := Next(s, Queue(woken, created));
    forall t: nat | t < |s.workers| && r.workers[t] == Asleep(false) && !s.destroyFlag
      ensures r.nthreads <= r.minimum
    {
      if s.idle == 0 { NobodyIdle(s.workers, t); }
    }
  }

  lemma SteadyExit(s: Pool, t: nat, created: bool)
    requires Inv(s) && Steady(s) && Enabled(s, ExitJob(t, created))
    ensures Steady(Next(s, ExitJob(t, created)))
  {
    hide Inv, Unlink, RouseAll;
    var r := Next(s, ExitJob(t, created));
    assert forall u: nat | u < |r.workers| && r.workers[u] == Asleep(false) ::
        u < |s.workers| && s.workers[u] == Asleep(false);
  }

  lemma SteadyStep(s: Pool, e: Event)
    requires Inv(s) && Steady(s) && Enabled(s, e)
    ensures Steady(Next(s, e))
  {
    match e
    case Queue(woken, created) => SteadyQueue(s, woken, created);
    case ExitJob(t, created) => SteadyExit(s, t, created);
    case Run(t) => SteadyTurn(s, e, t);
    case Return(t) => SteadyTurn(s, e, t);
    case _ => SteadyOther(s, e);
  }

  lemma SteadyTurn(s: Pool, e: Event, t: nat)
    requires Inv(s) && Steady(s) && Enabled(s, e) && (e == Run(t) || e == Return(t))
    ensures Steady(Next(s, e))
  {
    TurnIs(s, e, t);
    TurnKeeps(s, e, t);
    hide Inv, Next, Enabled;
    var r := Next(s, e);
    forall u: nat | u < |r.workers| && r.workers[u] == Asleep(false) && !r.destroyFlag ensures r.nthreads <= r.minimum {
      assert u != t ==> s.workers[u] == Asleep(false);
    }
  }

  lemma TurnKeeps(s: Pool, e: Event, t: nat)
    requires Enabled(s, e) && (e == Run(t) || e == Return(t))
    ensures Next(s, e).minimum == s.minimum && Next(s, e).destroyFlag == s.destroyFlag
  {
  }

  lemma SteadyOther(s: Pool, e: Event)
    requires Steady(s) && Enabled(s, e) && !e.Queue? && !e.ExitJob? && !e.Run? && !e.Return?
    ensures Steady(Next(s, e))
  {
  }

  lemma {:induction false} SteadyReached(minimum: nat, maximum: nat, linger: nat, es: seq<Event>, s: Pool)
    requires Reaches(minimum, maximum, linger, es, s)
    ensures Steady(s)
    decreases |es|
  {
    if es != [] {
      var n := |es| - 1;
      var p :| Reaches(minimum, maximum, linger, es[..n], p) && Enabled(p, es[n]) && s == Next(p, es[n]);
      SteadyReached(minimum, maximum, linger, es[..n], p);
      InvReached(minimum, maximum, linger, es[..n], p);
      SteadyStep(p, es[n]);
    }
  }
}
