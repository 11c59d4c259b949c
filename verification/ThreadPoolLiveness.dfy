/** A pool that is left alone works off its jobs, and every thr_pool_wait returns. */
module ThreadPoolLiveness {
  import opened Counting
  import opened ThreadPool
  import opened ThreadPoolProofs
  import opened ThreadPoolSize

  /** Steps of a pool that is left alone: no new calls and no spurious wakeups, but linger timeouts and exits inside
      jobs; pthread_create succeeds. */
  predicate Quiet(e: Event) {
    match e
    case Run(_) => true
    case Return(_) => true
    case ExitJob(_, created) => created
    case Rouse(_, timedOut) => timedOut
    case WaiterRun(_) => true
    case _ => false
  }

  /** How far a worker is from sleeping for good. */
  function Unrest(w: Worker): nat {
    match w
    case Starting => 3
    case Awake(timedOut) => if timedOut then 1 else 3
    case Asleep(timed) => if timed then 2 else 0
    case Busy(_) => 0
    case Gone => 0
  }

  /** A finished job may rouse every one of k waiters and have its worker replaced. */
  function Weight(k: nat, queued: nat, active: nat, rest: nat): nat {
    (k + 7) * queued + (k + 6) * active + rest
  }

  function Rank(s: Pool): nat {
    Weight(|s.waiters|, |s.queue|, |s.active|, Sum(s.workers, Unrest) + Count(s.waiters, Roused))
  }

  lemma Lighter(k: nat, queued: nat, active: nat, rest: nat, less: nat)
    ensures less < rest ==> Weight(k, queued, active, less) < Weight(k, queued, active, rest)
    ensures queued > 0 && less <= rest ==> Weight(k, queued - 1, active + 1, less) < Weight(k, queued, active, rest)
    ensures active > 0 && less < rest + k + 6 ==> Weight(k, queued, active - 1, less) < Weight(k, queued, active, rest)
    ensures active > 0 && queued > 0 && less < rest + k + 6 ==>
              Weight(k, queued - 1, active, less) < Weight(k, queued, active, rest)
  {
    Scaled(k + 7, queued);
    Scaled(k + 6, active);
  }

  lemma Scaled(k: nat, n: nat)
    ensures n > 0 ==> k * (n - 1) == k * n - k
    ensures k * (n + 1) == k * n + k
  {
  }

  // ---- every quiet step brings the rank down ----

  /** Worker t, not counted as idle or busy, has gone to sleep, left, or taken the first job. */
  ghost predicate Placed(s: Pool, t: nat, x: Worker, r: Pool)
    requires t < |s.workers|
  {
    && r.workers == s.workers[t := x] && r.waiters == s.waiters && !r.destroyFlag
    && if x.Busy? then |r.queue| == |s.queue| - 1 && |r.active| == |s.active| + 1
       else r.queue == s.queue && r.active == s.active && Unrest(x) <= 2
  }

  lemma SettlesPlaces(s: Pool, t: nat, r: Pool)
    requires t < |s.workers| && Settles(Afresh(s, t), t, r) && !s.destroyFlag
    ensures Placed(s, t, r.workers[t], r)
  {
    UpdateTwice(s.workers, t, Starting);
  }

  lemma PlacedRank(s: Pool, t: nat, x: Worker, r: Pool)
    requires t < |s.workers| && Placed(s, t, x, r) && (!x.Busy? ==> Unrest(x) < Unrest(s.workers[t]))
    ensures Rank(r) < Rank(s)
  {
    hide Weight, Sum, Count;
    SumUpdate(s.workers, t, x, Unrest);
    Lighter(|s.waiters|, |s.queue|, |s.active|, Sum(s.workers, Unrest) + Count(s.waiters, Roused),
            Sum(r.workers, Unrest) + Count(r.waiters, Roused));
  }

  lemma TimedOutPlaces(s: Pool, t: nat)
    requires Inv(s) && Enabled(s, Run(t)) && s.workers[t] == Awake(true)
    ensures var x := Next(s, Run(t)).workers[t]; x.Busy? || Unrest(x) == 0
  {
  }

  lemma RunPlaces(s: Pool, t: nat)
    requires Inv(s) && !s.destroyFlag && Enabled(s, Run(t))
    ensures Placed(s, t, Next(s, Run(t)).workers[t], Next(s, Run(t)))
  {
    RunSettles(s, t);
    hide Next, Inv, Settles;
    SettlesPlaces(if s.workers[t].Awake? then s.(idle := s.idle - 1) else s, t, Next(s, Run(t)));
  }

  lemma RunRank(s: Pool, t: nat)
    requires Inv(s) && !s.destroyFlag && Enabled(s, Run(t))
    ensures Rank(Next(s, Run(t))) < Rank(s)
  {
    hide Next, Inv, Rank;
    var r := Next(s, Run(t));
    RunPlaces(s, t);
    if s.workers[t] == Awake(true) { TimedOutPlaces(s, t); }
    PlacedRank(s, t, r.workers[t], r);
  }

  lemma {:induction false} UnlinkLength(a: seq<nat>, t: nat)
    ensures |Unlink(a, t)| == |a| - if t in a then 1 else 0
  {
    if a != [] && a[0] != t { UnlinkLength(a[1..], t); }
  }

  /** A job is over; all the waiters may have been roused. */
  lemma CleanupRank(s: Pool, t: nat)
    requires Inv(s) && t < |s.workers| && s.workers[t].Busy?
    ensures var c := JobCleanup(s, t);
      && |c.active| == |s.active| - 1 && c.queue == s.queue && c.workers == s.workers && |c.waiters| == |s.waiters|
      && c.destroyFlag == s.destroyFlag && Count(c.waiters, Roused) <= |s.waiters| && c.nthreads == s.nthreads
      && (c.waitFlag ==> c.queue != [] || c.active != [])
  {
    UnlinkLength(s.active, t);
    CountAtMost(JobCleanup(s, t).waiters, Roused);
  }

  lemma ReturnPlaces(s: Pool, t: nat)
    requires Inv(s) && !s.destroyFlag && Enabled(s, Return(t))
    ensures Placed(JobCleanup(s, t), t, Next(s, Return(t)).workers[t], Next(s, Return(t)))
  {
    CleanupRank(s, t);
    IdleSettles(JobCleanup(s, t), t);
    hide Inv, Settles, JobCleanup, IdleLoop, EnterIdle;
    SettlesPlaces(JobCleanup(s, t), t, Next(s, Return(t)));
  }

  lemma ReturnRank(s: Pool, t: nat)
    requires Inv(s) && !s.destroyFlag && Enabled(s, Return(t))
    ensures Rank(Next(s, Return(t))) < Rank(s)
  {
    var r := Next(s, Return(t));
    CleanupRank(s, t);
    ReturnPlaces(s, t);
    hide Next, Inv, Sum, Count, JobCleanup, Weight;
    SumUpdate(s.workers, t, r.workers[t], Unrest);
    Lighter(|s.waiters|, |s.queue|, |s.active|, Sum(s.workers, Unrest) + Count(s.waiters, Roused),
            Sum(r.workers, Unrest) + Count(r.waiters, Roused));
  }

  lemma ExitPlaces(s: Pool, t: nat)
    requires !s.destroyFlag && Enabled(s, ExitJob(t, true))
    ensures var c, r := JobCleanup(s, t), Next(s, ExitJob(t, true));
      && r.queue == c.queue && r.active == c.active && r.waiters == c.waiters
      && (r.workers == c.workers[t := Gone] || r.workers == c.workers[t := Gone] + [Starting])
  {
    hide Unlink, RouseAll;
  }

  lemma ExitRank(s: Pool, t: nat)
    requires Inv(s) && !s.destroyFlag && Enabled(s, ExitJob(t, true))
    ensures Rank(Next(s, ExitJob(t, true))) < Rank(s)
  {
    var r := Next(s, ExitJob(t, true));
    CleanupRank(s, t);
    ExitPlaces(s, t);
    hide Next, Inv, Sum, Count, JobCleanup, Weight;
    SumUpdate(s.workers, t, Gone, Unrest);
    SumAppend(s.workers[t := Gone], Starting, Unrest);
    Lighter(|s.waiters|, |s.queue|, |s.active|, Sum(s.workers, Unrest) + Count(s.waiters, Roused),
            Sum(r.workers, Unrest) + Count(r.waiters, Roused));
  }

  lemma RankDecreases(s: Pool, e: Event)
    requires Inv(s) && !s.destroyFlag && Enabled(s, e) && Quiet(e)
    ensures Rank(Next(s, e)) < Rank(s) && !Next(s, e).destroyFlag
  {
    FlagKept(s, e);
    match e
    case Run(t) => RunRank(s, t);
    case Return(t) => ReturnRank(s, t);
    case ExitJob(t, _) => ExitRank(s, t);
    case _ => SmallSteps(s, e);
  }

  lemma SmallSteps(s: Pool, e: Event)
    requires Enabled(s, e) && Quiet(e) && (e.Rouse? || e.WaiterRun?)
    ensures Rank(Next(s, e)) < Rank(s)
  {
    hide Weight, Sum, Count;
    if e.Rouse? {
      SumUpdate(s.workers, e.t, Awake(true), Unrest);
    } else {
      CountUpdate(s.waiters, e.w, Next(s, e).waiters[e.w], Roused);
    }
    Lighter(|s.waiters|, |s.queue|, |s.active|, Sum(s.workers, Unrest) + Count(s.waiters, Roused),
            Sum(Next(s, e).workers, Unrest) + Count(Next(s, e).waiters, Roused));
  }

  lemma FlagKept(s: Pool, e: Event)
    requires Enabled(s, e) && Quiet(e)
    ensures Next(s, e).destroyFlag == s.destroyFlag
  {
  }

  // ---- where it rests ----

  ghost predicate AtRest(s: Pool) {
    forall e | Quiet(e) :: !Enabled(s, e)
  }

  /** Nothing is queued or running, every job is finished, and nobody is left in thr_pool_wait. */
  ghost predicate WorkedOff(s: Pool) {
    && s.queue == [] && s.active == [] && (forall j: nat | j < s.submitted :: j in s.finished)
    && (forall w | 0 <= w < |s.waiters| :: s.waiters[w].Returned?)
  }

  lemma RestIsDone(s: Pool)
    requires Inv(s) && !s.destroyFlag && (s.queue != [] ==> s.nthreads != 0) && AtRest(s)
    ensures WorkedOff(s)
  {
    hide Counts, Jobs, Served;
    forall t: nat | t < |s.workers| ensures s.workers[t].Asleep? || s.workers[t].Gone? {
      assert Quiet(Run(t)) && Quiet(Return(t));
    }
    if s.queue != [] { StrandedIffNoWorkers(s); }
    NoMembers(s.active);
    AllFinished(s);
    forall w | 0 <= w < |s.waiters| ensures s.waiters[w].Returned? {
      assert Quiet(WaiterRun(w));
    }
  }

  ghost predicate QuietRun(s: Pool, es: seq<Event>, r: Pool)
    decreases |es|
  {
    if es == [] then r == s
    else Enabled(s, es[0]) && Quiet(es[0]) && QuietRun(Next(s, es[0]), es[1..], r)
  }

  lemma {:induction false} QuietRuns(s: Pool, es: seq<Event>, r: Pool)
    requires Inv(s) && !s.destroyFlag && (s.queue != [] ==> s.nthreads != 0) && QuietRun(s, es, r)
    ensures Inv(r) && !r.destroyFlag && (r.queue != [] ==> r.nthreads != 0) && |es| + Rank(r) <= Rank(s)
    ensures Steady(s) ==> Steady(r)
    decreases |es|
  {
    if es != [] {
      RankDecreases(s, es[0]);
      InvStep(s, es[0]);
      StrandsIff(s, es[0]);
      if Steady(s) { SteadyStep(s, es[0]); }
      hide Inv, Enabled, Next, Rank, Steady;
      QuietRuns(Next(s, es[0]), es[1..], r);
    }
  }

  lemma NobodyToSpare(s: Pool)
    requires Inv(s) && Steady(s) && !s.destroyFlag && AtRest(s)
    ensures s.nthreads <= s.minimum
  {
    hide Jobs, Served, ActiveList, Waits;
    CountPositive(s.workers, Live);
    if t: nat :| t < |s.workers| && Live(s.workers[t]) {
      assert Quiet(Run(t)) && Quiet(Return(t)) && Quiet(Rouse(t, true));
      assert s.workers[t] == Asleep(false);
    }
  }

  /** From every state that a pool reaches with creation succeeding: left alone, it comes to rest after a bounded
      number of steps, and only with all jobs finished, every waiter returned, and no worker above the minimum left. */
  lemma WorksOff(minimum: nat, maximum: nat, linger: nat, past: seq<Event>, s: Pool, es: seq<Event>, r: Pool)
    requires Reaches(minimum, maximum, linger, past, s) && !s.destroyFlag
    requires forall i | 0 <= i < |past| :: CreationSucceeds(past[i])
    requires QuietRun(s, es, r)
    ensures |es| <= Rank(s)
    ensures AtRest(r) ==> WorkedOff(r) && r.nthreads <= r.minimum
  {
    InvReached(minimum, maximum, linger, past, s);
    WorkersRemain(minimum, maximum, linger, past, s);
    SteadyReached(minimum, maximum, linger, past, s);
    QuietRuns(s, es, r);
    if AtRest(r) {
      RestIsDone(r);
      NobodyToSpare(r);
    }
  }
}
