/** The code of pthreads/thr_pool.c on its linked lists, each mutex-held region a method proved against its step. What
    is ghost here is not in thr_pool: where each thread is, and which jobs are done. */
module ThreadPoolMonitor {
  import opened SeqEdits
  import opened LinkedNodes
  import opened PoolLists
  import opened ThreadPool
  import opened ThreadPoolProofs
  import ThreadPoolDestroy

  /** How a worker gets hold of pool_mutex in worker_thread. */
  datatype Entry = AtTop | FromWait(timedOut: bool)

  lemma {:induction false} UnlinkAt(a: seq<nat>, i: nat, t: nat)
    requires i <= |a| && (forall k | 0 <= k < i :: a[k] != t) && (i < |a| ==> a[i] == t)
    ensures Unlink(a, t) == if i < |a| then a[..i] + a[i + 1..] else a
  {
    if i > 0 {
      UnlinkAt(a[1..], i - 1, t);
      assert i < |a| ==> a[..i] + a[i + 1..] == [a[0]] + (a[1..][..i - 1] + a[1..][i..]);
    }
  }

  lemma TidsRemoved(s: seq<Active>, i: nat)
    requires i < |s|
    ensures Tids(Removed(s, i)) == Tids(s)[..i] + Tids(s)[i + 1..]
  {
  }

  /** After job_cleanup the worker has no entry in the active list. */
  lemma UnlinkedIsOut(s: Pool, t: nat)
    requires Inv(s)
    ensures t !in Unlink(s.active, t)
  {
    UnlinkRemoves(s.active, t);
  }

  lemma IdleIsOut(s: Pool, t: nat)
    requires Inv(s) && t < |s.workers| && !s.workers[t].Busy?
    ensures t !in s.active
  {
  }

  lemma NotListed(a: Active, s: seq<Active>)
    requires a.tid !in Tids(s)
    ensures a !in s
  {
    forall i | 0 <= i < |s| ensures s[i] != a { assert Tids(s)[i] in Tids(s); }
  }

  function Outcome(s: Pool, t: nat, top: bool, timedOut: bool): Pool
    requires t < |s.workers|
  {
    if top then IdleLoop(EnterIdle(s), t) else if timedOut then LeaveIdle(s, t, true) else IdleLoop(s, t)
  }

  lemma OnceMore(s: Pool, t: nat)
    requires t < |s.workers| && s.queue == [] && !s.destroyFlag && s.nthreads <= s.minimum
    ensures LeaveIdle(s, t, true) == IdleLoop(EnterIdle(s.(idle := s.idle - 1)), t)
  {
  }

  lemma EnterIdleFields(s: Pool)
    ensures var r := EnterIdle(s);
      && r.queue == s.queue && r.destroyFlag == s.destroyFlag && r.nthreads == s.nthreads && r.minimum == s.minimum
      && r.workers == s.workers
  {
  }

  class ThrPool {
    const minimum: nat
    const maximum: nat
    const linger: nat
    const jobs: JobQueue
    const actives: ActiveList
    var waitFlag: bool
    var destroyFlag: bool
    var nthreads: int
    var idle: int
    ghost var workers: seq<Worker>
    ghost var waiters: seq<Waiter>
    ghost var destroyer: Destroyer
    ghost var submitted: nat
    ghost var finished: set<nat>

    ghost function View(): Pool
      reads this, jobs, actives
    {
      Pool(minimum, maximum, linger, NumbersOf(jobs.list), Tids(actives.list), waitFlag, destroyFlag, nthreads, idle,
           workers, waiters, destroyer, submitted, finished)
    }

    ghost predicate Linked()
      reads jobs, jobs.list, actives, actives.list
    {
      jobs.Valid() && actives.Valid()
    }

    ghost predicate Valid()
      reads this, jobs, jobs.list, actives, actives.list
    {
      Linked() && Inv(View())
    }

    /** thr_pool_create has rejected other bounds. */
    constructor (minThreads: nat, maxThreads: nat, lingerSeconds: nat)
      requires minThreads <= maxThreads && 1 <= maxThreads
      ensures Valid() && View() == Init(minThreads, maxThreads, lingerSeconds)
    {
      minimum, maximum, linger := minThreads, maxThreads, lingerSeconds;
      jobs := new JobQueue();
      actives := new ActiveList();
      waitFlag, destroyFlag := false, false;
      nthreads, idle := 0, 0;
      workers, waiters, destroyer, submitted, finished := [], [], NotCalled, 0, {};
    }

    lemma HeadsMeanLists()
      requires Linked()
      ensures jobs.head == null <==> View().queue == []
      ensures actives.first == null <==> View().active == []
    {
    }

    method BroadcastWait()
      modifies this`waiters, this`destroyer
      ensures waiters == RouseAll(old(waiters))
      ensures destroyer == if old(destroyer).OnWaitCv? then OnWaitCv(true) else old(destroyer)
    {
      waiters := RouseAll(waiters);
      if destroyer.OnWaitCv? { destroyer := OnWaitCv(true); }
    }

    method Notify()
      requires Linked()
      modifies this`waitFlag, this`waiters, this`destroyer
      ensures View() == NotifyWaiters(old(View()))
    {
      HeadsMeanLists();
      if jobs.head == null && actives.first == null {
        waitFlag := false;
        BroadcastWait();
      }
    }

    /** job_cleanup, up to but not including the release of the mutex. */
    method FinishJob(t: nat)
      requires Linked() && t < |workers| && workers[t].Busy?
      modifies this, actives, actives.list
      ensures Linked() && View() == JobCleanup(old(View()), t)
    {
      hide Linked, Unlink, NotifyWaiters;
      RemoveEntry(t);
      finished := finished + {workers[t].job};
      if waitFlag { Notify(); }
    }

    method RemoveEntry(t: nat)
      requires Linked()
      modifies actives, actives.list
      ensures Linked() && View() == old(View()).(active := Unlink(old(View()).active, t))
    {
      ghost var entries := actives.list;
      ghost var i := actives.Remove(t);
      UnlinkAt(Tids(entries), i, t);
      hide Unlink;
      if i < |entries| { TidsRemoved(entries, i); }
    }

    method CleanupWorker(t: nat, created: bool)
      requires Linked() && t < |workers|
      modifies this
      ensures Linked() && View() == WorkerCleanup(old(View()), t, created)
    {
      HeadsMeanLists();
      nthreads := nthreads - 1;
      workers := workers[t := Gone];
      if destroyFlag {
        if nthreads == 0 && destroyer.OnBusyCv? { destroyer := OnBusyCv(true); }
      } else if jobs.head != null && nthreads < maximum && created {
        workers := workers + [Starting];
        nthreads := nthreads + 1;
      }
    }

    /** The top of the main loop of worker_thread. */
    method BecomeIdle()
      requires Linked()
      modifies this`idle, this`waitFlag, this`waiters, this`destroyer
      ensures View() == EnterIdle(old(View()))
    {
      idle := idle + 1;
      if waitFlag { Notify(); }
    }

    /** The inner while loop of worker_thread: either the worker waits, or it goes on, timed out or not. */
    method AwaitWork(t: nat, timedOut: bool) returns (waits: bool, timedout: bool)
      requires Linked() && t < |workers|
      modifies this`workers
      ensures waits ==> !timedOut && View() == IdleLoop(old(View()), t)
      ensures !waits ==> View() == old(View())
      ensures !waits ==>
                LeaveIdle(View(), t, timedout) == if timedOut then LeaveIdle(View(), t, true) else IdleLoop(View(), t)
      ensures !waits ==> timedout || View().queue != [] || destroyFlag
      ensures !timedOut && old(View().queue == [] && !destroyFlag && nthreads <= minimum) ==> waits
    {
      HeadsMeanLists();
      timedout := timedOut;
      while !timedout && jobs.head == null && !destroyFlag
        invariant View() == old(View())
        invariant timedout && !timedOut ==> jobs.head == null && !destroyFlag && nthreads > minimum && linger == 0
        invariant timedOut ==> timedout
        decreases !timedout
      {
        if nthreads <= minimum {
          workers := workers[t := Asleep(false)];
          return true, false;
        } else if linger == 0 {
          timedout := true;
        } else {
          workers := workers[t := Asleep(true)];
          return true, false;
        }
      }
      waits := false;
    }

    /** Takes the first job; the worker's own entry becomes the first of the active list. */
    method Dispatch(t: nat, mine: Active)
      requires Linked() && View().queue != [] && t < |workers| && mine.tid == t && mine !in actives.list
      modifies this`workers, jobs, actives, mine`next
      ensures Linked() && View() == TakeFirst(old(View()), t)
    {
      hide Linked;
      var job := TakeJob();
      PushEntry(mine);
      workers := workers[t := Busy(job.number)];
    }

    method TakeJob() returns (job: Job)
      requires Linked() && View().queue != []
      modifies jobs
      ensures Linked() && job.number == old(View()).queue[0] && View() == old(View()).(queue := old(View()).queue[1..])
    {
      ghost var before := jobs.list;
      job := jobs.Take();
      assert NumbersOf(before)[1..] == NumbersOf(jobs.list);
    }

    method PushEntry(mine: Active)
      requires Linked() && mine !in actives.list
      modifies actives, mine`next
      ensures Linked() && View() == old(View()).(active := [mine.tid] + old(View()).active)
    {
      ghost var before := actives.list;
      actives.Push(mine);
      assert Tids([mine] + before) == [mine.tid] + Tids(before);
    }

    /** From the end of the inner loop to the release of the mutex, or to one more round of the main loop. */
    method LeaveLoop(t: nat, timedout: bool, mine: Active) returns (again: bool)
      requires Linked() && t < |workers| && mine.tid == t && mine !in actives.list
      modifies this, jobs, actives, mine`next
      ensures Linked()
      ensures !again ==> View() == LeaveIdle(old(View()), t, timedout)
      ensures again ==> View() == old(View()).(idle := old(idle) - 1) && actives.list == old(actives.list)
      ensures again <==> old(!destroyFlag && View().queue == []) && !(timedout && old(nthreads > minimum))
    {
      HeadsMeanLists();
      hide WorkerCleanup, TakeFirst, EnterIdle, Linked;
      again := !destroyFlag && jobs.head == null && !(timedout && nthreads > minimum);
      StopIdling();
      if !again { ExitOrDispatch(t, mine); }
    }

    method StopIdling()
      requires Linked()
      modifies this`idle
      ensures Linked() && View() == old(View()).(idle := old(idle) - 1)
    {
      idle := idle - 1;
    }

    /** A worker that does not go round again performs the first job, unless there is none or the pool is destroyed. */
    method ExitOrDispatch(t: nat, mine: Active)
      requires Linked() && t < |workers| && mine.tid == t && mine !in actives.list
      modifies this, jobs, actives, mine`next
      ensures Linked()
      ensures View() == if old(destroyFlag || View().queue == []) then WorkerCleanup(old(View()), t, false)
                        else TakeFirst(old(View()), t)
    {
      HeadsMeanLists();
      hide WorkerCleanup, TakeFirst, Linked;
      if !destroyFlag && jobs.head != null {
        Dispatch(t, mine);
      } else {
        CleanupWorker(t, false);
      }
    }

    /** worker_thread from taking the mutex to the next wait, dispatch or exit; mine is the worker's own entry. */
    method WorkerThread(t: nat, entry: Entry, mine: Active)
      requires Linked() && t < |workers| && mine.tid == t && mine !in actives.list
      modifies this, jobs, actives, mine`next
      ensures Linked() && View() == Outcome(old(View()), t, entry.AtTop?, entry == FromWait(true))
    {
      hide IdleLoop, EnterIdle, LeaveIdle, Linked;
      var timedout := entry == FromWait(true);
      if entry.AtTop? { BecomeIdle(); }
      ghost var s := View();
      EnterIdleFields(old(View()));
      var waits;
      waits, timedout := AwaitWork(t, timedout);
      if waits { return; }
      var again := LeaveLoop(t, timedout, mine);
      if again {
        OnceMore(s, t);
        SecondRound(t);
      }
    }

    /** The second round of the main loop cannot but wait: there is no work, and no worker to spare. */
    method SecondRound(t: nat)
      requires Linked() && t < |workers| && View().queue == [] && !destroyFlag && nthreads <= minimum
      modifies this
      ensures Linked() && View() == IdleLoop(EnterIdle(old(View())), t)
    {
      hide IdleLoop, EnterIdle, Linked;
      EnterIdleFields(View());
      BecomeIdle();
      var waits, timedout := AwaitWork(t, false);
    }

    // ---- the regions, each one step of the pool ----

    /** A worker gets the mutex for the first time or after its wait. */
    method RunWorker(t: nat, entry: Entry, mine: Active)
      requires Valid() && Enabled(View(), Run(t)) && mine.tid == t
      requires if entry.AtTop? then workers[t].Starting? else workers[t] == Awake(entry.timedOut)
      modifies this, jobs, actives, mine`next
      ensures Valid() && View() == Next(old(View()), Run(t))
    {
      InvStep(View(), Run(t));
      IdleIsOut(View(), t);
      NotListed(mine, actives.list);
      hide Inv, Linked;
      WorkerThread(t, entry, mine);
    }

    /** The job function returns: job_cleanup, then on to the next round of the main loop. */
    method ReturnFromJob(t: nat, mine: Active)
      requires Valid() && Enabled(View(), Return(t)) && mine.tid == t
      modifies this, jobs, actives, actives.list, mine`next
      ensures Valid() && View() == Next(old(View()), Return(t))
    {
      InvStep(View(), Return(t));
      UnlinkedIsOut(View(), t);
      hide Inv, Linked, IdleLoop, EnterIdle;
      FinishJob(t);
      NotListed(mine, actives.list);
      WorkerThread(t, AtTop, mine);
    }

    /** The job function calls pthread_exit: the two cleanup handlers run. */
    method ExitFromJob(t: nat, created: bool)
      requires Valid() && Enabled(View(), ExitJob(t, created))
      modifies this, actives, actives.list
      ensures Valid() && View() == Next(old(View()), ExitJob(t, created))
    {
      InvStep(View(), ExitJob(t, created));
      hide Inv, Linked, JobCleanup, WorkerCleanup;
      FinishJob(t);
      CleanupWorker(t, created);
    }

    /** thr_pool_queue. */
    method Submit(ghost woken: set<nat>, number: nat, created: bool)
      requires Valid() && Enabled(View(), Queue(woken, created)) && number == submitted
      modifies this, jobs, jobs.list
      ensures Valid() && View() == Next(old(View()), Queue(woken, created))
      ensures nthreads == old(nthreads) + if created && old(idle == 0 && nthreads < maximum) then 1 else 0
    {
      InvStep(View(), Queue(woken, created));
      hide Inv, Linked, Enqueue, Recruit;
      AppendJob(number);
      FindWorker(woken, created);
    }

    method AppendJob(number: nat)
      requires Linked() && number == submitted
      modifies jobs, jobs.list, this`submitted
      ensures Linked() && View() == Enqueue(old(View()))
    {
      var job := new Node<nat>(number, number);
      ghost var before := jobs.list;
      jobs.Append(job);
      assert NumbersOf(before + [job]) == NumbersOf(before) + [number];
      submitted := submitted + 1;
    }

    /** Signals pool_workcv if anyone is idle, and else starts a worker if there may be more. */
    method FindWorker(ghost woken: set<nat>, created: bool)
      requires Linked()
      modifies this`workers, this`nthreads
      ensures View() == Recruit(old(View()), woken, created)
    {
      if idle > 0 {
        workers := RouseWorkers(workers, woken);
      } else if nthreads < maximum && created {
        workers := workers + [Starting];
        nthreads := nthreads + 1;
      }
    }

    /** thr_pool_wait from taking the mutex to waiting or returning. */
    method WaitRegion(ghost w: nat) returns (done: bool)
      requires Linked() && w < |waiters|
      modifies this`waitFlag, this`waiters
      ensures View() == WaitLoop(old(View()), w)
      ensures done <==> View().queue == [] && View().active == []
    {
      HeadsMeanLists();
      if jobs.head != null || actives.first != null {
        waitFlag := true;
        waiters := waiters[w := Waiting(false)];
        return false;
      }
      waiters := waiters[w := Returned];
      done := true;
    }

    /** True means that thr_pool_wait returns, with every job submitted so far finished. */
    method StartWait() returns (done: bool)
      requires Valid() && Enabled(View(), Wait)
      modifies this`waitFlag, this`waiters
      ensures Valid() && View() == Next(old(View()), Wait)
      ensures done ==> forall j: nat | j < submitted :: j in finished
    {
      InvStep(View(), Wait);
      hide Inv, Linked;
      ghost var w := |waiters|;
      waiters := waiters + [Waiting(true)];
      done := WaitRegion(w);
      if done { AllFinished(View()); }
    }

    method ResumeWait(ghost w: nat) returns (done: bool)
      requires Valid() && Enabled(View(), WaiterRun(w))
      modifies this`waitFlag, this`waiters
      ensures Valid() && View() == Next(old(View()), WaiterRun(w))
      ensures done ==> forall j: nat | j < submitted :: j in finished
    {
      InvStep(View(), WaiterRun(w));
      hide Inv, Linked;
      done := WaitRegion(w);
      if done { AllFinished(View()); }
    }

    /** The two wait loops of thr_pool_destroy, up to the next wait or to the end. */
    method DestroyRegion(pastFirst: bool) returns (free: bool)
      requires Linked()
      modifies this`waitFlag, this`destroyer
      ensures View() == DestroyLoops(old(View()), pastFirst)
      ensures free <==> destroyer.Freed?
    {
      HeadsMeanLists();
      if !pastFirst && actives.first != null {
        waitFlag := true;
        destroyer := OnWaitCv(false);
        return false;
      }
      if nthreads != 0 {
        destroyer := OnBusyCv(false);
        return false;
      }
      destroyer := Freed;
      free := true;
    }

    /** True means that thr_pool_destroy goes on to free the pool, with no worker left. */
    method StartDestroy() returns (free: bool)
      requires Valid() && Enabled(View(), Destroy)
      modifies this`destroyFlag, this`workers, this`waitFlag, this`destroyer
      ensures Valid() && View() == Next(old(View()), Destroy)
      ensures free ==> nthreads == 0 && View().active == []
    {
      InvStep(View(), Destroy);
      hide Inv, BroadcastWork;
      destroyFlag := true;
      workers := BroadcastWork(workers);
      free := DestroyRegion(false);
      if free { ThreadPoolDestroy.FreedPoolIsEmpty(View()); }
    }

    method ResumeDestroy(pastFirst: bool) returns (free: bool)
      requires Valid() && Enabled(View(), DestroyerRun) && pastFirst == destroyer.OnBusyCv?
      modifies this`waitFlag, this`destroyer
      ensures Valid() && View() == Next(old(View()), DestroyerRun)
      ensures free ==> nthreads == 0 && View().active == []
    {
      InvStep(View(), DestroyerRun);
      hide Inv;
      free := DestroyRegion(pastFirst);
      if free { ThreadPoolDestroy.FreedPoolIsEmpty(View()); }
    }
  }
}
