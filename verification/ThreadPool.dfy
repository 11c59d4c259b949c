/** The thread pool of pthreads/thr_pool.c as a monitor: every region between taking pool_mutex and
    releasing it (by unlock or by a condition wait) is one step. Wakeups follow POSIX.1: a signal wakes
    at least one sleeper if there is one, a broadcast wakes all, and any sleeper may wake spuriously. */
module ThreadPool {
  import opened Counting

  /** Where a worker is. Asleep and Awake are inside the wait on pool_workcv, before and after a wakeup. */
  datatype Worker = Starting | Asleep(timed: bool) | Awake(timedOut: bool) | Busy(job: nat) | Gone

  datatype Waiter = Waiting(roused: bool) | Returned

  datatype Destroyer = NotCalled | OnWaitCv(roused: bool) | OnBusyCv(roused: bool) | Freed

  /** The fields of thr_pool, then the threads around it. Jobs are numbered in the order of submission. */
  datatype Pool = Pool(
    minimum: nat, maximum: nat, linger: nat,
    queue: seq<nat>, active: seq<nat>, waitFlag: bool, destroyFlag: bool, nthreads: int, idle: int,
    workers: seq<Worker>, waiters: seq<Waiter>, destroyer: Destroyer, submitted: nat, finished: set<nat>)

  predicate Live(w: Worker) { !w.Gone? }
  predicate Idle(w: Worker) { w.Asleep? || w.Awake? }
  predicate Sleeping(w: Worker) { w.Asleep? }
  predicate Heading(w: Worker) { w.Awake? || w.Starting? }
  predicate Roused(w: Waiter) { w.Waiting? && w.roused }

  function Init(minimum: nat, maximum: nat, linger: nat): Pool {
    Pool(minimum, maximum, linger, [], [], false, false, 0, 0, [], [], NotCalled, 0, {})
  }

  // ---- the pieces of code inside the regions ----

  function RouseAll(ws: seq<Waiter>): (r: seq<Waiter>)
    ensures |r| == |ws| && forall i | 0 <= i < |ws| :: r[i] == if ws[i].Waiting? then Waiting(true) else ws[i]
  {
    seq(|ws|, i requires 0 <= i < |ws| => if ws[i].Waiting? then Waiting(true) else ws[i])
  }

  function RouseWorkers(ws: seq<Worker>, woken: set<nat>): (r: seq<Worker>)
    ensures |r| == |ws|
    ensures forall i | 0 <= i < |ws| :: r[i] == if ws[i].Asleep? && i in woken then Awake(false) else ws[i]
  {
    seq(|ws|, i requires 0 <= i < |ws| => if ws[i].Asleep? && i in woken then Awake(false) else ws[i])
  }

  function BroadcastWork(ws: seq<Worker>): (r: seq<Worker>)
    ensures |r| == |ws| && forall i | 0 <= i < |ws| :: r[i] == if ws[i].Asleep? then Awake(false) else ws[i]
  {
    seq(|ws|, i requires 0 <= i < |ws| => if ws[i].Asleep? then Awake(false) else ws[i])
  }

  function NotifyWaiters(s: Pool): Pool {
    if s.queue == [] && s.active == [] then
      s.(waitFlag := false, waiters := RouseAll(s.waiters),
         destroyer := if s.destroyer.OnWaitCv? then OnWaitCv(true) else s.destroyer)
    else s
  }

  function Unlink(active: seq<nat>, t: nat): seq<nat> {
    if active == [] then [] else if active[0] == t then active[1..] else [active[0]] + Unlink(active[1..], t)
  }

  function JobCleanup(s: Pool, t: nat): Pool
    requires t < |s.workers| && s.workers[t].Busy?
  {
    var s1 := s.(active := Unlink(s.active, t), finished := s.finished + {s.workers[t].job});
    if s1.waitFlag then NotifyWaiters(s1) else s1
  }

  /** `created` is the outcome of pthread_create, should it be called. */
  function WorkerCleanup(s: Pool, t: nat, created: bool): Pool
    requires t < |s.workers|
  {
    var s1 := s.(nthreads := s.nthreads - 1, workers := s.workers[t := Gone]);
    if s1.destroyFlag then
      if s1.nthreads == 0 && s1.destroyer.OnBusyCv? then s1.(destroyer := OnBusyCv(true)) else s1
    else if s1.queue != [] && s1.nthreads < s1.maximum && created then
      s1.(nthreads := s1.nthreads + 1, workers := s1.workers + [Starting])
    else s1
  }

  function EnterIdle(s: Pool): Pool {
    var s1 := s.(idle := s.idle + 1);
    if s1.waitFlag then NotifyWaiters(s1) else s1
  }

  /** The while loop around the waits, entered with worker t counted as idle. */
  function IdleLoop(s: Pool, t: nat): Pool
    requires t < |s.workers|
  {
    if s.queue == [] && !s.destroyFlag then
      if s.nthreads <= s.minimum then s.(workers := s.workers[t := Asleep(false)])
      else if s.linger == 0 then LeaveIdle(s, t, true)
      else s.(workers := s.workers[t := Asleep(true)])
    else LeaveIdle(s, t, false)
  }

  /** The first job goes to worker t, whose entry becomes the first of the active list. */
  function TakeFirst(s: Pool, t: nat): Pool
    requires t < |s.workers| && s.queue != []
  {
    s.(queue := s.queue[1..], active := [t] + s.active, workers := s.workers[t := Busy(s.queue[0])])
  }

  /** From the end of that loop to the next release of the mutex. */
  function LeaveIdle(s: Pool, t: nat, timedOut: bool): Pool
    requires t < |s.workers|
  {
    var s1 := s.(idle := s.idle - 1);
    if s1.destroyFlag then WorkerCleanup(s1, t, false)
    else if s1.queue != [] then TakeFirst(s1, t)
    else if timedOut && s1.nthreads > s1.minimum then WorkerCleanup(s1, t, false)
    else // around the main loop once more, to an untimed wait
      var s2 := EnterIdle(s1); s2.(workers := s2.workers[t := Asleep(false)])
  }

  // ---- steps ----

  datatype Event =
    | Queue(woken: set<nat>, created: bool)
    | Run(t: nat)                      // a starting or awake worker gets the mutex
    | Return(t: nat)                   // the job function returns
    | ExitJob(t: nat, created: bool)   // the job function calls pthread_exit, or is cancelled
    | Rouse(t: nat, timedOut: bool)    // spurious wakeup or timeout
    | Wait | WaiterRun(w: nat) | WaiterRouse(w: nat)
    | Destroy | DestroyerRun | DestroyerRouse

  predicate Enabled(s: Pool, e: Event) {
    && !s.destroyer.Freed?
    && match e
       case Queue(woken, _) =>
         && (forall t | t in woken :: t < |s.workers| && s.workers[t].Asleep?)
         && (s.idle > 0 ==> Count(s.workers, Sleeping) > 0 ==> woken != {})
         && (s.idle <= 0 ==> woken == {})
       case Run(t) => t < |s.workers| && (s.workers[t].Starting? || s.workers[t].Awake?)
       case Return(t) => t < |s.workers| && s.workers[t].Busy?
       case ExitJob(t, _) => t < |s.workers| && s.workers[t].Busy?
       case Rouse(t, timedOut) => t < |s.workers| && s.workers[t].Asleep? && (timedOut ==> s.workers[t].timed)
       case Wait => true
       case WaiterRun(w) => w < |s.waiters| && s.waiters[w] == Waiting(true)
       case WaiterRouse(w) => w < |s.waiters| && s.waiters[w] == Waiting(false)
       case Destroy => s.destroyer.NotCalled?
       case DestroyerRun => s.destroyer == OnWaitCv(true) || s.destroyer == OnBusyCv(true)
       case DestroyerRouse => s.destroyer == OnWaitCv(false) || s.destroyer == OnBusyCv(false)
  }

  /** thr_pool_queue: the job goes to the end of the queue ... */
  function Enqueue(s: Pool): Pool {
    s.(queue := s.queue + [s.submitted], submitted := s.submitted + 1)
  }

  /** ... and an idle worker is signalled, or a new one started if none is idle. */
  function Recruit(s: Pool, woken: set<nat>, created: bool): Pool {
    if s.idle > 0 then s.(workers := RouseWorkers(s.workers, woken))
    else if s.nthreads < s.maximum && created then
      s.(nthreads := s.nthreads + 1, workers := s.workers + [Starting])
    else s
  }

  function QueueJob(s: Pool, woken: set<nat>, created: bool): Pool {
    Recruit(Enqueue(s), woken, created)
  }

  /** The loop test of thr_pool_wait by waiter w. */
  function WaitLoop(s: Pool, w: nat): Pool
    requires w < |s.waiters|
  {
    if s.queue != [] || s.active != [] then s.(waitFlag := true, waiters := s.waiters[w := Waiting(false)])
    else s.(waiters := s.waiters[w := Returned])
  }

  /** The two wait loops of thr_pool_destroy; `pastFirst` when the first one is already left. */
  function DestroyLoops(s: Pool, pastFirst: bool): Pool {
    if !pastFirst && s.active != [] then s.(waitFlag := true, destroyer := OnWaitCv(false))
    else if s.nthreads != 0 then s.(destroyer := OnBusyCv(false))
    else s.(destroyer := Freed)
  }

  function Next(s: Pool, e: Event): Pool
    requires Enabled(s, e)
  {
    match e
    case Queue(woken, created) => QueueJob(s, woken, created)
    case Run(t) =>
      if s.workers[t].Starting? then IdleLoop(EnterIdle(s), t)
      else if s.workers[t].timedOut then LeaveIdle(s, t, true)
      else IdleLoop(s, t)
    case Return(t) => IdleLoop(EnterIdle(JobCleanup(s, t)), t)
    case ExitJob(t, created) => WorkerCleanup(JobCleanup(s, t), t, created)
    case Rouse(t, timedOut) => s.(workers := s.workers[t := Awake(timedOut)])
    case Wait => WaitLoop(s.(waiters := s.waiters + [Waiting(true)]), |s.waiters|)
    case WaiterRun(w) => WaitLoop(s, w)
    case WaiterRouse(w) => s.(waiters := s.waiters[w := Waiting(true)])
    case Destroy => DestroyLoops(s.(destroyFlag := true, workers := BroadcastWork(s.workers)), false)
    case DestroyerRun => DestroyLoops(s, s.destroyer.OnBusyCv?)
    case DestroyerRouse => s.(destroyer := s.destroyer.(roused := true))
  }
}
