/** The work crew of pthreads/pthread_cancel/workcrew.c as steps. A step is a region in which one mutex is
    held, or one call made outside it: a signal, a broadcast, or a join. Wakeups follow POSIX.1. */
module Crew {
  datatype Role = Responder | Producer | Consumer

  /** Ready: about to take the mutex of its queue. Blocked and Woken: inside the wait, before and after a wakeup.
      Notify: about to signal the next queue. Exiting: out of the main loop. Ending: about to signal cq. */
  datatype Pc = Ready | Blocked | Woken | Holding(node: nat) | Notify | Exiting | Ending | Gone | Joined

  datatype Thread = Thread(role: Role, pc: Pc)

  /** The main thread, by its next step; Leaving is past the loop of join_threads, before cleanup_structs. */
  datatype Main =
    | Creating | BroadcastWork | StopJobs | BroadcastJobs
    | Joining | Asleep | Awake | JoinWait(t: nat) | Leaving(result: int) | Destroyed

  /** A node and the thread that wrote its number into it. */
  datatype Pass = Pass(node: nat, thread: nat)

  /** Queues have their front first. Nodes are numbered as allocated, threads as created. */
  datatype State = State(
    roster: seq<Role>, wq: seq<nat>, wActive: bool, jq: seq<nat>, jActive: bool, cq: seq<nat>,
    threads: seq<Thread>, main: Main, numthreads: int, total: int, nodes: nat,
    taken: seq<Pass>, answered: seq<Pass>, freed: seq<nat>, enqueued: seq<nat>, joined: seq<nat>)

  const BATCH: nat := 6

  /** After initialize_structs, with the threads that create_threads is going to start, in its order. */
  function Init(roster: seq<Role>): State {
    State(roster, [], true, [], true, [], [], Creating, 0, 0, 0, [], [], [], [], [])
  }

  /** k nodes put to the front, one after the other, the first numbered a. */
  function PutNodes(q: seq<nat>, a: nat, k: nat): seq<nat> {
    if k == 0 then q else [a + k - 1] + PutNodes(q, a, k - 1)
  }

  /** Blocked threads of the given role that a signal or broadcast reaches. */
  function Rouse(ts: seq<Thread>, role: Role, woken: set<nat>): (r: seq<Thread>)
    ensures |r| == |ts| && forall i | 0 <= i < |ts| ::
              r[i] == if i in woken && ts[i] == Thread(role, Blocked) then Thread(role, Woken) else ts[i]
  {
    seq(|ts|, i requires 0 <= i < |ts| =>
      if i in woken && ts[i] == Thread(role, Blocked) then Thread(role, Woken) else ts[i])
  }

  function RouseAll(ts: seq<Thread>, role: Role): (r: seq<Thread>)
    ensures |r| == |ts| && forall i | 0 <= i < |ts| ::
              r[i] == if ts[i] == Thread(role, Blocked) then Thread(role, Woken) else ts[i]
  {
    seq(|ts|, i requires 0 <= i < |ts| => if ts[i] == Thread(role, Blocked) then Thread(role, Woken) else ts[i])
  }

  datatype Event =
    | Run(t: nat, woken: set<nat>)   // thread t takes its next step; `woken` are reached by its signal
    | Spurious(t: nat)
    | MainRun
    | MainSpurious

  function Target(role: Role): Role {
    if role == Producer then Consumer else Responder
  }

  predicate BlockedAs(s: State, t: nat, role: Role) {
    t < |s.threads| && s.threads[t] == Thread(role, Blocked)
  }

  ghost predicate Reached(s: State, role: Role, woken: set<nat>) {
    && (forall t | t in woken :: BlockedAs(s, t, role))
    && ((exists t: nat :: BlockedAs(s, t, role)) ==> woken != {})
  }

  predicate CanRun(pc: Pc) {
    !pc.Blocked? && !pc.Gone? && !pc.Joined?
  }

  ghost predicate Enabled(s: State, e: Event) {
    match e
    case Run(t, woken) =>
      && t < |s.threads| && CanRun(s.threads[t].pc)
      && if s.threads[t].pc.Notify? then Reached(s, Target(s.threads[t].role), woken) else woken == {}
    case Spurious(t) => t < |s.threads| && s.threads[t].pc.Blocked?
    case MainRun =>
      && !s.main.Asleep? && !s.main.Destroyed?
      && (s.main.JoinWait? ==> s.main.t < |s.threads| && s.threads[s.main.t].pc.Gone?)
    case MainSpurious => s.main.Asleep?
  }

  function Move(s: State, t: nat, pc: Pc): State
    requires t < |s.threads|
  {
    s.(threads := s.threads[t := Thread(s.threads[t].role, pc)])
  }

  /** From taking the mutex of wq, or jq, to releasing it; from Woken the code arrives at the same tests. */
  function QueueRegion(s: State, t: nat): State
    requires t < |s.threads|
  {
    match s.threads[t].role
    case Producer =>
      if s.wActive then Move(s.(wq := PutNodes(s.wq, s.nodes, BATCH), nodes := s.nodes + BATCH), t, Notify)
      else Move(s, t, Exiting)
    case Consumer =>
      if !s.wActive then Move(s, t, Exiting)
      else if s.wq == [] then Move(s, t, Blocked)
      else Move(s.(wq := s.wq[1..], taken := s.taken + [Pass(s.wq[0], t)]), t, Holding(s.wq[0]))
    case Responder =>
      if !s.jActive then Move(s, t, Exiting)
      else if s.jq == [] then Move(s, t, Blocked)
      else Move(s.(jq := s.jq[1..], answered := s.answered + [Pass(s.jq[0], t)]), t, Holding(s.jq[0]))
  }

  /** What a thread does with the node in its hands: a consumer passes it on, a responder frees it. */
  function HandOver(s: State, t: nat): State
    requires t < |s.threads| && s.threads[t].pc.Holding?
  {
    var v := s.threads[t].pc.node;
    if s.threads[t].role == Consumer then Move(s.(jq := [v] + s.jq), t, Notify)
    else Move(s.(freed := s.freed + [v]), t, Ready)
  }

  function ThreadStep(s: State, t: nat, woken: set<nat>): State
    requires t < |s.threads| && CanRun(s.threads[t].pc)
  {
    match s.threads[t].pc
    case Ready => QueueRegion(s, t)
    case Woken => QueueRegion(s, t)
    case Holding(_) => HandOver(s, t)
    case Notify => var s1 := Move(s, t, Ready); s1.(threads := Rouse(s1.threads, Target(s.threads[t].role), woken))
    case Exiting => Move(s.(cq := [t] + s.cq, enqueued := s.enqueued + [t]), t, Ending)
    case Ending => Move(s.(main := if s.main.Asleep? then Awake else s.main), t, Gone)
    case _ => s
  }

  /** The wait loop of join_threads, and the queue_get after it. */
  function AwaitExit(s: State): State {
    if s.cq == [] then s.(main := Asleep) else s.(main := JoinWait(s.cq[0]), cq := s.cq[1..])
  }

  function MainStep(s: State): State
    requires s.main.JoinWait? ==> s.main.t < |s.threads|
  {
    match s.main
    case Creating =>
      if |s.threads| < |s.roster| then
        s.(threads := s.threads + [Thread(s.roster[|s.threads|], Ready)], numthreads := s.numthreads + 1)
      else s.(wActive := false, main := BroadcastWork)
    case BroadcastWork => s.(threads := RouseAll(s.threads, Consumer), main := StopJobs)
    case StopJobs => s.(jActive := false, main := BroadcastJobs)
    case BroadcastJobs => s.(threads := RouseAll(s.threads, Responder), main := Joining, total := s.numthreads)
    case Joining => if s.numthreads == 0 then s.(main := Leaving(s.total)) else AwaitExit(s)
    case Awake => AwaitExit(s)
    case JoinWait(t) => Move(s.(numthreads := s.numthreads - 1, joined := s.joined + [t], main := Joining), t, Joined)
    case Leaving(_) => s.(main := Destroyed)
    case Asleep => s
    case Destroyed => s
  }

  function Next(s: State, e: Event): State
    requires Enabled(s, e)
  {
    match e
    case Run(t, woken) => ThreadStep(s, t, woken)
    case Spurious(t) => Move(s, t, Woken)
    case MainRun => MainStep(s)
    case MainSpurious => s.(main := Awake)
  }
}
