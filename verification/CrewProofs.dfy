/** Invariants of the work crew over all interleavings: conservation of nodes, and what joining relies on. */
module CrewProofs {
  import opened Counting
  import opened Crew

  // ---- invariants ----

  /** Both queues are deactivated and broadcast. */
  predicate ShutDown(s: State) {
    s.main.Joining? || s.main.Asleep? || s.main.Awake? || s.main.JoinWait? || s.main.Leaving? || s.main.Destroyed?
  }

  predicate PastLoop(pc: Pc) { pc.Ending? || pc.Gone? || pc.Joined? }

  predicate OnWayOut(pc: Pc) { pc.Exiting? || PastLoop(pc) }

  predicate RoleAllows(x: Thread) {
    && (x.role == Producer ==> !x.pc.Blocked? && !x.pc.Woken? && !x.pc.Holding?)
    && (x.role == Responder ==> !x.pc.Notify?)
  }

  function QueueOf(s: State, role: Role): seq<nat> {
    if role == Consumer then s.wq else s.jq
  }

  predicate ActiveOf(s: State, role: Role) {
    if role == Responder then s.jActive else s.wActive
  }

  ghost predicate Shape(s: State) {
    && |s.threads| <= |s.roster| && (s.main.Creating? || |s.threads| == |s.roster|)
    && (forall t | 0 <= t < |s.threads| :: s.threads[t].role == s.roster[t] && RoleAllows(s.threads[t]))
    && (forall t | 0 <= t < |s.threads| && OnWayOut(s.threads[t].pc) :: !ActiveOf(s, s.threads[t].role))
    && (s.wActive <==> s.main.Creating?)
    && (s.jActive <==> s.main.Creating? || s.main.BroadcastWork? || s.main.StopJobs?)
    && (ShutDown(s) || s.main.StopJobs? || s.main.BroadcastJobs? ==> forall t: nat :: !BlockedAs(s, t, Consumer))
    && (ShutDown(s) ==> forall t: nat :: !BlockedAs(s, t, Responder))
  }

  function HeldAs(role: Role, v: nat): Thread -> bool {
    (x: Thread) => x == Thread(role, Holding(v))
  }

  function Of(v: nat): Pass -> bool {
    (p: Pass) => p.node == v
  }

  /** Where node v has been: every stage has seen it as often as the stages behind it together. */
  ghost predicate Flow(s: State, v: nat) {
    && Count(s.wq, Is(v)) + Count(s.taken, Of(v)) == (if v < s.nodes then 1 else 0)
    && Count(s.taken, Of(v)) == Count(s.threads, HeldAs(Consumer, v)) + Count(s.jq, Is(v)) + Count(s.answered, Of(v))
    && Count(s.answered, Of(v)) == Count(s.threads, HeldAs(Responder, v)) + Count(s.freed, Is(v))
  }

  ghost predicate Flows(s: State) {
    forall v: nat :: Flow(s, v)
  }

  ghost predicate Handles(s: State, p: Pass, role: Role) {
    p.thread < |s.threads| && s.threads[p.thread].role == role
  }

  ghost predicate InHands(s: State, t: nat, role: Role, v: nat) {
    t < |s.threads| && s.threads[t] == Thread(role, Holding(v))
  }

  function LogOf(s: State, role: Role): seq<Pass> {
    if role == Consumer then s.taken else s.answered
  }

  /** The numbers in a node name a consumer, or responder: the one that holds it, as long as it does. */
  ghost predicate Records(s: State, role: Role) {
    && (forall t: nat, v: nat | InHands(s, t, role, v) :: Pass(v, t) in LogOf(s, role))
    && (forall p | p in LogOf(s, role) :: Handles(s, p, role))
  }

  predicate Unjoined(x: Thread) { !x.pc.Joined? }

  /** The cleanup node of thread t: put once, then in cq, in the hands of main, or joined. */
  ghost predicate Exit(s: State, t: nat) {
    && Count(s.enqueued, Is(t)) == (if t < |s.threads| && PastLoop(s.threads[t].pc) then 1 else 0)
    && Count(s.enqueued, Is(t))
       == Count(s.cq, Is(t)) + (if s.main == JoinWait(t) then 1 else 0) + Count(s.joined, Is(t))
    && Count(s.joined, Is(t)) == (if t < |s.threads| && s.threads[t].pc.Joined? then 1 else 0)
  }

  ghost predicate Exits(s: State) {
    forall t: nat :: Exit(s, t)
  }

  ghost predicate Numbers(s: State) {
    && s.numthreads == Count(s.threads, Unjoined)
    && (ShutDown(s) ==> s.total == |s.roster|)
    && (!ShutDown(s) ==> s.numthreads == |s.threads| && s.joined == [])
    && (s.main.Asleep? || s.main.Awake? || s.main.JoinWait? ==> s.numthreads > 0)
    && (s.main.Leaving? || s.main.Destroyed? ==> s.numthreads == 0)
    && (s.main.Leaving? ==> s.main.result == s.total)
  }

  ghost predicate EndingAt(s: State, t: nat) {
    t < |s.threads| && s.threads[t].pc.Ending?
  }

  /** Main never sleeps on cq while a node is in it, unless the signal is still to come. */
  ghost predicate MainHeard(s: State) {
    s.main.Asleep? && s.cq != [] ==> exists t: nat :: EndingAt(s, t)
  }

  /** A thread that is about to signal `role`, or one of that role that will look at the queue again. */
  ghost predicate Stirring(s: State, t: nat, role: Role) {
    && t < |s.threads|
    && var x := s.threads[t];
       || (x.pc.Notify? && Target(x.role) == role)
       || (x.role == role && (x.pc.Ready? || x.pc.Woken? || x.pc.Holding? || x.pc.Notify?))
  }

  /** Work is never left in a queue with every one of its threads asleep. */
  ghost predicate Heard(s: State, role: Role) {
    ActiveOf(s, role) && QueueOf(s, role) != [] && (exists t: nat :: BlockedAs(s, t, role)) ==>
      exists t: nat :: Stirring(s, t, role)
  }

  ghost predicate Inv(s: State) {
    && Shape(s) && Flows(s) && Records(s, Consumer) && Records(s, Responder) && Exits(s) && Numbers(s)
    && MainHeard(s) && Heard(s, Consumer) && Heard(s, Responder)
  }

  // ---- Shape ----

  /** A thread step changes its own thread, besides waking blocked ones, and no shared flag. */
  ghost predicate MovesOnly(s: State, r: State, t: nat) {
    && |r.threads| == |s.threads| && t < |s.threads|
    && (forall u | 0 <= u < |s.threads| && u != t :: r.threads[u] == s.threads[u] || Wakes(s.threads[u], r.threads[u]))
    && r.threads[t].role == s.threads[t].role && RoleAllows(r.threads[t])
    && r.roster == s.roster && r.wActive == s.wActive && r.jActive == s.jActive && r.numthreads == s.numthreads
    && r.joined == s.joined && r.total == s.total && (r.main == s.main || (s.main.Asleep? && r.main.Awake?))
    && !r.threads[t].pc.Joined? && (r.main != s.main ==> s.threads[t].pc.Ending?)
    && (s.threads[t].pc.Ending? ==> r.main != Asleep)
    && (!s.threads[t].pc.Exiting? ==>
          r.cq == s.cq && r.enqueued == s.enqueued && PastLoop(r.threads[t].pc) == PastLoop(s.threads[t].pc))
    && (s.threads[t].pc.Exiting? ==> r.threads[t].pc.Ending?)
    && (OnWayOut(r.threads[t].pc) ==> OnWayOut(s.threads[t].pc) || !ActiveOf(s, s.threads[t].role))
    && (r.threads[t].pc.Blocked? ==> if r.threads[t].role == Consumer then s.wActive else s.jActive)
  }

  predicate Wakes(x: Thread, y: Thread) {
    x.pc.Blocked? && y == Thread(x.role, Woken)
  }

  lemma RegionMoves(s: State, t: nat)
    requires t < |s.threads| && (s.threads[t].pc.Ready? || s.threads[t].pc.Woken?)
    ensures MovesOnly(s, QueueRegion(s, t), t)
  {
    hide PutNodes;
  }

  lemma HandOverMoves(s: State, t: nat)
    requires t < |s.threads| && s.threads[t].pc.Holding? && RoleAllows(s.threads[t])
    ensures MovesOnly(s, HandOver(s, t), t)
  {
  }

  lemma NotifyMoves(s: State, t: nat, woken: set<nat>)
    requires t < |s.threads| && s.threads[t].pc.Notify?
    ensures MovesOnly(s, ThreadStep(s, t, woken), t)
  {
  }

  lemma StepMoves(s: State, t: nat, woken: set<nat>)
    requires t < |s.threads| && CanRun(s.threads[t].pc) && RoleAllows(s.threads[t])
    ensures MovesOnly(s, ThreadStep(s, t, woken), t)
  {
    match s.threads[t].pc
    case Ready => hide MovesOnly, QueueRegion; RegionMoves(s, t);
    case Woken => hide MovesOnly, QueueRegion; RegionMoves(s, t);
    case Holding(_) => hide MovesOnly, HandOver; HandOverMoves(s, t);
    case Notify => hide MovesOnly; NotifyMoves(s, t, woken);
    case _ =>
  }

  lemma BroadcastReaches(s: State, t: nat)
    ensures s.main.BroadcastWork? ==> !BlockedAs(MainStep(s), t, Consumer)
    ensures s.main.BroadcastJobs? ==> !BlockedAs(MainStep(s), t, Responder)
  {
  }

  lemma MovedShape(s: State, r: State, t: nat)
    requires Shape(s) && MovesOnly(s, r, t)
    ensures Shape(r)
  {
    forall u: nat, role: Role | BlockedAs(r, u, role)
      ensures BlockedAs(s, u, role) || (role == Consumer && s.wActive) || (role == Responder && s.jActive)
    {
    }
  }

  lemma MainShape(s: State)
    requires Shape(s) && Enabled(s, MainRun)
    ensures Shape(MainStep(s))
  {
    hide BlockedAs, RoleAllows;
    forall t: nat
      ensures s.main.BroadcastWork? ==> !BlockedAs(MainStep(s), t, Consumer)
      ensures s.main.BroadcastJobs? ==> !BlockedAs(MainStep(s), t, Responder)
    {
      BroadcastReaches(s, t);
    }
    forall t: nat, role: Role ensures BlockedAs(MainStep(s), t, role) ==> BlockedAs(s, t, role) {
      MainBlocksNobody(s, t, role);
    }
    forall t: nat | t < |MainStep(s).threads|
      ensures RoleAllows(MainStep(s).threads[t]) && MainStep(s).threads[t].role == s.roster[t]
      ensures OnWayOut(MainStep(s).threads[t].pc) ==> !ActiveOf(MainStep(s), MainStep(s).threads[t].role)
    {
      MainRoles(s, t);
    }
  }

  lemma MainBlocksNobody(s: State, t: nat, role: Role)
    requires Enabled(s, MainRun)
    ensures BlockedAs(MainStep(s), t, role) ==> BlockedAs(s, t, role)
  {
  }

  lemma MainRoles(s: State, t: nat)
    requires Shape(s) && Enabled(s, MainRun) && t < |MainStep(s).threads|
    ensures OnWayOut(MainStep(s).threads[t].pc) ==> !ActiveOf(MainStep(s), MainStep(s).threads[t].role)
    ensures RoleAllows(MainStep(s).threads[t]) && MainStep(s).threads[t].role == s.roster[t]
  {
  }

  lemma ShapeStep(s: State, e: Event)
    requires Shape(s) && Enabled(s, e)
    ensures Shape(Next(s, e))
  {
    hide ThreadStep, MainStep, Reached;
    if e.Run? {
      StepMoves(s, e.t, e.woken);
      MovedShape(s, Next(s, e), e.t);
    } else if e.MainRun? {
      MainShape(s);
    } else {
      SpuriousShape(s, e);
    }
  }

  lemma SpuriousShape(s: State, e: Event)
    requires Shape(s) && Enabled(s, e) && (e.Spurious? || e.MainSpurious?)
    ensures Shape(Next(s, e))
  {
    assert forall t: nat, role: Role :: BlockedAs(Next(s, e), t, role) ==> BlockedAs(s, t, role);
  }

  // ---- Flow ----

  lemma {:induction false} PutNodesCount(q: seq<nat>, a: nat, k: nat, v: nat)
    ensures Count(PutNodes(q, a, k), Is(v)) == Count(q, Is(v)) + if a <= v < a + k then 1 else 0
  {
    if k > 0 {
      PutNodesCount(q, a, k - 1, v);
      var x: nat := a + k - 1;
      CountPush(x, PutNodes(q, a, k - 1), Is(v));
    }
  }

  lemma HandsMove(s: State, t: nat, pc: Pc, v: nat)
    requires t < |s.threads|
    ensures forall role: Role ::
      Count(Move(s, t, pc).threads, HeldAs(role, v)) + (if s.threads[t] == Thread(role, Holding(v)) then 1 else 0)
      == Count(s.threads, HeldAs(role, v)) + (if s.threads[t].role == role && pc == Holding(v) then 1 else 0)
  {
    forall role: Role
      ensures Count(Move(s, t, pc).threads, HeldAs(role, v))
              + (if s.threads[t] == Thread(role, Holding(v)) then 1 else 0)
           == Count(s.threads, HeldAs(role, v)) + (if s.threads[t].role == role && pc == Holding(v) then 1 else 0)
    {
      CountUpdate(s.threads, t, Thread(s.threads[t].role, pc), HeldAs(role, v));
    }
  }

  lemma HandsSame(ts: seq<Thread>, us: seq<Thread>, v: nat)
    requires |ts| == |us|
    requires forall i | 0 <= i < |ts| :: us[i] == ts[i] || (ts[i].pc.Blocked? && us[i].pc.Woken?)
    ensures forall role: Role :: Count(us, HeldAs(role, v)) == Count(ts, HeldAs(role, v))
  {
    forall role: Role ensures Count(us, HeldAs(role, v)) == Count(ts, HeldAs(role, v)) {
      CountSame(us, ts, HeldAs(role, v));
    }
  }

  lemma RegionFlow(s: State, t: nat, v: nat)
    requires Shape(s) && Flow(s, v) && t < |s.threads| && !s.threads[t].pc.Holding?
    ensures Flow(QueueRegion(s, t), v)
  {
    hide Count, PutNodes, Shape;
    match s.threads[t].role
    case Producer =>
      PutNodesCount(s.wq, s.nodes, BATCH, v);
      HandsMove(s, t, Notify, v);
      HandsMove(s, t, Exiting, v);
    case Consumer =>
      HandsMove(s, t, Exiting, v);
      HandsMove(s, t, Blocked, v);
      if s.wq != [] {
        HandsMove(s, t, Holding(s.wq[0]), v);
        CountFront(s.wq, Is(v));
        CountAppend(s.taken, Pass(s.wq[0], t), Of(v));
      }
    case Responder =>
      HandsMove(s, t, Exiting, v);
      HandsMove(s, t, Blocked, v);
      if s.jq != [] {
        HandsMove(s, t, Holding(s.jq[0]), v);
        CountFront(s.jq, Is(v));
        CountAppend(s.answered, Pass(s.jq[0], t), Of(v));
      }
  }

  lemma HandOverFlow(s: State, t: nat, v: nat)
    requires Flow(s, v) && t < |s.threads| && s.threads[t].pc.Holding? && s.threads[t].role != Producer
    ensures Flow(HandOver(s, t), v)
  {
    hide Count;
    var x := s.threads[t].pc.node;
    HandsMove(s, t, Notify, v);
    HandsMove(s, t, Ready, v);
    CountPush(x, s.jq, Is(v));
    CountAppend(s.freed, x, Is(v));
  }

  /** Steps that only move a thread which has nothing in its hands. */
  lemma EmptyHandedFlow(s: State, t: nat, pc: Pc, v: nat)
    requires Flow(s, v) && t < |s.threads| && !s.threads[t].pc.Holding? && !pc.Holding?
    ensures Flow(Move(s, t, pc), v)
  {
    hide Count;
    HandsMove(s, t, pc, v);
  }

  lemma SameFlow(s: State, r: State, v: nat)
    requires Flow(s, v) && r.wq == s.wq && r.jq == s.jq
    requires r.taken == s.taken && r.answered == s.answered && r.freed == s.freed
    requires r.nodes == s.nodes && |r.threads| == |s.threads|
    requires forall i | 0 <= i < |s.threads| ::
               r.threads[i] == s.threads[i] || (s.threads[i].pc.Blocked? && r.threads[i].pc.Woken?)
    ensures Flow(r, v)
  {
    hide Count;
    HandsSame(s.threads, r.threads, v);
  }

  lemma FlowStep(s: State, e: Event, v: nat)
    requires Shape(s) && Flow(s, v) && Enabled(s, e)
    ensures Flow(Next(s, e), v)
  {
    hide Count, Flow, Reached, QueueRegion, HandOver, Shape;
    if e.Run? {
      var t := e.t;
      match s.threads[t].pc {
        case Ready => RegionFlow(s, t, v);
        case Woken => RegionFlow(s, t, v);
        case Holding(_) => RoleOf(s, t); HandOverFlow(s, t, v);
        case Notify => EmptyHandedFlow(s, t, Ready, v); SameFlow(Move(s, t, Ready), Next(s, e), v);
        case Exiting => EmptyHandedFlow(s, t, Ending, v); SameFlow(Move(s, t, Ending), Next(s, e), v);
        case Ending => EmptyHandedFlow(s, t, Gone, v); SameFlow(Move(s, t, Gone), Next(s, e), v);
        case _ =>
      }
    } else if e.MainRun? && s.main.JoinWait? {
      EmptyHandedFlow(s, s.main.t, Joined, v);
      SameFlow(Move(s, s.main.t, Joined), Next(s, e), v);
    } else if e.MainRun? && s.main.Creating? && |s.threads| < |s.roster| {
      CreateFlow(s, Next(s, e), v);
    } else {
      SameFlow(s, Next(s, e), v);
    }
  }

  lemma RoleOf(s: State, t: nat)
    requires Shape(s) && t < |s.threads|
    ensures RoleAllows(s.threads[t])
  {
  }

  lemma CreateFlow(s: State, r: State, v: nat)
    requires Flow(s, v) && |s.threads| < |s.roster| && s.main.Creating? && r == MainStep(s)
    ensures Flow(r, v)
  {
    hide Count;
    var x := Thread(s.roster[|s.threads|], Ready);
    CountAppend(s.threads, x, HeldAs(Consumer, v));
    CountAppend(s.threads, x, HeldAs(Responder, v));
  }

  // ---- Records ----

  /** A region writes a number exactly when it puts a node in the thread's hands. */
  lemma RegionLog(s: State, t: nat, role: Role)
    requires t < |s.threads| && role != Producer && !s.threads[t].pc.Holding?
    ensures var r := QueueRegion(s, t);
      && |r.threads| == |s.threads| && r.threads[t].role == s.threads[t].role
      && (forall u | 0 <= u < |s.threads| && u != t :: r.threads[u] == s.threads[u])
      && LogOf(r, role) ==
           if r.threads[t].pc.Holding? && r.threads[t].role == role
           then LogOf(s, role) + [Pass(r.threads[t].pc.node, t)]
           else LogOf(s, role)
  {
    hide PutNodes;
  }

  lemma RegionRecords(s: State, t: nat, role: Role)
    requires Records(s, role) && t < |s.threads| && role != Producer && !s.threads[t].pc.Holding?
    ensures Records(QueueRegion(s, t), role)
  {
    hide QueueRegion;
    var r := QueueRegion(s, t);
    RegionLog(s, t, role);
    forall u: nat, v: nat | InHands(r, u, role, v) ensures Pass(v, u) in LogOf(r, role) {
      assert u != t ==> InHands(s, u, role, v);
    }
    forall p | p in LogOf(r, role) ensures Handles(r, p, role) {
      assert p in LogOf(s, role) ==> Handles(s, p, role);
    }
  }

  /** Anything else writes no number and gives nobody a node. */
  lemma SameRecords(s: State, r: State, role: Role)
    requires Records(s, role) && r.taken == s.taken && r.answered == s.answered && |s.threads| <= |r.threads|
    requires forall u | 0 <= u < |s.threads| ::
               r.threads[u].role == s.threads[u].role && (r.threads[u].pc.Holding? ==> r.threads[u] == s.threads[u])
    requires forall u | |s.threads| <= u < |r.threads| :: !r.threads[u].pc.Holding?
    ensures Records(r, role)
  {
    assert forall u: nat, v: nat :: InHands(r, u, role, v) ==> InHands(s, u, role, v);
    assert forall p :: Handles(s, p, role) ==> Handles(r, p, role);
  }

  lemma RecordsStep(s: State, e: Event, role: Role)
    requires Records(s, role) && Enabled(s, e) && role != Producer
    ensures Records(Next(s, e), role)
  {
    hide Records, QueueRegion, Reached, MainStep;
    if e.Run? && (s.threads[e.t].pc.Ready? || s.threads[e.t].pc.Woken?) {
      RegionRecords(s, e.t, role);
    } else if e.Run? {
      SameRecords(s, Next(s, e), role);
    } else {
      hide ThreadStep;
      OutsideMoves(s, e);
      SameRecords(s, Next(s, e), role);
    }
  }

  // ---- Exits ----

  /** Nothing about the end of threads changes. */
  lemma SameExit(s: State, r: State, t: nat)
    requires Exit(s, t) && r.enqueued == s.enqueued && r.cq == s.cq && r.joined == s.joined
    requires s.main == JoinWait(t) <==> r.main == JoinWait(t)
    requires |s.threads| <= |r.threads|
    requires t < |s.threads| ==> PastLoop(r.threads[t].pc) == PastLoop(s.threads[t].pc)
                                 && r.threads[t].pc.Joined? == s.threads[t].pc.Joined?
    requires |s.threads| <= t < |r.threads| ==> !PastLoop(r.threads[t].pc)
    ensures Exit(r, t)
  {
  }

  lemma ExitingExit(s: State, u: nat, t: nat)
    requires Exit(s, t) && u < |s.threads| && s.threads[u].pc.Exiting?
    ensures Exit(ThreadStep(s, u, {}), t)
  {
    hide Count;
    CountPush(u, s.cq, Is(t));
    CountAppend(s.enqueued, u, Is(t));
  }

  lemma AwaitExitKeeps(s: State, t: nat)
    requires Exit(s, t) && !s.main.JoinWait?
    ensures Exit(AwaitExit(s), t)
  {
    hide Count;
    if s.cq != [] { CountFront(s.cq, Is(t)); }
  }

  lemma JoinExit(s: State, t: nat)
    requires Exit(s, t) && s.main.JoinWait? && s.main.t < |s.threads| && s.threads[s.main.t].pc.Gone?
    ensures Exit(MainStep(s), t)
  {
    hide Count;
    CountAppend(s.joined, s.main.t, Is(t));
  }

  lemma ExitStep(s: State, e: Event, t: nat)
    requires Shape(s) && Exit(s, t) && Enabled(s, e)
    ensures Exit(Next(s, e), t)
  {
    hide Count, Exit, Reached, Shape, PutNodes, AwaitExit;
    if e.Run? && s.threads[e.t].pc.Exiting? {
      ExitingExit(s, e.t, t);
    } else if e.MainRun? && s.main.JoinWait? {
      JoinExit(s, t);
    } else if e.MainRun? && (s.main.Awake? || (s.main.Joining? && s.numthreads != 0)) {
      AwaitExitKeeps(s, t);
    } else if e.Run? {
      RoleOf(s, e.t);
      StepMoves(s, e.t, e.woken);
      hide ThreadStep;
      SameExit(s, Next(s, e), t);
    } else {
      hide ThreadStep;
      SameExit(s, Next(s, e), t);
    }
  }

  // ---- Numbers ----

  lemma NumbersStep(s: State, e: Event)
    requires Shape(s) && Numbers(s) && Enabled(s, e)
    ensures Numbers(Next(s, e))
  {
    hide Count, Reached, ThreadStep, MainStep, Shape, Numbers;
    if e.Run? {
      RoleOf(s, e.t);
      StepMoves(s, e.t, e.woken);
      MovedNumbers(s, Next(s, e), e.t);
    } else if e.MainRun? {
      MainNumbers(s);
    } else {
      SpuriousNumbers(s, e);
    }
  }

  lemma MovedNumbers(s: State, r: State, t: nat)
    requires Numbers(s) && MovesOnly(s, r, t) && !s.threads[t].pc.Joined? && !r.threads[t].pc.Joined?
    ensures Numbers(r)
  {
    hide Count;
    CountSame(s.threads, r.threads, Unjoined);
  }

  lemma SpuriousNumbers(s: State, e: Event)
    requires Numbers(s) && Enabled(s, e) && (e.Spurious? || e.MainSpurious?)
    ensures Numbers(Next(s, e))
  {
    hide Count;
    CountSame(s.threads, Next(s, e).threads, Unjoined);
  }

  lemma MainNumbers(s: State)
    requires Numbers(s) && Shape(s) && Enabled(s, MainRun)
    ensures Numbers(MainStep(s))
  {
    hide Count;
    match s.main
    case Creating =>
      if |s.threads| < |s.roster| { CountAppend(s.threads, Thread(s.roster[|s.threads|], Ready), Unjoined); }
    case BroadcastWork => CountSame(s.threads, MainStep(s).threads, Unjoined);
    case BroadcastJobs => CountSame(s.threads, MainStep(s).threads, Unjoined);
    case JoinWait(t) => CountUpdate(s.threads, t, Thread(s.threads[t].role, Joined), Unjoined);
    case _ =>
  }

  // ---- no lost wakeups ----

  lemma MainHeardStep(s: State, e: Event)
    requires Shape(s) && MainHeard(s) && Enabled(s, e)
    ensures MainHeard(Next(s, e))
  {
    hide Shape, Reached, ThreadStep;
    var r := Next(s, e);
    if e.Run? {
      RoleOf(s, e.t);
      StepMoves(s, e.t, e.woken);
      assert s.threads[e.t].pc.Exiting? ==> EndingAt(r, e.t);
    } else {
      hide MainStep;
      OtherHears(s, e);
    }
    if t: nat :| EndingAt(s, t) {
      assert r.main.Asleep? && e.Run? ==> EndingAt(r, t);
    }
  }

  lemma OtherHears(s: State, e: Event)
    requires MainHeard(s) && Enabled(s, e) && !e.Run?
    ensures MainHeard(Next(s, e))
  {
    if e.Spurious? && s.main.Asleep? && s.cq != [] {
      var t: nat :| EndingAt(s, t);
      assert EndingAt(Next(s, e), t);
    }
  }

  lemma RunStirs(s: State, t: nat, woken: set<nat>, role: Role)
    requires Enabled(s, Run(t, woken)) && RoleAllows(s.threads[t]) && role != Producer && ActiveOf(s, role)
    ensures var r := ThreadStep(s, t, woken);
      && (QueueOf(r, role) != [] ==> QueueOf(s, role) != [] || Stirring(r, t, role))
      && (QueueOf(r, role) != [] ==> !BlockedAs(r, t, role))
      && (QueueOf(r, role) != [] && Stirring(s, t, role) && !Stirring(r, t, role) ==>
            s.threads[t].pc.Notify? && Target(s.threads[t].role) == role)
  {
    hide Reached;
  }

  lemma NotifyStirs(s: State, t: nat, woken: set<nat>, b: nat)
    requires Enabled(s, Run(t, woken)) && s.threads[t].pc.Notify? && BlockedAs(s, b, Target(s.threads[t].role))
    ensures exists u: nat :: Stirring(ThreadStep(s, t, woken), u, Target(s.threads[t].role))
  {
    var u :| u in woken;
    assert BlockedAs(s, u, Target(s.threads[t].role));
    assert Stirring(ThreadStep(s, t, woken), u, Target(s.threads[t].role));
  }

  /** What spurious wakeups and steps of main can do to the threads and the two queues. */
  ghost predicate Outside(s: State, r: State) {
    && |s.threads| <= |r.threads| && r.wq == s.wq && r.jq == s.jq
    && (r.wActive ==> s.wActive) && (r.jActive ==> s.jActive)
    && (forall u | 0 <= u < |s.threads| :: r.threads[u] == s.threads[u] || Wakes(s.threads[u], r.threads[u])
                                           || (s.threads[u].pc.Gone? && r.threads[u].pc.Joined?))
    && (forall u | |s.threads| <= u < |r.threads| :: r.threads[u].pc.Ready?)
    && (forall u | 0 <= u < |s.threads| :: r.threads[u].role == s.threads[u].role)
    && r.taken == s.taken && r.answered == s.answered
  }

  lemma OutsideMoves(s: State, e: Event)
    requires Enabled(s, e) && !e.Run?
    ensures Outside(s, Next(s, e))
  {
    hide RouseAll, MainStep;
    if e.MainRun? { MainOutside(s); }
  }

  lemma MainOutside(s: State)
    requires Enabled(s, MainRun)
    ensures Outside(s, MainStep(s))
  {
    if s.main.BroadcastWork? || s.main.BroadcastJobs? {
      BroadcastOutside(s);
      hide RouseAll, Outside;
    }
  }

  lemma BroadcastOutside(s: State)
    requires s.main.BroadcastWork? || s.main.BroadcastJobs?
    ensures Outside(s, MainStep(s))
  {
  }

  lemma OutsideHeard(s: State, r: State, role: Role)
    requires Heard(s, role) && Outside(s, r)
    ensures Heard(r, role)
  {
    if ActiveOf(r, role) && QueueOf(r, role) != [] && exists b: nat :: BlockedAs(r, b, role) {
      var b: nat :| BlockedAs(r, b, role);
      assert BlockedAs(s, b, role);
      var w: nat :| Stirring(s, w, role);
      assert Stirring(r, w, role);
    }
  }

  lemma RunHeard(s: State, t: nat, woken: set<nat>, role: Role)
    requires Shape(s) && Heard(s, role) && Enabled(s, Run(t, woken)) && role != Producer
    ensures Heard(ThreadStep(s, t, woken), role)
  {
    hide ThreadStep, Reached;
    var r := ThreadStep(s, t, woken);
    RoleOf(s, t);
    StepMoves(s, t, woken);
    if ActiveOf(r, role) && QueueOf(r, role) != [] && exists b: nat :: BlockedAs(r, b, role) {
      RunStirs(s, t, woken, role);
      var b: nat :| BlockedAs(r, b, role);
      assert BlockedAs(s, b, role);
      if !Stirring(r, t, role) {
        var w: nat :| Stirring(s, w, role);
        if w != t {
          assert Stirring(r, w, role);
        } else {
          NotifyStirs(s, t, woken, b);
        }
      }
    }
  }

  lemma HeardStep(s: State, e: Event, role: Role)
    requires Shape(s) && Heard(s, role) && Enabled(s, e) && role != Producer
    ensures Heard(Next(s, e), role)
  {
    hide ThreadStep, MainStep, Reached, Shape, Heard;
    if e.Run? {
      RunHeard(s, e.t, e.woken, role);
    } else {
      OutsideMoves(s, e);
      OutsideHeard(s, Next(s, e), role);
    }
  }

  // ---- all of it ----

  lemma InvInit(roster: seq<Role>)
    ensures Inv(Init(roster))
  {
  }

  lemma InvStep(s: State, e: Event)
    requires Inv(s) && Enabled(s, e)
    ensures Inv(Next(s, e))
  {
    hide Next, Enabled, Shape, Flow, Records, Exit, Numbers, MainHeard, Heard;
    ShapeStep(s, e);
    forall v: nat ensures Flow(Next(s, e), v) { assert Flow(s, v); FlowStep(s, e, v); }
    RecordsStep(s, e, Consumer);
    RecordsStep(s, e, Responder);
    forall t: nat ensures Exit(Next(s, e), t) { assert Exit(s, t); ExitStep(s, e, t); }
    NumbersStep(s, e);
    MainHeardStep(s, e);
    HeardStep(s, e, Consumer);
    HeardStep(s, e, Responder);
  }

  /** s is reached from the start by the given steps. */
  ghost predicate Reaches(roster: seq<Role>, es: seq<Event>, s: State)
    decreases |es|
  {
    if es == [] then s == Init(roster)
    else
      var n := |es| - 1;
      exists p :: Reaches(roster, es[..n], p) && Enabled(p, es[n]) && s == Next(p, es[n])
  }

  lemma {:induction false} InvReached(roster: seq<Role>, es: seq<Event>, s: State)
    requires Reaches(roster, es, s)
    ensures Inv(s) && s.roster == roster
    decreases |es|
  {
    hide Inv, Next, Enabled;
    if es == [] {
      InvInit(roster);
    } else {
      var n := |es| - 1;
      var e := es[n];
      var p :| Reaches(roster, es[..n], p) && Enabled(p, e) && s == Next(p, e);
      InvReached(roster, es[..n], p);
      InvStep(p, e);
      RosterKept(p, e);
    }
  }

  lemma RosterKept(s: State, e: Event)
    requires Enabled(s, e)
    ensures Next(s, e).roster == s.roster
  {
    hide Reached, PutNodes, Rouse, RouseAll;
  }
}
