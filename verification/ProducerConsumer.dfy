/** The producer and consumer of pthreads/pc-9.c around their bounded buffer. Regions under the mutex are steps,
    and so is the producer's signal, which comes after its unlock; the consumer signals before it unlocks. */
module ProducerConsumer {
  import opened BoundedBuffer

  /** Notifying: past the unlock, before the signal on notEmpty. Only the producer's loop has an end. */
  datatype Thread = Ready | Blocked | Woken | Notifying | Done

  /** The thread that main joins next; Past is behind both joins. */
  datatype Main = JoinProducer | JoinConsumer | Past

  /** The producer puts the numbers below `goal`, of which it has put `made`. */
  datatype State = State(
    size: nat, goal: nat, queue: seq<int>, made: nat, consumed: seq<int>,
    producer: Thread, consumer: Thread, main: Main)

  function Start(made: nat, goal: nat): Thread {
    if made < goal then Ready else Done
  }

  function Init(size: nat, goal: nat): State {
    State(size, goal, [], 0, [], Start(0, goal), Ready, JoinProducer)
  }

  datatype Event = Produce | Notify | Consume | Join | SpuriousProducer | SpuriousConsumer

  predicate Enabled(s: State, e: Event) {
    match e
    case Produce => s.producer.Ready? || s.producer.Woken?
    case Notify => s.producer.Notifying?
    case Consume => s.consumer.Ready? || s.consumer.Woken?
    case Join => if s.main.JoinProducer? then s.producer.Done? else s.main.JoinConsumer? && s.consumer.Done?
    case SpuriousProducer => s.producer.Blocked?
    case SpuriousConsumer => s.consumer.Blocked?
  }

  function Signalled(t: Thread): Thread {
    if t.Blocked? then Woken else t
  }

  function Next(s: State, e: Event): State
    requires Enabled(s, e)
  {
    match e
    case Produce =>
      if |s.queue| == s.size then s.(producer := Blocked)
      else s.(queue := s.queue + [s.made], made := s.made + 1, producer := Notifying)
    case Notify => s.(producer := Start(s.made, s.goal), consumer := Signalled(s.consumer))
    case Consume =>
      if s.queue == [] then s.(consumer := Blocked)
      else s.(consumed := s.consumed + [s.queue[0]], queue := s.queue[1..],
              producer := Signalled(s.producer), consumer := Ready)
    case Join => s.(main := if s.main.JoinProducer? then JoinConsumer else Past)
    case SpuriousProducer => s.(producer := Woken)
    case SpuriousConsumer => s.(consumer := Woken)
  }

  // ---- safety ----

  ghost predicate Inv(s: State) {
    && s.size >= 1 && |s.queue| <= s.size && s.made <= s.goal
    && |s.consumed| + |s.queue| == s.made
    && (forall i | 0 <= i < |s.consumed| :: s.consumed[i] == i)
    && (forall i | 0 <= i < |s.queue| :: s.queue[i] == |s.consumed| + i)
    && (s.producer.Done? ==> s.made == s.goal)
    && (s.producer.Ready? || s.producer.Blocked? || s.producer.Woken? ==> s.made < s.goal)
    && !s.consumer.Notifying? && !s.consumer.Done? && !s.main.Past? && (s.main.JoinConsumer? ==> s.producer.Done?)
    && (s.consumer.Blocked? && s.queue != [] ==> s.producer.Notifying?)
    && (s.producer.Blocked? ==> |s.queue| == s.size)
  }

  lemma InvStep(s: State, e: Event)
    requires Inv(s) && Enabled(s, e)
    ensures Inv(Next(s, e))
  {
  }

  ghost predicate Reaches(size: nat, goal: nat, es: seq<Event>, s: State)
    decreases |es|
  {
    if es == [] then s == Init(size, goal)
    else
      var n := |es| - 1;
      exists p :: Reaches(size, goal, es[..n], p) && Enabled(p, es[n]) && s == Next(p, es[n])
  }

  lemma {:induction false} InvReached(size: nat, goal: nat, es: seq<Event>, s: State)
    requires Reaches(size, goal, es, s) && size >= 1
    ensures Inv(s) && s.size == size && s.goal == goal
    decreases |es|
  {
    if es != [] {
      var n := |es| - 1;
      var p :| Reaches(size, goal, es[..n], p) && Enabled(p, es[n]) && s == Next(p, es[n]);
      InvReached(size, goal, es[..n], p);
      InvStep(p, es[n]);
    }
  }

  /** What is consumed comes in the order of production, without gaps or repetitions, and the buffer never overflows. */
  lemma FifoOrder(size: nat, goal: nat, es: seq<Event>, s: State)
    requires Reaches(size, goal, es, s) && size >= 1
    ensures s.consumed + s.queue == seq(s.made, i => i) && |s.queue| <= size && s.made <= goal
  {
    InvReached(size, goal, es, s);
  }

  /** No lost wakeup, although the producer signals outside the mutex: whoever sleeps sleeps for a reason. */
  lemma SleepsForAReason(size: nat, goal: nat, es: seq<Event>, s: State)
    requires Reaches(size, goal, es, s) && size >= 1
    ensures s.consumer.Blocked? ==> s.queue == [] || s.producer.Notifying?
    ensures s.producer.Blocked? ==> |s.queue| == size
    ensures !(s.producer.Blocked? && s.consumer.Blocked?)
  {
    InvReached(size, goal, es, s);
  }

  // ---- how it ends ----

  predicate Genuine(e: Event) { e.Produce? || e.Notify? || e.Consume? || e.Join? }

  function Weight(t: Thread): nat {
    match t
    case Notifying => 3
    case Ready => 1
    case Woken => 1
    case Blocked => 0
    case Done => 0
  }

  function Rank(s: State): int {
    10 * (s.goal - s.made) + 4 * |s.queue| + Weight(s.producer) + Weight(s.consumer)
    + if s.main.JoinProducer? then 1 else 0
  }

  lemma RankDecreases(s: State, e: Event)
    requires Inv(s) && Enabled(s, e) && Genuine(e)
    ensures 0 <= Rank(Next(s, e)) < Rank(s)
  {
  }

  /** Everything is consumed and the producer has ended and been joined; the consumer sleeps, and main waits for it. */
  ghost predicate Drained(s: State) {
    && s.main.JoinConsumer? && s.producer.Done? && s.consumer.Blocked?
    && s.queue == [] && s.consumed == seq(s.goal, i => i)
  }

  /** Nobody can go on but by a spurious wakeup exactly when all is consumed and the consumer sleeps. */
  lemma StopsIff(s: State)
    requires Inv(s)
    ensures (forall e | Genuine(e) :: !Enabled(s, e)) <==> Drained(s)
  {
    if forall e | Genuine(e) :: !Enabled(s, e) {
      assert !Enabled(s, Produce) && !Enabled(s, Notify) && !Enabled(s, Consume) && !Enabled(s, Join);
      assert s.consumed == seq(s.goal, i => i);
    }
  }

  ghost predicate GenuineRun(s: State, es: seq<Event>, r: State)
    decreases |es|
  {
    if es == [] then r == s
    else Enabled(s, es[0]) && Genuine(es[0]) && GenuineRun(Next(s, es[0]), es[1..], r)
  }

  /** Without spurious wakeups every run is bounded, and it comes to rest only after all items are consumed. */
  lemma {:induction false} RunsDrain(s: State, es: seq<Event>, r: State)
    requires Inv(s) && GenuineRun(s, es, r)
    ensures |es| + Rank(r) <= Rank(s)
    ensures (forall e | Genuine(e) :: !Enabled(r, e)) <==> Drained(r)
    decreases |es|
  {
    hide Drained, Enabled;
    if es == [] {
      StopsIff(s);
    } else {
      RankDecreases(s, es[0]);
      InvStep(s, es[0]);
      RunsDrain(Next(s, es[0]), es[1..], r);
    }
  }

  ghost predicate Run(s: State, es: seq<Event>, r: State)
    decreases |es|
  {
    if es == [] then r == s
    else Enabled(s, es[0]) && Run(Next(s, es[0]), es[1..], r)
  }

  /** In no run, spurious wakeups included, does the consumer end or main get past its second join; and once all is
      consumed with the producer ended, nothing but the consumer's sleep changes. */
  lemma {:induction false} MainNeverPast(s: State, es: seq<Event>, r: State)
    requires Inv(s) && Run(s, es, r)
    ensures Inv(r) && !r.consumer.Done? && !r.main.Past?
    ensures s.producer.Done? && s.queue == [] ==> r.producer.Done? && r.queue == [] && r.consumed == s.consumed
    decreases |es|
  {
    if es != [] {
      InvStep(s, es[0]);
      MainNeverPast(Next(s, es[0]), es[1..], r);
    }
  }

  // ---- the code ----

  /** The shared buffer and the producer's counter; where the threads are, and what was consumed, is ghost. */
  class Program {
    const fifo: Fifo
    const goal: nat
    var i: nat
    ghost var consumed: seq<int>
    ghost var producer: Thread
    ghost var consumer: Thread
    ghost var main: Main

    ghost predicate Valid()
      reads this, fifo
    {
      fifo.Valid()
    }

    ghost function View(): State
      reads this, fifo, fifo.buf
      requires Valid()
    {
      State(fifo.buf.Length, goal, fifo.Contents(), i, consumed, producer, consumer, main)
    }

    constructor (size: nat, items: nat)
      requires size >= 1
      ensures Valid() && fresh(fifo) && fresh(fifo.buf) && View() == Init(size, items)
    {
      fifo := new Fifo.Init(size);
      goal, i := items, 0;
      consumed, producer, consumer, main := [], Start(0, items), Ready, JoinProducer;
    }

    /** From the producer's lock to its wait or its unlock. */
    method ProducerRegion()
      requires Valid() && Enabled(View(), Produce)
      modifies this, fifo, fifo.buf
      ensures Valid() && View() == Next(old(View()), Produce)
    {
      fifo.FlagsMeanLength();
      if fifo.full {
        producer := Blocked;
      } else {
        fifo.Add(i);
        i := i + 1;
        producer := Notifying;
      }
    }

    ghost method SignalNotEmpty()
      requires Valid() && Enabled(View(), Notify)
      modifies this
      ensures Valid() && View() == Next(old(View()), Notify)
    {
      producer := Start(i, goal);
      consumer := Signalled(consumer);
    }

    /** From the consumer's lock to its wait or its unlock, its signal included. */
    method ConsumerRegion() returns (got: bool, d: int)
      requires Valid() && Enabled(View(), Consume)
      modifies this, fifo
      ensures Valid() && View() == Next(old(View()), Consume)
      ensures got <==> old(fifo.Contents()) != []
      ensures got ==> d == old(fifo.Contents())[0]
    {
      fifo.FlagsMeanLength();
      d := 0;
      if fifo.empty {
        got := false;
        consumer := Blocked;
      } else {
        got := true;
        d := fifo.Del();
        consumed := consumed + [d];
        producer := Signalled(producer);
        consumer := Ready;
      }
    }
  }
}
