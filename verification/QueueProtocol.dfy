/**
 The queue as a concurrent protocol: any number of threads popping and pushing, interleaved
 at lock granularity.

 A thread is a program counter. The notify_one calls come after the lock is released, so a
 thread that has changed the queue but not yet notified is a state of its own. An event names the
 thread that moves and, for a notification, the sleeper it wakes; everything else is determined.
 */
module QueueProtocol {
  import opened Wrappers
  import opened Sequences
  import opened Counting
  import opened WorkQueues

  /** A thread that pops. `Popped` has released the lock and still owes a notify on not_full. */
  datatype Consumer = Away | Checking | Sleeping | Woken | Popped(socket: Socket)

  /** A thread that pushes. `Owing` has released the lock and still owes a notify on not_empty. */
  datatype Producer = Idle | Entering(socket: Socket) | Blocked(socket: Socket) | Roused(socket: Socket) | Owing

  datatype State = State(
    capacity: nat,
    queue: seq<Socket>,
    closed: bool,
    consumers: seq<Consumer>,
    producers: seq<Producer>,
    consumerStops: seq<bool>,
    producerStops: seq<bool>)

  datatype Event =
    | CallPop(c: nat)
    | Pop(c: nat)
    | NotifyNotFull(c: nat, wakes: Option<nat>)
    | SpuriousPop(c: nat)
    | CallPush(p: nat, socket: Socket)
    | Push(p: nat)
    | TryPush(p: nat, socket: Socket)
    | NotifyNotEmpty(p: nat, wakes: Option<nat>)
    | SpuriousPush(p: nat)
    | Close
    | StopConsumer(c: nat)
    | StopProducer(p: nat)

  ghost predicate WellFormed(st: State) {
    |st.consumerStops| == |st.consumers| && |st.producerStops| == |st.producers|
  }

  function Init(capacity: nat, consumers: nat, producers: nat): State {
    State(capacity, [], false,
          seq(consumers, i => Checking), seq(producers, i => Idle),
          seq(consumers, i => false), seq(producers, i => false))
  }

  /** notify_one wakes a sleeper if there is one and is lost otherwise. */
  ghost predicate WakesConsumer(st: State, wakes: Option<nat>) {
    match wakes
    case Some(c) => c < |st.consumers| && st.consumers[c].Sleeping?
    case None => forall c :: 0 <= c < |st.consumers| ==> !st.consumers[c].Sleeping?
  }

  ghost predicate WakesProducer(st: State, wakes: Option<nat>) {
    match wakes
    case Some(p) => p < |st.producers| && st.producers[p].Blocked?
    case None => forall p :: 0 <= p < |st.producers| ==> !st.producers[p].Blocked?
  }

  ghost predicate Enabled(st: State, e: Event) {
    WellFormed(st) &&
    match e
    case CallPop(c) => c < |st.consumers| && st.consumers[c].Away?
    case Pop(c) => c < |st.consumers| && (st.consumers[c].Checking? || st.consumers[c].Woken?)
    case NotifyNotFull(c, wakes) => c < |st.consumers| && st.consumers[c].Popped? && WakesProducer(st, wakes)
    case SpuriousPop(c) => c < |st.consumers| && st.consumers[c].Sleeping?
    case CallPush(p, _) => p < |st.producers| && st.producers[p].Idle?
    case Push(p) => p < |st.producers| && (st.producers[p].Entering? || st.producers[p].Roused?)
    case TryPush(p, _) => p < |st.producers| && st.producers[p].Idle?
    case NotifyNotEmpty(p, wakes) => p < |st.producers| && st.producers[p].Owing? && WakesConsumer(st, wakes)
    case SpuriousPush(p) => p < |st.producers| && st.producers[p].Blocked?
    case Close => true
    case StopConsumer(c) => c < |st.consumers|
    case StopProducer(p) => p < |st.producers|
  }

  function Wake(c: Consumer): Consumer {
    if c.Sleeping? then Woken else c
  }

  function Rouse(p: Producer): Producer {
    if p.Blocked? then Roused(p.socket) else p
  }

  ghost function PopSectionOf(st: State, c: nat): PopSection
    requires WellFormed(st) && c < |st.consumers|
  {
    PopOutcome(st.queue, st.closed, st.consumerStops[c])
  }

  ghost function PushSectionOf(st: State, p: nat): PushSection
    requires WellFormed(st) && p < |st.producers|
  {
    PushOutcome(|st.queue|, st.capacity, st.closed, st.producerStops[p])
  }

  ghost function TryPushOf(st: State): PushResult {
    TryPushOutcome(|st.queue|, st.capacity, st.closed)
  }

  ghost function Apply(st: State, e: Event): State
    requires Enabled(st, e)
  {
    match e
    case CallPop(c) => st.(consumers := st.consumers[c := Checking])
    case Pop(c) =>
      (match PopSectionOf(st, c)
       case Took(s) => st.(queue := st.queue[1..], consumers := st.consumers[c := Popped(s)])
       case Nothing => st.(consumers := st.consumers[c := Away])
       case PopWaits => st.(consumers := st.consumers[c := Sleeping]))
    case NotifyNotFull(c, wakes) =>
      var released := st.(consumers := st.consumers[c := Away]);
      if wakes.Some? then released.(producers := st.producers[wakes.value := Rouse(st.producers[wakes.value])])
      else released
    case SpuriousPop(c) => st.(consumers := st.consumers[c := Woken])
    case CallPush(p, s) => st.(producers := st.producers[p := Entering(s)])
    case Push(p) =>
      var s := st.producers[p].socket;
      (match PushSectionOf(st, p)
       case Finished(Queued) => st.(queue := st.queue + [s], producers := st.producers[p := Owing])
       case Finished(_) => st.(producers := st.producers[p := Idle])
       case PushWaits => st.(producers := st.producers[p := Blocked(s)]))
    case TryPush(p, s) =>
      if TryPushOf(st).Queued? then st.(queue := st.queue + [s], producers := st.producers[p := Owing])
      else st
    case NotifyNotEmpty(p, wakes) =>
      var released := st.(producers := st.producers[p := Idle]);
      if wakes.Some? then released.(consumers := st.consumers[wakes.value := Woken]) else released
    case SpuriousPush(p) => st.(producers := st.producers[p := Rouse(st.producers[p])])
    case Close =>
      st.(closed := true,
          consumers := seq(|st.consumers|, i requires 0 <= i < |st.consumers| => Wake(st.consumers[i])),
          producers := seq(|st.producers|, i requires 0 <= i < |st.producers| => Rouse(st.producers[i])))
    case StopConsumer(c) =>
      st.(consumerStops := st.consumerStops[c := true], consumers := st.consumers[c := Wake(st.consumers[c])])
    case StopProducer(p) =>
      st.(producerStops := st.producerStops[p := true], producers := st.producers[p := Rouse(st.producers[p])])
  }

  ghost predicate Valid(st: State, run: seq<Event>)
    decreases |run|
  {
    run == [] || (Enabled(st, run[0]) && Valid(Apply(st, run[0]), run[1..]))
  }

  ghost function Exec(st: State, run: seq<Event>): State
    requires Valid(st, run)
    decreases |run|
  {
    if run == [] then st else Exec(Apply(st, run[0]), run[1..])
  }

  /** The socket an event adds to the queue, if any. */
  ghost function PushedBy(st: State, e: Event): seq<Socket>
    requires Enabled(st, e)
  {
    match e
    case Push(p) => if PushSectionOf(st, p) == Finished(Queued) then [st.producers[p].socket] else []
    case TryPush(_, s) => if TryPushOf(st).Queued? then [s] else []
    case _ => []
  }

  /** The socket an event takes from the queue, if any. */
  ghost function PoppedBy(st: State, e: Event): seq<Socket>
    requires Enabled(st, e)
  {
    if e.Pop? && PopSectionOf(st, e.c).Took? then [PopSectionOf(st, e.c).socket] else []
  }

  ghost function PushedIn(st: State, run: seq<Event>): seq<Socket>
    requires Valid(st, run)
    decreases |run|
  {
    if run == [] then [] else PushedBy(st, run[0]) + PushedIn(Apply(st, run[0]), run[1..])
  }

  ghost function PoppedIn(st: State, run: seq<Event>): seq<Socket>
    requires Valid(st, run)
    decreases |run|
  {
    if run == [] then [] else PoppedBy(st, run[0]) + PoppedIn(Apply(st, run[0]), run[1..])
  }

  function WokenWeight(c: Consumer): nat { if c.Woken? then 1 else 0 }

  function PoppedWeight(c: Consumer): nat { if c.Popped? then 1 else 0 }

  function RousedWeight(p: Producer): nat { if p.Roused? then 1 else 0 }

  function OwingWeight(p: Producer): nat { if p.Owing? then 1 else 0 }

  /** Poppers woken but not yet past their re-check, plus notifications on not_empty still owed. */
  ghost function WakeupsForConsumers(st: State): nat {
    Sum(st.consumers, WokenWeight) + Sum(st.producers, OwingWeight)
  }

  /** Pushers woken but not yet past their re-check, plus notifications on not_full still owed. */
  ghost function WakeupsForProducers(st: State): nat {
    Sum(st.producers, RousedWeight) + Sum(st.consumers, PoppedWeight)
  }

  ghost predicate SomeSleeping(st: State) {
    exists c :: 0 <= c < |st.consumers| && st.consumers[c].Sleeping?
  }

  ghost predicate SomeBlocked(st: State) {
    exists p :: 0 <= p < |st.producers| && st.producers[p].Blocked?
  }

  ghost predicate SleepersCovered(st: State) {
    SomeSleeping(st) ==> !st.closed && |st.queue| <= WakeupsForConsumers(st)
  }

  ghost predicate BlockedCovered(st: State) {
    SomeBlocked(st) ==> !st.closed && st.capacity - |st.queue| <= WakeupsForProducers(st)
  }

  ghost predicate Inv(st: State) {
    && WellFormed(st)
    && 0 < st.capacity
    && |st.queue| <= st.capacity
    && SleepersCovered(st)
    && BlockedCovered(st)
  }

  lemma InitInv(capacity: nat, consumers: nat, producers: nat)
    requires 0 < capacity
    ensures Inv(Init(capacity, consumers, producers))
  {
  }

  /** The sums after one consumer and at most one producer have moved. */
  lemma MoveConsumer(st: State, c: nat, x: Consumer)
    requires c < |st.consumers|
    ensures var xs := st.consumers[c := x];
      && Sum(xs, WokenWeight) + WokenWeight(st.consumers[c]) == Sum(st.consumers, WokenWeight) + WokenWeight(x)
      && Sum(xs, PoppedWeight) + PoppedWeight(st.consumers[c]) == Sum(st.consumers, PoppedWeight) + PoppedWeight(x)
  {
    SumUpdate(st.consumers, c, x, WokenWeight);
    SumUpdate(st.consumers, c, x, PoppedWeight);
  }

  lemma MoveProducer(st: State, p: nat, x: Producer)
    requires p < |st.producers|
    ensures var xs := st.producers[p := x];
      && Sum(xs, RousedWeight) + RousedWeight(st.producers[p]) == Sum(st.producers, RousedWeight) + RousedWeight(x)
      && Sum(xs, OwingWeight) + OwingWeight(st.producers[p]) == Sum(st.producers, OwingWeight) + OwingWeight(x)
  {
    SumUpdate(st.producers, p, x, RousedWeight);
    SumUpdate(st.producers, p, x, OwingWeight);
  }

  /** What a step adds to the wake-ups on their way to sleeping poppers. */
  ghost function ConsumerWakeupDelta(st: State, e: Event): int
    requires Enabled(st, e)
  {
    match e
    case Pop(c) => 0 - WokenWeight(st.consumers[c])
    case SpuriousPop(_) => 1
    case StopConsumer(c) => if st.consumers[c].Sleeping? then 1 else 0
    case NotifyNotEmpty(_, wakes) => if wakes.Some? then 0 else -1
    case _ => |PushedBy(st, e)|
  }

  /** What a step adds to the wake-ups on their way to blocked pushers. */
  ghost function ProducerWakeupDelta(st: State, e: Event): int
    requires Enabled(st, e)
  {
    match e
    case Push(p) => 0 - RousedWeight(st.producers[p])
    case SpuriousPush(_) => 1
    case StopProducer(p) => if st.producers[p].Blocked? then 1 else 0
    case NotifyNotFull(_, wakes) => if wakes.Some? then 0 else -1
    case _ => |PoppedBy(st, e)|
  }

  lemma ConsumerMovesWakeups(st: State, e: Event)
    requires Enabled(st, e)
    requires e.CallPop? || e.Pop? || e.NotifyNotFull? || e.SpuriousPop? || e.StopConsumer?
    ensures WakeupsForConsumers(Apply(st, e)) == WakeupsForConsumers(st) + ConsumerWakeupDelta(st, e)
    ensures WakeupsForProducers(Apply(st, e)) == WakeupsForProducers(st) + ProducerWakeupDelta(st, e)
  {
    MoveConsumer(st, e.c, Apply(st, e).consumers[e.c]);
    if e.NotifyNotFull? && e.wakes.Some? {
      MoveProducer(st, e.wakes.value, Rouse(st.producers[e.wakes.value]));
    }
  }

  lemma ProducerMovesWakeups(st: State, e: Event)
    requires Enabled(st, e)
    requires e.CallPush? || e.Push? || e.TryPush? || e.NotifyNotEmpty? || e.SpuriousPush? || e.StopProducer?
    ensures WakeupsForConsumers(Apply(st, e)) == WakeupsForConsumers(st) + ConsumerWakeupDelta(st, e)
    ensures WakeupsForProducers(Apply(st, e)) == WakeupsForProducers(st) + ProducerWakeupDelta(st, e)
  {
    MoveProducer(st, e.p, Apply(st, e).producers[e.p]);
    if e.NotifyNotEmpty? && e.wakes.Some? {
      MoveConsumer(st, e.wakes.value, Woken);
    }
  }

  lemma StepMovesWakeups(st: State, e: Event)
    requires Enabled(st, e) && !e.Close?
    ensures WakeupsForConsumers(Apply(st, e)) == WakeupsForConsumers(st) + ConsumerWakeupDelta(st, e)
    ensures WakeupsForProducers(Apply(st, e)) == WakeupsForProducers(st) + ProducerWakeupDelta(st, e)
  {
    if e.CallPop? || e.Pop? || e.NotifyNotFull? || e.SpuriousPop? || e.StopConsumer? {
      ConsumerMovesWakeups(st, e);
    } else {
      ProducerMovesWakeups(st, e);
    }
  }

  lemma StepKeepsBounds(st: State, e: Event)
    requires Inv(st) && Enabled(st, e)
    ensures var after := Apply(st, e);
      WellFormed(after) && after.capacity == st.capacity && |after.queue| <= after.capacity
  {
  }

  lemma StepKeepsSleepersCovered(st: State, e: Event)
    requires Inv(st) && Enabled(st, e)
    ensures SleepersCovered(Apply(st, e))
  {
    var after := Apply(st, e);
    if SomeSleeping(after) {
      var c :| 0 <= c < |after.consumers| && after.consumers[c].Sleeping?;
      StepMovesWakeups(st, e);
      assert e == Pop(c) || st.consumers[c].Sleeping?;
    }
  }

  lemma StepKeepsBlockedCovered(st: State, e: Event)
    requires Inv(st) && Enabled(st, e)
    ensures BlockedCovered(Apply(st, e))
  {
    var after := Apply(st, e);
    if SomeBlocked(after) {
      var p :| 0 <= p < |after.producers| && after.producers[p].Blocked?;
      StepMovesWakeups(st, e);
      assert e == Push(p) || st.producers[p].Blocked?;
    }
  }

  /** Every step of every thread keeps the bound and both wake-up invariants. */
  lemma StepKeepsInv(st: State, e: Event)
    requires Inv(st) && Enabled(st, e)
    ensures Inv(Apply(st, e))
  {
    StepKeepsBounds(st, e);
    StepKeepsSleepersCovered(st, e);
    StepKeepsBlockedCovered(st, e);
  }

  lemma {:induction false} RunKeepsInv(st: State, run: seq<Event>)
    requires Inv(st) && Valid(st, run)
    ensures Inv(Exec(st, run)) && Exec(st, run).capacity == st.capacity
    decreases |run|
  {
    if run != [] {
      StepKeepsInv(st, run[0]);
      RunKeepsInv(Apply(st, run[0]), run[1..]);
    }
  }

  /** No lost wake-ups, in every state any interleaving can reach. */
  lemma NoLostWakeup(capacity: nat, consumers: nat, producers: nat, run: seq<Event>)
    requires 0 < capacity && Valid(Init(capacity, consumers, producers), run)
    ensures var st := Exec(Init(capacity, consumers, producers), run);
      && |st.queue| <= capacity
      && (SomeSleeping(st) ==> |st.queue| <= WakeupsForConsumers(st))
      && (SomeBlocked(st) ==> capacity - |st.queue| <= WakeupsForProducers(st))
  {
    InitInv(capacity, consumers, producers);
    RunKeepsInv(Init(capacity, consumers, producers), run);
  }

  /** A step the queue's own code can take: not a new call, a spurious wake-up or a shutdown request. */
  ghost predicate Internal(e: Event) {
    e.Pop? || e.Push? || e.NotifyNotFull? || e.NotifyNotEmpty?
  }

  /** A sleeper beside a non-empty queue means a wake-up is on its way. */
  lemma SomeWakeupPending(st: State) returns (e: Event)
    requires Inv(st) && SomeSleeping(st) && st.queue != []
    ensures Internal(e) && Enabled(st, e)
    ensures e.Pop? || e.NotifyNotEmpty?
  {
    var sleeper: nat :| sleeper < |st.consumers| && st.consumers[sleeper].Sleeping?;
    if Sum(st.consumers, WokenWeight) > 0 {
      var c := SumPositive(st.consumers, WokenWeight);
      e := Pop(c);
    } else {
      var p := SumPositive(st.producers, OwingWeight);
      e := NotifyNotEmpty(p, Some(sleeper));
    }
  }

  lemma SomeRoomWakeupPending(st: State) returns (e: Event)
    requires Inv(st) && SomeBlocked(st) && |st.queue| < st.capacity
    ensures Internal(e) && Enabled(st, e)
    ensures e.Push? || e.NotifyNotFull?
  {
    var blocked: nat :| blocked < |st.producers| && st.producers[blocked].Blocked?;
    if Sum(st.producers, RousedWeight) > 0 {
      var p := SumPositive(st.producers, RousedWeight);
      e := Push(p);
    } else {
      var c := SumPositive(st.consumers, PoppedWeight);
      e := NotifyNotFull(c, Some(blocked));
    }
  }

  /** When the queue's code has nothing left to do, sleepers face an empty queue and blocked pushers a full one. */
  lemma WorkConserving(st: State)
    requires Inv(st)
    requires forall e: Event :: Internal(e) ==> !Enabled(st, e)
    ensures SomeSleeping(st) ==> st.queue == []
    ensures SomeBlocked(st) ==> |st.queue| == st.capacity
  {
    if SomeSleeping(st) && st.queue != [] {
      var e := SomeWakeupPending(st);
      assert false;
    }
    if SomeBlocked(st) && |st.queue| < st.capacity {
      var e := SomeRoomWakeupPending(st);
      assert false;
    }
  }

  lemma StepFifo(st: State, e: Event)
    requires Enabled(st, e)
    ensures st.queue + PushedBy(st, e) == PoppedBy(st, e) + Apply(st, e).queue
  {
  }

  /** Over any run, what was queued before followed by what was pushed is what was popped followed by what is queued. */
  lemma {:induction false} Fifo(st: State, run: seq<Event>)
    requires Valid(st, run)
    ensures st.queue + PushedIn(st, run) == PoppedIn(st, run) + Exec(st, run).queue
    decreases |run|
  {
    if run == [] {
      assert st.queue + [] == st.queue;
    } else {
      var mid := Apply(st, run[0]);
      StepFifo(st, run[0]);
      Fifo(mid, run[1..]);
      ConcatIsAssociative(st.queue, PushedBy(st, run[0]), PushedIn(mid, run[1..]));
      ConcatIsAssociative(PoppedBy(st, run[0]), mid.queue, PushedIn(mid, run[1..]));
      ConcatIsAssociative(PoppedBy(st, run[0]), PoppedIn(mid, run[1..]), Exec(mid, run[1..]).queue);
    }
  }

  /** Once closed, a queue stays closed and accepts nothing more. */
  lemma {:induction false} ClosedAcceptsNothing(st: State, run: seq<Event>)
    requires st.closed && Valid(st, run)
    ensures Exec(st, run).closed && PushedIn(st, run) == []
    decreases |run|
  {
    if run != [] {
      ClosedAcceptsNothing(Apply(st, run[0]), run[1..]);
    }
  }
}
