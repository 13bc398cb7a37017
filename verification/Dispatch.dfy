/**
 Connection admission and dispatch: one acceptor and a pool of workers around the shared queue
 and the shared address counter, interleaved at lock granularity.

 The queue and the threads inside its `pop` are a QueueProtocol state; here are the acceptor,
 what each worker does between two pops, and the counter table. Every step on the queue is a step
 of QueueProtocol, so its theorems hold of the server.
 */
module Dispatch {
  import opened Wrappers
  import opened Counting
  import opened WorkQueues
  import opened IpLimiter
  import Q = QueueProtocol

  /** What a worker is doing. The release guard lives from the end of `pop` to the end of `Releasing`. */
  datatype Job = InPop | Handling(socket: Socket) | Releasing(socket: Socket) | Exited

  /** `Undoing` is a failed push whose admission has not been given back yet. */
  datatype Acceptor =
    | Accepting
    | Accepted(socket: Socket)
    | Admitted(socket: Socket)
    | Notifying
    | Undoing(socket: Socket, refusal: PushResult)
    | Left

  datatype State = State(
    q: Q.State,
    counts: Counts,
    limit: nat,
    jobs: seq<Job>,
    acceptor: Acceptor,
    nextId: nat)

  datatype Event =
    | Accept(address: string)
    | AcceptRetry
    | AcceptFatal
    | TryAcquire
    | TryPush
    | NotifyWorker(wakes: Option<nat>)
    | UndoAcquire
    | Pop(w: nat)
    | NotifyNotFull(w: nat)
    | Spurious(w: nat)
    | HandlerEnds(w: nat, threw: bool)
    | GuardReleases(w: nat)
    | Close
    | StopWorker(w: nat)

  function Init(capacity: nat, limit: nat, workers: nat): State {
    State(Q.Init(capacity, workers, 1), map[], limit, seq(workers, i => InPop), Accepting, 0)
  }

  /** The queue step an event takes, if it takes one. The acceptor is producer 0. */
  function QueueStep(st: State, e: Event): Option<Q.Event> {
    match e
    case TryPush => if st.acceptor.Admitted? then Some(Q.TryPush(0, st.acceptor.socket)) else None
    case NotifyWorker(wakes) => Some(Q.NotifyNotEmpty(0, wakes))
    case Pop(w) => Some(Q.Pop(w))
    case NotifyNotFull(w) => Some(Q.NotifyNotFull(w, None))
    case Spurious(w) => Some(Q.SpuriousPop(w))
    case GuardReleases(w) => Some(Q.CallPop(w))
    case Close => Some(Q.Close)
    case StopWorker(w) => Some(Q.StopConsumer(w))
    case _ => None
  }

  ghost predicate LocallyEnabled(st: State, e: Event) {
    match e
    case Accept(_) => st.acceptor.Accepting?
    case AcceptRetry => st.acceptor.Accepting?
    case AcceptFatal => st.acceptor.Accepting?
    case TryAcquire => st.acceptor.Accepted?
    case TryPush => st.acceptor.Admitted?
    case NotifyWorker(_) => st.acceptor.Notifying?
    case UndoAcquire => st.acceptor.Undoing?
    case Pop(w) => w < |st.jobs| && st.jobs[w].InPop?
    case NotifyNotFull(w) => w < |st.jobs| && st.jobs[w].InPop?
    case Spurious(w) => w < |st.jobs| && st.jobs[w].InPop?
    case HandlerEnds(w, _) => w < |st.jobs| && st.jobs[w].Handling?
    case GuardReleases(w) => w < |st.jobs| && st.jobs[w].Releasing?
    case Close => true
    // request_stop closes the queue before it stops any worker.
    case StopWorker(w) => w < |st.jobs| && st.q.closed
  }

  ghost predicate Enabled(st: State, e: Event) {
    && LocallyEnabled(st, e)
    && (QueueStep(st, e).Some? ==> Q.Enabled(st.q, QueueStep(st, e).value))
  }

  ghost function AcceptorAfter(st: State, e: Event): Acceptor
    requires Enabled(st, e)
  {
    match e
    case Accept(address) => Accepted(Socket(st.nextId, address))
    case AcceptFatal => Left
    case TryAcquire =>
      if Acquire(st.counts, st.limit, st.acceptor.socket.address).0 then Admitted(st.acceptor.socket) else Accepting
    case TryPush =>
      var result := Q.TryPushOf(st.q);
      if result.Queued? then Notifying else Undoing(st.acceptor.socket, result)
    case NotifyWorker(_) => Accepting
    case UndoAcquire => Accepting
    case _ => st.acceptor
  }

  ghost function JobsAfter(st: State, e: Event): seq<Job>
    requires Enabled(st, e)
  {
    match e
    case Pop(w) => if Q.PopSectionOf(st.q, w).Nothing? then st.jobs[w := Exited] else st.jobs
    case NotifyNotFull(w) => st.jobs[w := Handling(st.q.consumers[w].socket)]
    case HandlerEnds(w, _) => st.jobs[w := Releasing(st.jobs[w].socket)]
    case GuardReleases(w) => st.jobs[w := InPop]
    case _ => st.jobs
  }

  ghost function CountsAfter(st: State, e: Event): Counts
    requires Enabled(st, e)
  {
    match e
    case TryAcquire => Acquire(st.counts, st.limit, st.acceptor.socket.address).1
    case UndoAcquire => Release(st.counts, st.acceptor.socket.address)
    case GuardReleases(w) => Release(st.counts, st.jobs[w].socket.address)
    case _ => st.counts
  }

  ghost function QueueAfter(st: State, e: Event): Q.State
    requires Enabled(st, e)
  {
    if QueueStep(st, e).Some? then Q.Apply(st.q, QueueStep(st, e).value) else st.q
  }

  ghost function Apply(st: State, e: Event): State
    requires Enabled(st, e)
  {
    State(QueueAfter(st, e), CountsAfter(st, e), st.limit, JobsAfter(st, e), AcceptorAfter(st, e),
          if e.Accept? then st.nextId + 1 else st.nextId)
  }

  ghost predicate Valid(st: State, run: seq<Event>)
    decreases |run|
  {
    run == [] || (Enabled(st, run[0]) && Valid(Apply(st, run[0]), run[1..]))
  }

  ghost function Exec(st: State, run: seq<Event>): State
    requires Valid(st, run)
    decreases |run|
  {
    if run == [] then st else Exec(Apply(st, run[0]), run[1..])
  }

  /** The run of the queue inside a run of the server. */
  ghost function QueueRun(st: State, run: seq<Event>): seq<Q.Event>
    requires Valid(st, run)
    decreases |run|
  {
    if run == [] then []
    else
      var rest := QueueRun(Apply(st, run[0]), run[1..]);
      if QueueStep(st, run[0]).Some? then [QueueStep(st, run[0]).value] + rest else rest
  }

  /** Seen from the queue, a server run is a run of the queue protocol. */
  lemma {:induction false} QueueRefined(st: State, run: seq<Event>)
    requires Valid(st, run)
    ensures Q.Valid(st.q, QueueRun(st, run))
    ensures Q.Exec(st.q, QueueRun(st, run)) == Exec(st, run).q
    decreases |run|
  {
    if run != [] {
      QueueRefined(Apply(st, run[0]), run[1..]);
    }
  }

  // ----- Where the sockets are -----

  function CarriedByConsumer(weight: Socket -> nat): Q.Consumer -> nat {
    (c: Q.Consumer) => if c.Popped? then weight(c.socket) else 0
  }

  function CarriedByJob(weight: Socket -> nat): Job -> nat {
    (j: Job) => if j.Handling? || j.Releasing? then weight(j.socket) else 0
  }

  /** Sockets in the queue, and in workers from the pop to the end of the release guard. */
  ghost function Dispatched(st: State, weight: Socket -> nat): nat {
    Sum(st.q.queue, weight)
    + Sum(st.q.consumers, CarriedByConsumer(weight))
    + Sum(st.jobs, CarriedByJob(weight))
  }

  /** The admitted socket the acceptor still holds: not pushed, not given back. */
  ghost function HeldByAcceptor(st: State, weight: Socket -> nat): nat {
    if st.acceptor.Admitted? || st.acceptor.Undoing? then weight(st.acceptor.socket) else 0
  }

  function FromAddress(address: string): Socket -> nat {
    (s: Socket) => if s.address == address then 1 else 0
  }

  function IsSocket(socket: Socket): Socket -> nat {
    (s: Socket) => if s == socket then 1 else 0
  }

  /** Connections from an address that hold an admission. */
  ghost function Inflight(st: State, address: string): nat {
    Dispatched(st, FromAddress(address)) + HeldByAcceptor(st, FromAddress(address))
  }

  ghost predicate CountsAgree(st: State) {
    forall a: string :: a != "" ==> CountOf(st.counts, a) == Inflight(st, a)
  }

  /** A worker is out of the queue's code exactly while it has a job or has exited. */
  ghost predicate JobsMatch(st: State) {
    && |st.jobs| == |st.q.consumers| == |st.q.consumerStops|
    && forall w :: 0 <= w < |st.jobs| ==> (st.jobs[w].InPop? <==> !st.q.consumers[w].Away?)
  }

  ghost predicate AcceptorMatches(st: State) {
    && |st.q.producers| == 1
    && st.q.producers[0] == (if st.acceptor.Notifying? then Q.Owing else Q.Idle)
  }

  /** Workers stop only on a closed queue, and leave only a drained one. */
  ghost predicate ExitsDrained(st: State) {
    && (forall w :: 0 <= w < |st.q.consumerStops| && st.q.consumerStops[w] ==> st.q.closed)
    && (forall w :: 0 <= w < |st.jobs| && st.jobs[w].Exited? ==> st.q.closed && st.q.queue == [])
  }

  ghost predicate Inv(st: State) {
    && 0 < st.limit
    && Q.Inv(st.q)
    && JobsMatch(st)
    && AcceptorMatches(st)
    && ExitsDrained(st)
    && WithinLimit(st.counts, st.limit)
    && CountsAgree(st)
  }

  lemma InitInv(capacity: nat, limit: nat, workers: nat)
    requires 0 < capacity && 0 < limit
    ensures Inv(Init(capacity, limit, workers))
  {
    var st := Init(capacity, limit, workers);
    Q.InitInv(capacity, workers, 1);
    forall a: string ensures Inflight(st, a) == 0 {
      SumZero(st.q.consumers, CarriedByConsumer(FromAddress(a)));
      SumZero(st.jobs, CarriedByJob(FromAddress(a)));
    }
  }

  /** The dispatched sockets a step adds or takes away: pushes add, finished guards take away, all else only moves. */
  ghost function DispatchedDelta(st: State, e: Event, weight: Socket -> nat): int
    requires Enabled(st, e)
  {
    match e
    case TryPush => if Q.TryPushOf(st.q).Queued? then weight(st.acceptor.socket) else 0
    case GuardReleases(w) => 0 - weight(st.jobs[w].socket)
    case _ => 0
  }

  lemma StepMovesQueued(st: State, e: Event, weight: Socket -> nat)
    requires Enabled(st, e)
    ensures var after := Apply(st, e);
      Sum(after.q.queue, weight) ==
        Sum(st.q.queue, weight)
        + (if e.TryPush? && Q.TryPushOf(st.q).Queued? then weight(st.acceptor.socket) else 0)
        - (if e.Pop? && Q.PopSectionOf(st.q, e.w).Took? then weight(st.q.queue[0]) else 0)
  {
    if e.TryPush? {
      SumConcat(st.q.queue, [st.acceptor.socket], weight);
      SumOne(st.acceptor.socket, weight);
    }
  }

  lemma {:induction false} SameCarried(xs: seq<Q.Consumer>, ys: seq<Q.Consumer>, weight: Socket -> nat)
    requires |xs| == |ys|
    requires forall i :: 0 <= i < |xs| ==> CarriedByConsumer(weight)(xs[i]) == CarriedByConsumer(weight)(ys[i])
    ensures Sum(xs, CarriedByConsumer(weight)) == Sum(ys, CarriedByConsumer(weight))
  {
    if xs != [] {
      SameCarried(xs[1..], ys[1..], weight);
    }
  }

  lemma StepMovesPopped(st: State, e: Event, weight: Socket -> nat)
    requires Enabled(st, e)
    ensures var after := Apply(st, e);
      Sum(after.q.consumers, CarriedByConsumer(weight)) ==
        Sum(st.q.consumers, CarriedByConsumer(weight))
        + (if e.Pop? && Q.PopSectionOf(st.q, e.w).Took? then weight(st.q.queue[0]) else 0)
        - (if e.NotifyNotFull? then weight(st.q.consumers[e.w].socket) else 0)
  {
    var after := Apply(st, e);
    var carried := CarriedByConsumer(weight);
    match e
    case Pop(w) => SumUpdate(st.q.consumers, w, after.q.consumers[w], carried);
    case NotifyNotFull(w) => SumUpdate(st.q.consumers, w, Q.Away, carried);
    case GuardReleases(w) => SumUpdate(st.q.consumers, w, Q.Checking, carried);
    case _ => SameCarried(st.q.consumers, after.q.consumers, weight);
  }

  lemma StepMovesJobs(st: State, e: Event, weight: Socket -> nat)
    requires Enabled(st, e)
    ensures var after := Apply(st, e);
      Sum(after.jobs, CarriedByJob(weight)) ==
        Sum(st.jobs, CarriedByJob(weight))
        + (if e.NotifyNotFull? then weight(st.q.consumers[e.w].socket) else 0)
        - (if e.GuardReleases? then weight(st.jobs[e.w].socket) else 0)
  {
    if e.Pop? || e.NotifyNotFull? || e.HandlerEnds? || e.GuardReleases? {
      SumUpdate(st.jobs, e.w, Apply(st, e).jobs[e.w], CarriedByJob(weight));
    }
  }

  /** No step loses or duplicates a dispatched socket, whatever is being counted. */
  lemma StepMovesDispatched(st: State, e: Event, weight: Socket -> nat)
    requires Enabled(st, e)
    ensures Dispatched(Apply(st, e), weight) == Dispatched(st, weight) + DispatchedDelta(st, e, weight)
  {
    StepMovesQueued(st, e, weight);
    StepMovesPopped(st, e, weight);
    StepMovesJobs(st, e, weight);
  }

  /** The admissions an event grants or gives back to an address. */
  ghost function InflightDelta(st: State, e: Event, address: string): int
    requires Enabled(st, e)
  {
    match e
    case TryAcquire =>
      if Acquire(st.counts, st.limit, st.acceptor.socket.address).0 then FromAddress(address)(st.acceptor.socket) else 0
    case UndoAcquire => 0 - FromAddress(address)(st.acceptor.socket)
    case GuardReleases(w) => 0 - FromAddress(address)(st.jobs[w].socket)
    case _ => 0
  }

  lemma ReleaseOfCounted(st: State, socket: Socket)
    requires WithinLimit(st.counts, st.limit) && CountsAgree(st)
    requires Inflight(st, socket.address) > 0
    ensures WithinLimit(Release(st.counts, socket.address), st.limit)
    ensures forall a: string :: a != "" ==>
              CountOf(Release(st.counts, socket.address), a) == Inflight(st, a) - FromAddress(a)(socket)
  {
    ReleaseCounts(st.counts, st.limit, socket.address);
  }

  lemma StepMovesCounts(st: State, e: Event)
    requires Inv(st) && Enabled(st, e)
    ensures WithinLimit(CountsAfter(st, e), st.limit)
    ensures forall a: string :: a != "" ==> CountOf(CountsAfter(st, e), a) == Inflight(st, a) + InflightDelta(st, e, a)
  {
    match e
    case TryAcquire => AcquireCounts(st.counts, st.limit, st.acceptor.socket.address);
    case UndoAcquire => ReleaseOfCounted(st, st.acceptor.socket);
    case GuardReleases(w) =>
      SumMember(st.jobs, w, CarriedByJob(FromAddress(st.jobs[w].socket.address)));
      ReleaseOfCounted(st, st.jobs[w].socket);
    case _ =>
  }

  /** The counter moves with the sockets it counts. */
  lemma StepKeepsCounts(st: State, e: Event)
    requires Inv(st) && Enabled(st, e)
    ensures WithinLimit(Apply(st, e).counts, st.limit) && CountsAgree(Apply(st, e))
  {
    StepMovesCounts(st, e);
    forall a: string | a != "" ensures CountOf(Apply(st, e).counts, a) == Inflight(Apply(st, e), a) {
      StepMovesDispatched(st, e, FromAddress(a));
    }
  }

  lemma StepKeepsShape(st: State, e: Event)
    requires Inv(st) && Enabled(st, e)
    ensures var after := Apply(st, e);
      Q.Inv(after.q) && JobsMatch(after) && AcceptorMatches(after) && ExitsDrained(after)
  {
    if QueueStep(st, e).Some? {
      Q.StepKeepsInv(st.q, QueueStep(st, e).value);
    }
  }

  lemma StepKeepsInv(st: State, e: Event)
    requires Inv(st) && Enabled(st, e)
    ensures Inv(Apply(st, e))
  {
    StepKeepsShape(st, e);
    StepKeepsCounts(st, e);
  }

  lemma {:induction false} RunKeepsInv(st: State, run: seq<Event>)
    requires Inv(st) && Valid(st, run)
    ensures Inv(Exec(st, run)) && Exec(st, run).limit == st.limit
    decreases |run|
  {
    if run != [] {
      StepKeepsInv(st, run[0]);
      RunKeepsInv(Apply(st, run[0]), run[1..]);
    }
  }

  /**
   In every reachable state the table records, for every address, exactly the connections that
   hold an admission, and no address ever has more of them than the limit.
   */
  lemma LimiterAgreesWithSockets(capacity: nat, limit: nat, workers: nat, run: seq<Event>)
    requires 0 < capacity && 0 < limit && Valid(Init(capacity, limit, workers), run)
    ensures var st := Exec(Init(capacity, limit, workers), run);
      && (forall a :: a in st.counts ==> a != "" && 1 <= st.counts[a] <= limit)
      && (forall a: string :: a != "" ==> CountOf(st.counts, a) == Inflight(st, a) <= limit)
  {
    InitInv(capacity, limit, workers);
    RunKeepsInv(Init(capacity, limit, workers), run);
  }
}
