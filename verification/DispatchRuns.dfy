/**
 Whole runs of the server: where every accepted socket ends up, work conservation, and shutdown.
 */
module DispatchRuns {
  import opened Wrappers
  import opened Counting
  import opened Sequences
  import opened WorkQueues
  import opened IpLimiter
  import opened Dispatch
  import Q = QueueProtocol

  // ----- Every accepted socket has exactly one place -----

  datatype Fate = IpRejected | RefusedFull | RefusedClosed | Served

  ghost function AcceptedBy(st: State, e: Event): seq<Socket> {
    if e.Accept? then [Socket(st.nextId, e.address)] else []
  }

  /** The socket, if any, that an event disposes of with the given fate. */
  ghost function SettledBy(st: State, e: Event, fate: Fate): seq<Socket>
    requires Enabled(st, e)
  {
    match e
    case TryAcquire =>
      if fate.IpRejected? && !Acquire(st.counts, st.limit, st.acceptor.socket.address).0 then [st.acceptor.socket] else []
    case UndoAcquire =>
      if (fate.RefusedFull? && st.acceptor.refusal.Full?) || (fate.RefusedClosed? && !st.acceptor.refusal.Full?)
      then [st.acceptor.socket] else []
    case GuardReleases(w) => if fate.Served? then [st.jobs[w].socket] else []
    case _ => []
  }

  ghost function AcceptedIn(st: State, run: seq<Event>): seq<Socket>
    requires Valid(st, run)
    decreases |run|
  {
    if run == [] then [] else AcceptedBy(st, run[0]) + AcceptedIn(Apply(st, run[0]), run[1..])
  }

  lemma {:induction false} AcceptedInConcat(st: State, first: seq<Event>, second: seq<Event>)
    requires Valid(st, first) && Valid(Exec(st, first), second) && Valid(st, first + second)
    ensures AcceptedIn(st, first + second) == AcceptedIn(st, first) + AcceptedIn(Exec(st, first), second)
    decreases |first|
  {
    if first == [] {
      assert first + second == second;
    } else {
      assert (first + second)[1..] == first[1..] + second;
      AcceptedInConcat(Apply(st, first[0]), first[1..], second);
      ConcatIsAssociative(AcceptedBy(st, first[0]), AcceptedIn(Apply(st, first[0]), first[1..]), AcceptedIn(Exec(st, first), second));
    }
  }

  ghost function SettledIn(st: State, run: seq<Event>, fate: Fate): seq<Socket>
    requires Valid(st, run)
    decreases |run|
  {
    if run == [] then [] else SettledBy(st, run[0], fate) + SettledIn(Apply(st, run[0]), run[1..], fate)
  }

  ghost function PushedIn(st: State, run: seq<Event>): seq<Socket>
    requires Valid(st, run)
  {
    QueueRefined(st, run);
    Q.PushedIn(st.q, QueueRun(st, run))
  }

  ghost function PoppedIn(st: State, run: seq<Event>): seq<Socket>
    requires Valid(st, run)
  {
    QueueRefined(st, run);
    Q.PoppedIn(st.q, QueueRun(st, run))
  }

  ghost function InAcceptor(st: State, weight: Socket -> nat): nat {
    if st.acceptor.Accepted? || st.acceptor.Admitted? || st.acceptor.Undoing? then weight(st.acceptor.socket) else 0
  }

  /** Sockets the server still holds: with the acceptor, queued, or in a worker. */
  ghost function Present(st: State, weight: Socket -> nat): nat {
    InAcceptor(st, weight) + Dispatched(st, weight)
  }

  ghost function Settled(st: State, run: seq<Event>, weight: Socket -> nat): nat
    requires Valid(st, run)
  {
    Sum(SettledIn(st, run, IpRejected), weight)
    + Sum(SettledIn(st, run, RefusedFull), weight)
    + Sum(SettledIn(st, run, RefusedClosed), weight)
    + Sum(SettledIn(st, run, Served), weight)
  }

  ghost function SettledByAny(st: State, e: Event, weight: Socket -> nat): nat
    requires Enabled(st, e)
  {
    Sum(SettledBy(st, e, IpRejected), weight)
    + Sum(SettledBy(st, e, RefusedFull), weight)
    + Sum(SettledBy(st, e, RefusedClosed), weight)
    + Sum(SettledBy(st, e, Served), weight)
  }

  lemma StepConserves(st: State, e: Event, weight: Socket -> nat)
    requires Enabled(st, e)
    ensures Present(st, weight) + Sum(AcceptedBy(st, e), weight)
         == Present(Apply(st, e), weight) + SettledByAny(st, e, weight)
  {
    StepMovesDispatched(st, e, weight);
    match e
    case Accept(address) => SumOne(Socket(st.nextId, address), weight);
    case TryAcquire => SumOne(st.acceptor.socket, weight);
    case UndoAcquire => SumOne(st.acceptor.socket, weight);
    case GuardReleases(w) => SumOne(st.jobs[w].socket, weight);
    case _ =>
  }

  lemma SettledSplits(st: State, run: seq<Event>, weight: Socket -> nat)
    requires Valid(st, run) && run != []
    ensures Settled(st, run, weight)
         == SettledByAny(st, run[0], weight) + Settled(Apply(st, run[0]), run[1..], weight)
  {
    var mid := Apply(st, run[0]);
    SumConcat(SettledBy(st, run[0], IpRejected), SettledIn(mid, run[1..], IpRejected), weight);
    SumConcat(SettledBy(st, run[0], RefusedFull), SettledIn(mid, run[1..], RefusedFull), weight);
    SumConcat(SettledBy(st, run[0], RefusedClosed), SettledIn(mid, run[1..], RefusedClosed), weight);
    SumConcat(SettledBy(st, run[0], Served), SettledIn(mid, run[1..], Served), weight);
  }

  /** Whatever is counted, over any run: sockets present plus accepted are sockets present at the end plus settled. */
  lemma {:induction false} Conservation(st: State, run: seq<Event>, weight: Socket -> nat)
    requires Valid(st, run)
    ensures Present(st, weight) + Sum(AcceptedIn(st, run), weight)
         == Present(Exec(st, run), weight) + Settled(st, run, weight)
    decreases |run|
  {
    if run != [] {
      var mid := Apply(st, run[0]);
      StepConserves(st, run[0], weight);
      Conservation(mid, run[1..], weight);
      SumConcat(AcceptedBy(st, run[0]), AcceptedIn(mid, run[1..]), weight);
      SettledSplits(st, run, weight);
    }
  }

  lemma {:induction false} AcceptedInOrder(st: State, run: seq<Event>)
    requires Valid(st, run)
    ensures forall k :: 0 <= k < |AcceptedIn(st, run)| ==> AcceptedIn(st, run)[k].id == st.nextId + k
    decreases |run|
  {
    if run != [] {
      AcceptedInOrder(Apply(st, run[0]), run[1..]);
    }
  }

  lemma {:induction false} DistinctSum(xs: seq<Socket>, first: nat, x: Socket)
    requires forall k :: 0 <= k < |xs| ==> xs[k].id == first + k
    ensures Sum(xs, IsSocket(x)) == if x in xs then 1 else 0
  {
    if xs != [] {
      DistinctSum(xs[1..], first + 1, x);
      if xs[0] == x {
        assert forall k :: 0 <= k < |xs[1..]| ==> xs[1..][k].id == first + 1 + k;
        assert x !in xs[1..];
      }
    }
  }

  lemma NothingPresentAtStart(capacity: nat, limit: nat, workers: nat, weight: Socket -> nat)
    ensures Present(Init(capacity, limit, workers), weight) == 0
  {
    var st := Init(capacity, limit, workers);
    SumZero(st.q.consumers, CarriedByConsumer(weight));
    SumZero(st.jobs, CarriedByJob(weight));
  }

  /**
   Every accepted socket is in exactly one place: rejected by the address limit, refused by a full
   or by a closed queue, served, with the acceptor, queued, or in a worker. Nothing else is anywhere.
   */
  lemma EachSocketInOnePlace(capacity: nat, limit: nat, workers: nat, run: seq<Event>, x: Socket)
    requires Valid(Init(capacity, limit, workers), run)
    ensures var st := Init(capacity, limit, workers);
      Settled(st, run, IsSocket(x)) + Present(Exec(st, run), IsSocket(x))
        == if x in AcceptedIn(st, run) then 1 else 0
  {
    var st := Init(capacity, limit, workers);
    Conservation(st, run, IsSocket(x));
    NothingPresentAtStart(capacity, limit, workers, IsSocket(x));
    AcceptedInOrder(st, run);
    DistinctSum(AcceptedIn(st, run), 0, x);
  }

  /** The queue hands sockets to workers in the order the acceptor pushed them and never overfills. */
  lemma QueueIsFifo(capacity: nat, limit: nat, workers: nat, run: seq<Event>)
    requires 0 < capacity && 0 < limit && Valid(Init(capacity, limit, workers), run)
    ensures var st := Init(capacity, limit, workers);
      && PoppedIn(st, run) + Exec(st, run).q.queue == PushedIn(st, run)
      && |Exec(st, run).q.queue| <= capacity
  {
    var st := Init(capacity, limit, workers);
    InitInv(capacity, limit, workers);
    RunKeepsInv(st, run);
    QueueRefined(st, run);
    Q.RunKeepsInv(st.q, QueueRun(st, run));
    Q.Fifo(st.q, QueueRun(st, run));
    assert st.q.queue + PushedIn(st, run) == PushedIn(st, run);
  }

  ghost function PushedBy(st: State, e: Event): seq<Socket>
    requires Enabled(st, e)
  {
    if e.TryPush? && Q.TryPushOf(st.q).Queued? then [st.acceptor.socket] else []
  }

  lemma PushedSplits(st: State, run: seq<Event>, weight: Socket -> nat)
    requires Valid(st, run) && run != []
    ensures Sum(PushedIn(st, run), weight)
         == (if run[0].TryPush? && Q.TryPushOf(st.q).Queued? then weight(st.acceptor.socket) else 0)
            + Sum(PushedIn(Apply(st, run[0]), run[1..]), weight)
  {
    var mid := Apply(st, run[0]);
    QueueRefined(st, run);
    QueueRefined(mid, run[1..]);
    assert PushedIn(st, run) == PushedBy(st, run[0]) + PushedIn(mid, run[1..]) by {
      if QueueStep(st, run[0]).Some? {
        assert QueueRun(st, run)[1..] == QueueRun(mid, run[1..]);
      }
    }
    SumConcat(PushedBy(st, run[0]), PushedIn(mid, run[1..]), weight);
    if PushedBy(st, run[0]) != [] {
      SumOne(st.acceptor.socket, weight);
    }
  }

  lemma PushedIsServedOrPresent(st: State, run: seq<Event>, weight: Socket -> nat)
    requires Valid(st, run)
    ensures Dispatched(st, weight) + Sum(PushedIn(st, run), weight)
         == Dispatched(Exec(st, run), weight) + Sum(SettledIn(st, run, Served), weight)
    decreases |run|
  {
    if run != [] {
      var mid, e := Apply(st, run[0]), run[0];
      StepMovesDispatched(st, e, weight);
      PushedIsServedOrPresent(mid, run[1..], weight);
      SumConcat(SettledBy(st, e, Served), SettledIn(mid, run[1..], Served), weight);
      if e.GuardReleases? {
        SumOne(st.jobs[e.w].socket, weight);
      }
      PushedSplits(st, run, weight);
    }
  }

  /**
   With no socket in the acceptor's hands at either end of a run, every socket accepted in it was
   pushed, or else refused for its address, for want of room, or because the queue was closed.
   */
  lemma AcceptedIsPushedOrRefused(st: State, run: seq<Event>, weight: Socket -> nat)
    requires Valid(st, run) && InAcceptor(st, weight) == 0 && InAcceptor(Exec(st, run), weight) == 0
    ensures Sum(AcceptedIn(st, run), weight)
         == Sum(PushedIn(st, run), weight) + Sum(SettledIn(st, run, IpRejected), weight)
            + Sum(SettledIn(st, run, RefusedFull), weight) + Sum(SettledIn(st, run, RefusedClosed), weight)
  {
    Conservation(st, run, weight);
    PushedIsServedOrPresent(st, run, weight);
  }

  /** The push is refused only for a reason. */
  lemma PushSucceedsExactlyIfThereIsRoom(st: State)
    requires Enabled(st, TryPush)
    ensures Apply(st, TryPush).acceptor.Notifying? <==> !st.q.closed && |st.q.queue| < st.q.capacity
    ensures Apply(st, TryPush).q.queue ==
            if !st.q.closed && |st.q.queue| < st.q.capacity then st.q.queue + [st.acceptor.socket] else st.q.queue
  {
  }

  // ----- Work conservation -----

  /** Wherever a worker sleeps beside a non-empty queue, the acceptor or a woken worker can move to fix it. */
  lemma SleeperWillBeWoken(capacity: nat, limit: nat, workers: nat, run: seq<Event>) returns (e: Event)
    requires 0 < capacity && 0 < limit && Valid(Init(capacity, limit, workers), run)
    requires var st := Exec(Init(capacity, limit, workers), run); Q.SomeSleeping(st.q) && st.q.queue != []
    ensures e.Pop? || e.NotifyWorker?
    ensures Enabled(Exec(Init(capacity, limit, workers), run), e)
  {
    InitInv(capacity, limit, workers);
    RunKeepsInv(Init(capacity, limit, workers), run);
    var st := Exec(Init(capacity, limit, workers), run);
    var step := Q.SomeWakeupPending(st.q);
    e := if step.Pop? then Pop(step.c) else NotifyWorker(step.wakes);
  }

  // ----- Shutdown -----

  ghost predicate WorkerStep(e: Event) {
    e.Pop? || e.NotifyNotFull? || e.HandlerEnds? || e.GuardReleases?
  }

  function ConsumerWork(c: Q.Consumer): nat {
    match c
    case Away => 0
    case Popped(_) => 4
    case _ => 1
  }

  function JobWork(j: Job): nat {
    match j
    case Handling(_) => 3
    case Releasing(_) => 2
    case _ => 0
  }

  /** The worker steps a closed server still has to take. */
  ghost function Remaining(st: State): nat {
    4 * |st.q.queue| + Sum(st.q.consumers, ConsumerWork) + Sum(st.jobs, JobWork)
  }

  lemma {:induction false} SameWork(xs: seq<Q.Consumer>, ys: seq<Q.Consumer>)
    requires |xs| == |ys|
    requires forall i :: 0 <= i < |xs| ==> ConsumerWork(xs[i]) == ConsumerWork(ys[i])
    ensures Sum(xs, ConsumerWork) == Sum(ys, ConsumerWork)
  {
    if xs != [] {
      SameWork(xs[1..], ys[1..]);
    }
  }

  lemma ClosedWorkerStep(st: State, e: Event)
    requires Inv(st) && st.q.closed && Enabled(st, e) && WorkerStep(e)
    ensures Apply(st, e).q.closed && Remaining(st) == Remaining(Apply(st, e)) + 1
  {
    var after := Apply(st, e);
    SumUpdate(st.q.consumers, e.w, after.q.consumers[e.w], ConsumerWork);
    SumUpdate(st.jobs, e.w, after.jobs[e.w], JobWork);
    assert after.q.consumers == st.q.consumers[e.w := after.q.consumers[e.w]];
    assert after.jobs == st.jobs[e.w := after.jobs[e.w]];
  }

  /** On a closed queue every worker step is progress and no other step undoes it. */
  lemma ClosedStep(st: State, e: Event)
    requires Inv(st) && st.q.closed && Enabled(st, e)
    ensures Apply(st, e).q.closed
    ensures Remaining(st) == Remaining(Apply(st, e)) + (if WorkerStep(e) then 1 else 0)
  {
    if WorkerStep(e) {
      ClosedWorkerStep(st, e);
    } else {
      SameWork(st.q.consumers, Apply(st, e).q.consumers);
    }
  }

  ghost function WorkerStepsIn(run: seq<Event>): nat {
    if run == [] then 0 else (if WorkerStep(run[0]) then 1 else 0) + WorkerStepsIn(run[1..])
  }

  /** Every run of a closed server, however it is scheduled, takes at most `Remaining` worker steps. */
  lemma {:induction false} ClosedRunIsBounded(st: State, run: seq<Event>)
    requires Inv(st) && st.q.closed && Valid(st, run)
    ensures Inv(Exec(st, run)) && Exec(st, run).q.closed
    ensures Remaining(st) == Remaining(Exec(st, run)) + WorkerStepsIn(run)
    decreases |run|
  {
    if run != [] {
      StepKeepsInv(st, run[0]);
      ClosedStep(st, run[0]);
      ClosedRunIsBounded(Apply(st, run[0]), run[1..]);
    }
  }

  ghost predicate AllExited(st: State) {
    forall w :: 0 <= w < |st.jobs| ==> st.jobs[w].Exited?
  }

  /** A closed server whose workers have not all exited is never stuck. */
  lemma WorkerCanMove(st: State) returns (e: Event)
    requires Inv(st) && st.q.closed && !AllExited(st)
    ensures WorkerStep(e) && Enabled(st, e)
  {
    var w: nat :| w < |st.jobs| && !st.jobs[w].Exited?;
    match st.jobs[w]
    case Handling(_) => e := HandlerEnds(w, false);
    case Releasing(_) => e := GuardReleases(w);
    case InPop =>
      assert !Q.SomeBlocked(st.q);
      e := if st.q.consumers[w].Popped? then NotifyNotFull(w) else Pop(w);
  }

  lemma {:induction false} SumIsMultiplicity(xs: seq<Socket>, x: Socket)
    ensures Sum(xs, IsSocket(x)) == multiset(xs)[x]
  {
    if xs != [] {
      SumIsMultiplicity(xs[1..], x);
      assert xs == [xs[0]] + xs[1..];
    }
  }

  lemma NothingDispatched(st: State, weight: Socket -> nat)
    requires Inv(st) && |st.jobs| > 0 && AllExited(st)
    ensures Dispatched(st, weight) == 0 && st.q.queue == []
  {
    assert st.jobs[0].Exited?;
    SumZero(st.jobs, CarriedByJob(weight));
    SumZero(st.q.consumers, CarriedByConsumer(weight));
  }

  lemma NoAdmissionsLeft(st: State)
    requires Inv(st) && |st.jobs| > 0 && AllExited(st)
    requires !st.acceptor.Admitted? && !st.acceptor.Undoing?
    ensures st.counts == map[]
  {
    forall a: string ensures a !in st.counts {
      if a != "" {
        NothingDispatched(st, FromAddress(a));
        assert CountOf(st.counts, a) == 0;
      }
    }
  }

  lemma {:induction false} WorkersNeverChange(st: State, run: seq<Event>)
    requires Valid(st, run)
    ensures |Exec(st, run).jobs| == |st.jobs|
    decreases |run|
  {
    if run != [] {
      WorkersNeverChange(Apply(st, run[0]), run[1..]);
    }
  }

  /**
   Once the workers have exited, the queue is empty and the sockets served are exactly those ever
   pushed, each once; if the acceptor holds nothing, no address is counted any more.
   */
  lemma ShutdownDrains(capacity: nat, limit: nat, workers: nat, run: seq<Event>)
    requires 0 < capacity && 0 < limit && 0 < workers && Valid(Init(capacity, limit, workers), run)
    requires AllExited(Exec(Init(capacity, limit, workers), run))
    ensures var st, end := Init(capacity, limit, workers), Exec(Init(capacity, limit, workers), run);
      && end.q.closed && end.q.queue == []
      && multiset(SettledIn(st, run, Served)) == multiset(PushedIn(st, run))
      && (forall x :: x in PushedIn(st, run) ==> multiset(PushedIn(st, run))[x] == 1)
      && (!end.acceptor.Admitted? && !end.acceptor.Undoing? ==> end.counts == map[])
  {
    var st, end := Init(capacity, limit, workers), Exec(Init(capacity, limit, workers), run);
    InitInv(capacity, limit, workers);
    RunKeepsInv(st, run);
    WorkersNeverChange(st, run);
    assert end.jobs[0].Exited?;
    var served, pushed := SettledIn(st, run, Served), PushedIn(st, run);
    forall x: Socket
      ensures multiset(served)[x] == multiset(pushed)[x] <= 1
    {
      NothingDispatched(end, IsSocket(x));
      NothingPresentAtStart(capacity, limit, workers, IsSocket(x));
      PushedIsServedOrPresent(st, run, IsSocket(x));
      EachSocketInOnePlace(capacity, limit, workers, run, x);
      SumIsMultiplicity(served, x);
      SumIsMultiplicity(pushed, x);
    }
    forall x | x in pushed ensures multiset(pushed)[x] == 1 {
      assert x in multiset(pushed);
    }
    if !end.acceptor.Admitted? && !end.acceptor.Undoing? {
      NoAdmissionsLeft(end);
    }
  }

  /** The socket, if any, that an event tries to push. */
  ghost function TriedBy(st: State, e: Event): seq<Socket>
    requires Enabled(st, e)
  {
    if e.TryPush? then [st.acceptor.socket] else []
  }

  ghost function TriedIn(st: State, run: seq<Event>): seq<Socket>
    requires Valid(st, run)
    decreases |run|
  {
    if run == [] then [] else TriedBy(st, run[0]) + TriedIn(Apply(st, run[0]), run[1..])
  }

  /** A socket refused by the closed queue whose admission the acceptor still has to give back. */
  ghost function ToGiveBack(st: State): seq<Socket> {
    if st.acceptor.Undoing? && !st.acceptor.refusal.Full? then [st.acceptor.socket] else []
  }

  lemma ClosedStepGivesBack(st: State, e: Event)
    requires st.q.closed && Enabled(st, e)
    ensures ToGiveBack(st) + TriedBy(st, e) == SettledBy(st, e, RefusedClosed) + ToGiveBack(Apply(st, e))
    ensures Apply(st, e).q.closed
  {
  }

  /**
   After a shutdown request every socket that the acceptor tries to push is refused as closed and its
   admission given back, in order; at most the last of them is still to be given back.
   */
  lemma {:induction false} RefusedIsGivenBack(st: State, run: seq<Event>)
    requires st.q.closed && Valid(st, run)
    ensures ToGiveBack(st) + TriedIn(st, run) == SettledIn(st, run, RefusedClosed) + ToGiveBack(Exec(st, run))
    decreases |run|
  {
    if run != [] {
      var next := Apply(st, run[0]);
      ClosedStepGivesBack(st, run[0]);
      RefusedIsGivenBack(next, run[1..]);
      ConcatIsAssociative(ToGiveBack(st), TriedBy(st, run[0]), TriedIn(next, run[1..]));
      ConcatIsAssociative(SettledBy(st, run[0], RefusedClosed), ToGiveBack(next), TriedIn(next, run[1..]));
      ConcatIsAssociative(SettledBy(st, run[0], RefusedClosed), SettledIn(next, run[1..], RefusedClosed), ToGiveBack(Exec(st, run)));
    }
  }

  /** After a shutdown request no push succeeds. */
  lemma ShutdownRefusesPushes(st: State, run: seq<Event>)
    requires st.q.closed && Valid(st, run)
    ensures Exec(st, run).q.closed && PushedIn(st, run) == []
  {
    QueueRefined(st, run);
    Q.ClosedAcceptsNothing(st.q, QueueRun(st, run));
  }

  /** A closed server whose workers can move no further has let them all exit. */
  lemma ShutdownEnds(st: State, run: seq<Event>)
    requires Inv(st) && st.q.closed && Valid(st, run)
    requires forall e: Event :: WorkerStep(e) ==> !Enabled(Exec(st, run), e)
    ensures AllExited(Exec(st, run))
  {
    ClosedRunIsBounded(st, run);
    if !AllExited(Exec(st, run)) {
      var e := WorkerCanMove(Exec(st, run));
      assert false;
    }
  }

  lemma NothingRemains(st: State)
    requires Inv(st) && AllExited(st) && |st.jobs| > 0
    ensures Remaining(st) == 0
  {
    SumZero(st.jobs, JobWork);
    SumZero(st.q.consumers, ConsumerWork);
    assert st.jobs[0].Exited?;
  }

  /** From any closed state the workers can all be run to their exit, in exactly `Remaining` steps of theirs. */
  lemma {:induction false} ShutdownCompletes(st: State) returns (run: seq<Event>)
    requires Inv(st) && st.q.closed && |st.jobs| > 0
    ensures Valid(st, run) && |run| == Remaining(st) && AllExited(Exec(st, run))
    decreases Remaining(st)
  {
    if AllExited(st) {
      run := [];
      NothingRemains(st);
    } else {
      var e := WorkerCanMove(st);
      StepKeepsInv(st, e);
      ClosedStep(st, e);
      var rest := ShutdownCompletes(Apply(st, e));
      run := [e] + rest;
      assert run[1..] == rest;
    }
  }
}
