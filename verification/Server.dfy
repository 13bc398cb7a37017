/**
 The server's own code over the shared limiter and queue.

 Each critical section is shown to be one step of the Dispatch system, in any state it can be in:
 whatever the acceptor and the other workers are doing. The body of the accept loop, the worker
 callback with its release guard and the worker loop are then runs of Dispatch, from any such state,
 as long as nothing interferes between their sections; interference is Dispatch's own subject.
 */
module Server {
  import opened Wrappers
  import opened Sequences
  import opened WorkQueues
  import opened IpLimiter
  import D = Dispatch
  import DR = DispatchRuns
  import Q = QueueProtocol

  datatype AcceptResult = Connected(address: string) | Retryable | Fatal

  lemma {:induction false} RunsCompose(st: D.State, first: seq<D.Event>, second: seq<D.Event>)
    requires D.Valid(st, first) && D.Valid(D.Exec(st, first), second)
    ensures D.Valid(st, first + second)
    ensures D.Exec(st, first + second) == D.Exec(D.Exec(st, first), second)
    decreases |first|
  {
    if first == [] {
      assert first + second == second;
    } else {
      assert (first + second)[1..] == first[1..] + second;
      RunsCompose(D.Apply(st, first[0]), first[1..], second);
    }
  }

  /** A run from one state to another. */
  ghost predicate Reaches(st: D.State, run: seq<D.Event>, end: D.State) {
    D.Valid(st, run) && D.Exec(st, run) == end
  }

  lemma ReachesItself(st: D.State)
    ensures Reaches(st, [], st) && DR.AcceptedIn(st, []) == []
  {
  }

  lemma RunsReach(st: D.State, run: seq<D.Event>, middle: D.State, more: seq<D.Event>, end: D.State)
    requires Reaches(st, run, middle) && Reaches(middle, more, end)
    ensures Reaches(st, run + more, end)
    ensures DR.AcceptedIn(st, run + more) == DR.AcceptedIn(st, run) + DR.AcceptedIn(middle, more)
  {
    RunsCompose(st, run, more);
    DR.AcceptedInConcat(st, run, more);
  }

  lemma StepReaches(st: D.State, run: seq<D.Event>, middle: D.State, e: D.Event)
    requires D.Inv(middle) && Reaches(st, run, middle) && D.Enabled(middle, e)
    ensures Reaches(st, run + [e], D.Apply(middle, e)) && D.Inv(D.Apply(middle, e))
    ensures DR.AcceptedIn(st, run + [e]) == DR.AcceptedIn(st, run) + DR.AcceptedBy(middle, e)
  {
    assert DR.AcceptedIn(middle, [e]) == DR.AcceptedBy(middle, e) + [];
    assert [e][1..] == [];
    RunsReach(st, run, middle, [e], D.Apply(middle, e));
    D.StepKeepsInv(middle, e);
  }

  /** The steps of the acceptor, and those of a worker. */
  ghost predicate OfAcceptor(e: D.Event) {
    || e.Accept? || e.AcceptRetry? || e.AcceptFatal? || e.TryAcquire? || e.TryPush? || e.NotifyWorker? || e.UndoAcquire?
  }

  ghost predicate OfWorker(e: D.Event, w: nat) {
    e == D.Pop(w) || e == D.NotifyNotFull(w) || (e.HandlerEnds? && e.w == w) || e == D.GuardReleases(w)
  }

  /** The sockets of the connections that a listener delivers, up to a fatal error. */
  function Arrivals(accepts: seq<AcceptResult>, nextId: nat): seq<Socket> {
    if accepts == [] || accepts[0].Fatal? then []
    else match accepts[0]
      case Connected(address) => [Socket(nextId, address)] + Arrivals(accepts[1..], nextId + 1)
      case Retryable => Arrivals(accepts[1..], nextId)
  }

  /** The sockets of the first i results. */
  ghost function ArrivedBy(accepts: seq<AcceptResult>, i: nat, nextId: nat): seq<Socket>
    requires i <= |accepts|
  {
    Arrivals(accepts[..i], nextId)
  }

  ghost predicate NoFatalBefore(accepts: seq<AcceptResult>, i: nat)
    requires i <= |accepts|
  {
    forall k :: 0 <= k < i ==> !accepts[k].Fatal?
  }

  lemma {:induction false} OneMoreArrival(accepts: seq<AcceptResult>, i: nat, nextId: nat)
    requires i < |accepts| && NoFatalBefore(accepts, i)
    ensures ArrivedBy(accepts, i + 1, nextId)
         == ArrivedBy(accepts, i, nextId)
            + if accepts[i].Connected? then [Socket(nextId + |ArrivedBy(accepts, i, nextId)|, accepts[i].address)] else []
    ensures accepts[i].Fatal? ==> Arrivals(accepts, nextId) == ArrivedBy(accepts, i, nextId)
    decreases i
  {
    if i > 0 {
      assert accepts[..i][0] == accepts[0] && accepts[..i + 1][0] == accepts[0];
      assert accepts[..i][1..] == accepts[1..][..i - 1] && accepts[..i + 1][1..] == accepts[1..][..i];
      var next := if accepts[0].Connected? then nextId + 1 else nextId;
      OneMoreArrival(accepts[1..], i - 1, next);
      assert accepts[1..][i - 1] == accepts[i] && !accepts[0].Fatal?;
      var first := if accepts[0].Connected? then [Socket(nextId, accepts[0].address)] else [];
      assert ArrivedBy(accepts, i, nextId) == first + ArrivedBy(accepts[1..], i - 1, next);
      assert ArrivedBy(accepts, i + 1, nextId) == first + ArrivedBy(accepts[1..], i, next);
    } else {
      assert accepts[..i + 1] == [accepts[0]] && accepts[..i] == [];
      assert [accepts[0]][1..] == [];
      assert ArrivedBy(accepts, i, nextId) == [];
      assert Arrivals([accepts[0]], nextId)
          == if accepts[0].Connected? then [Socket(nextId, accepts[0].address)] else [];
    }
  }

  lemma AllArrived(accepts: seq<AcceptResult>, nextId: nat)
    ensures ArrivedBy(accepts, |accepts|, nextId) == Arrivals(accepts, nextId) && ArrivedBy(accepts, 0, nextId) == []
  {
    assert accepts[..|accepts|] == accepts;
  }

  /** There is always a sleeper to wake, or nobody asleep. */
  lemma SomeWake(q: Q.State) returns (wakes: Option<nat>)
    ensures Q.WakesConsumer(q, wakes)
  {
    if c: nat :| c < |q.consumers| && q.consumers[c].Sleeping? {
      wakes := Some(c);
    } else {
      wakes := None;
    }
  }

  /** A worker that is about to run a critical section of `pop`. */
  ghost predicate Popping(st: D.State, w: nat) {
    && w < |st.jobs| && |st.jobs| == |st.q.consumers| == |st.q.consumerStops|
    && (st.q.consumers[w].Checking? || st.q.consumers[w].Woken?)
  }

  ghost predicate HasExited(st: D.State, w: nat) {
    w < |st.jobs| && st.jobs[w].Exited?
  }

  ghost predicate IsAsleep(st: D.State, w: nat) {
    w < |st.q.consumers| && st.q.consumers[w].Sleeping?
  }

  /** The steps that touch neither the queue nor the limiter: a thread's own, and notifications after unlock. */
  ghost predicate Silent(e: D.Event) {
    || e.AcceptRetry? || e.AcceptFatal? || e.NotifyWorker? || e.NotifyNotFull?
    || e.Spurious? || e.HandlerEnds? || e.StopWorker?
  }

  /** The sockets whose callback ended by an exception. */
  function Failed(served: seq<Socket>, onClient: Socket -> bool): seq<Socket> {
    if served == [] then []
    else
      var last := served[|served| - 1];
      Failed(served[..|served| - 1], onClient) + (if onClient(last) then [last] else [])
  }

  lemma FailedOneMore(served: seq<Socket>, next: Socket, onClient: Socket -> bool)
    ensures Failed(served + [next], onClient)
         == if onClient(next) then Failed(served, onClient) + [next] else Failed(served, onClient)
  {
    assert (served + [next])[..|served|] == served;
  }

  class Server {
    const limiter: IpConnectionLimiter
    const queue: WorkQueue
    /** What the connection handler does with a client; true if it ends by an exception. */
    const onClient: Socket -> bool
    var nextId: nat

    constructor (limiter: IpConnectionLimiter, queue: WorkQueue, onClient: Socket -> bool)
      ensures this.limiter == limiter && this.queue == queue && this.onClient == onClient && nextId == 0
    {
      this.limiter := limiter;
      this.queue := queue;
      this.onClient := onClient;
      this.nextId := 0;
    }

    /** The limiter and the queue are as in this state; nothing is said of the threads. */
    ghost predicate Shows(st: D.State)
      reads this, limiter, queue
    {
      && queue.Valid()
      && st.q.capacity == queue.capacity && st.q.queue == queue.sockets && st.q.closed == queue.closed
      && st.counts == limiter.inflightByIp && st.limit == limiter.perIpLimit
      && st.nextId == nextId
    }

    lemma SilentStep(st: D.State, e: D.Event)
      requires Shows(st) && D.Enabled(st, e) && Silent(e)
      ensures Shows(D.Apply(st, e))
    {
    }

    // ----- One critical section, whatever the other threads are doing -----

    method AcceptStep(address: string, ghost st: D.State) returns (socket: Socket)
      requires Shows(st) && st.acceptor.Accepting?
      modifies this`nextId
      ensures D.Enabled(st, D.Accept(address)) && Shows(D.Apply(st, D.Accept(address)))
      ensures socket == Socket(st.nextId, address)
    {
      socket := Socket(nextId, address);
      nextId := nextId + 1;
    }

    method AcquireStep(socket: Socket, ghost st: D.State) returns (admitted: bool)
      requires Shows(st) && st.acceptor == D.Accepted(socket)
      modifies limiter`inflightByIp
      ensures D.Enabled(st, D.TryAcquire) && Shows(D.Apply(st, D.TryAcquire))
      ensures D.Apply(st, D.TryAcquire).acceptor == if admitted then D.Admitted(socket) else D.Accepting
    {
      admitted := limiter.TryAcquire(socket.address);
    }

    method TryPushStep(socket: Socket, ghost st: D.State) returns (result: PushResult)
      requires D.Inv(st) && Shows(st) && st.acceptor == D.Admitted(socket)
      modifies queue`sockets
      ensures D.Enabled(st, D.TryPush) && Shows(D.Apply(st, D.TryPush))
      ensures D.Apply(st, D.TryPush).acceptor == if result.Queued? then D.Notifying else D.Undoing(socket, result)
      ensures result.Queued? <==> !st.q.closed && |st.q.queue| < st.q.capacity
    {
      result := queue.TryPush(socket);
    }

    method UndoStep(socket: Socket, ghost st: D.State)
      requires Shows(st) && st.acceptor.Undoing? && st.acceptor.socket == socket
      modifies limiter`inflightByIp
      ensures D.Enabled(st, D.UndoAcquire) && Shows(D.Apply(st, D.UndoAcquire))
    {
      limiter.ReleaseOne(socket.address);
    }

    method PopStep(stopped: bool, ghost st: D.State, ghost w: nat) returns (section: PopSection)
      requires D.Inv(st) && Shows(st) && Popping(st, w) && stopped == st.q.consumerStops[w]
      modifies queue`sockets
      ensures D.Enabled(st, D.Pop(w)) && Shows(D.Apply(st, D.Pop(w)))
      ensures section == Q.PopSectionOf(st.q, w)
    {
      section := queue.PopWhileLocked(stopped);
    }

    method ReleaseStep(socket: Socket, ghost st: D.State, ghost w: nat)
      requires D.Inv(st) && Shows(st) && w < |st.jobs| && st.jobs[w] == D.Releasing(socket)
      modifies limiter`inflightByIp
      ensures D.Enabled(st, D.GuardReleases(w)) && Shows(D.Apply(st, D.GuardReleases(w)))
    {
      limiter.ReleaseOne(socket.address);
    }

    method CloseStep(ghost st: D.State)
      requires D.Inv(st) && Shows(st)
      modifies queue`closed
      ensures D.Enabled(st, D.Close) && Shows(D.Apply(st, D.Close))
    {
      queue.Close();
    }

    // ----- The loops -----

    /** Its second half: the push, and then the notification or the release. */
    method PushOrUndo(socket: Socket, ghost st: D.State)
      returns (result: PushResult, ghost steps: seq<D.Event>, ghost end: D.State)
      requires D.Inv(st) && Shows(st) && st.acceptor == D.Admitted(socket)
      modifies limiter`inflightByIp, queue`sockets
      ensures Reaches(st, steps, end) && D.Inv(end) && Shows(end) && end.acceptor.Accepting?
      ensures result == TryPushOutcome(|old(queue.sockets)|, queue.capacity, queue.closed)
      ensures queue.sockets == if result.Queued? then old(queue.sockets) + [socket] else old(queue.sockets)
      ensures limiter.inflightByIp ==
              if result.Queued? then old(limiter.inflightByIp) else Release(old(limiter.inflightByIp), socket.address)
      ensures nextId == old(nextId) && DR.AcceptedIn(st, steps) == [] && forall e :: e in steps ==> OfAcceptor(e)
    {
      ReachesItself(st);
      result := TryPushStep(socket, st);
      StepReaches(st, [], st, D.TryPush);
      steps, end := [] + [D.TryPush], D.Apply(st, D.TryPush);
      if result == Queued {
        ghost var wakes := SomeWake(end.q);
        SilentStep(end, D.NotifyWorker(wakes));
        StepReaches(st, steps, end, D.NotifyWorker(wakes));
        steps, end := steps + [D.NotifyWorker(wakes)], D.Apply(end, D.NotifyWorker(wakes));
      } else {
        UndoStep(socket, end);
        StepReaches(st, steps, end, D.UndoAcquire);
        steps, end := steps + [D.UndoAcquire], D.Apply(end, D.UndoAcquire);
      }
    }

    /** One accepted connection: admit it, try to queue it, give the admission back if that fails. */
    method Admit(address: string, ghost st: D.State)
      returns (result: Option<PushResult>, ghost steps: seq<D.Event>, ghost end: D.State)
      requires D.Inv(st) && Shows(st) && st.acceptor.Accepting?
      modifies this`nextId, limiter`inflightByIp, queue`sockets
      ensures Reaches(st, steps, end) && D.Inv(end) && Shows(end) && end.acceptor.Accepting?
      ensures result.Some? <==> Acquire(old(limiter.inflightByIp), limiter.perIpLimit, address).0
      ensures result.Some? ==> result.value == TryPushOutcome(|old(queue.sockets)|, queue.capacity, queue.closed)
      ensures queue.sockets ==
              if result == Some(Queued) then old(queue.sockets) + [Socket(old(nextId), address)] else old(queue.sockets)
      ensures nextId == old(nextId) + 1 && DR.AcceptedIn(st, steps) == [Socket(old(nextId), address)]
      ensures forall e :: e in steps ==> OfAcceptor(e)
    {
      ReachesItself(st);
      var socket := AcceptStep(address, st);
      StepReaches(st, [], st, D.Accept(address));
      steps, end := [] + [D.Accept(address)], D.Apply(st, D.Accept(address));

      var admitted := AcquireStep(socket, end);
      StepReaches(st, steps, end, D.TryAcquire);
      steps, end := steps + [D.TryAcquire], D.Apply(end, D.TryAcquire);
      if !admitted {
        result := None;
        return;
      }

      ghost var middle := end;
      ghost var pushing;
      var pushed;
      pushed, pushing, end := PushOrUndo(socket, middle);
      RunsReach(st, steps, middle, pushing, end);
      result, steps := Some(pushed), steps + pushing;
    }

    /** One turn of the accept loop; a fatal error ends it by an exception. */
    method TakeResult(accepted: AcceptResult, ghost st: D.State)
      returns (ghost steps: seq<D.Event>, ghost end: D.State)
      requires D.Inv(st) && Shows(st) && st.acceptor.Accepting?
      modifies this`nextId, limiter`inflightByIp, queue`sockets
      ensures Reaches(st, steps, end) && D.Inv(end) && Shows(end)
      ensures if accepted.Fatal? then end.acceptor.Left? else end.acceptor.Accepting?
      ensures DR.AcceptedIn(st, steps) == if accepted.Connected? then [Socket(old(nextId), accepted.address)] else []
      ensures nextId == old(nextId) + if accepted.Connected? then 1 else 0
      ensures forall e :: e in steps ==> OfAcceptor(e)
    {
      ReachesItself(st);
      match accepted {
        case Connected(address) =>
          var result;
          result, steps, end := Admit(address, st);
        case Retryable =>
          SilentStep(st, D.AcceptRetry);
          StepReaches(st, [], st, D.AcceptRetry);
          steps, end := [] + [D.AcceptRetry], D.Apply(st, D.AcceptRetry);
        case Fatal =>
          SilentStep(st, D.AcceptFatal);
          StepReaches(st, [], st, D.AcceptFatal);
          steps, end := [] + [D.AcceptFatal], D.Apply(st, D.AcceptFatal);
      }
    }

    /**
     The accept loop over the results its listener delivers: it accepts exactly the connections that
     arrive before a fatal error, in order.
     */
    method AcceptLoop(accepts: seq<AcceptResult>, ghost st: D.State)
      returns (left: bool, ghost run: seq<D.Event>, ghost end: D.State)
      requires D.Inv(st) && Shows(st) && st.acceptor.Accepting?
      modifies this`nextId, limiter`inflightByIp, queue`sockets
      ensures Reaches(st, run, end) && D.Inv(end) && Shows(end)
      ensures left <==> Fatal in accepts
      ensures if left then end.acceptor.Left? else end.acceptor.Accepting?
      ensures DR.AcceptedIn(st, run) == Arrivals(accepts, st.nextId) && forall e :: e in run ==> OfAcceptor(e)
    {
      run, end := [], st;
      ReachesItself(st);
      AllArrived(accepts, st.nextId);
      for i := 0 to |accepts|
        invariant NoFatalBefore(accepts, i)
        invariant Reaches(st, run, end) && D.Inv(end) && Shows(end) && end.acceptor.Accepting?
        invariant DR.AcceptedIn(st, run) == ArrivedBy(accepts, i, st.nextId)
        invariant nextId == st.nextId + |ArrivedBy(accepts, i, st.nextId)|
        invariant forall e :: e in run ==> OfAcceptor(e)
      {
        OneMoreArrival(accepts, i, st.nextId);
        ghost var middle := end;
        ghost var steps;
        steps, end := TakeResult(accepts[i], middle);
        RunsReach(st, run, middle, steps, end);
        run := run + steps;
        if accepts[i].Fatal? {
          return true, run, end;
        }
      }
      left := false;
    }

    /** The worker callback: the guard gives the admission back however the connection handler ends. */
    method ServeClient(socket: Socket, ghost st: D.State, ghost w: nat)
      returns (threw: bool, ghost steps: seq<D.Event>, ghost end: D.State)
      requires D.Inv(st) && Shows(st) && w < |st.q.consumers| && st.q.consumers[w] == Q.Popped(socket)
      modifies limiter`inflightByIp
      ensures Reaches(st, steps, end) && D.Inv(end) && Shows(end)
      ensures Popping(end, w) && end.q.consumerStops == st.q.consumerStops
      ensures threw == onClient(socket) && forall e :: e in steps ==> OfWorker(e, w)
    {
      ReachesItself(st);
      SilentStep(st, D.NotifyNotFull(w));
      StepReaches(st, [], st, D.NotifyNotFull(w));
      steps, end := [] + [D.NotifyNotFull(w)], D.Apply(st, D.NotifyNotFull(w));

      threw := onClient(socket);
      SilentStep(end, D.HandlerEnds(w, threw));
      StepReaches(st, steps, end, D.HandlerEnds(w, threw));
      steps, end := steps + [D.HandlerEnds(w, threw)], D.Apply(end, D.HandlerEnds(w, threw));

      ReleaseStep(socket, end, w);
      StepReaches(st, steps, end, D.GuardReleases(w));
      steps, end := steps + [D.GuardReleases(w)], D.Apply(end, D.GuardReleases(w));
    }

    /** One turn of a worker's loop: pop, and serve what was popped. */
    method ServeNext(stopped: bool, ghost st: D.State, ghost w: nat)
      returns (section: PopSection, threw: bool, ghost steps: seq<D.Event>, ghost end: D.State)
      requires D.Inv(st) && Shows(st) && Popping(st, w) && stopped == st.q.consumerStops[w]
      modifies limiter`inflightByIp, queue`sockets
      ensures Reaches(st, steps, end) && D.Inv(end) && Shows(end)
      ensures section == PopOutcome(old(queue.sockets), queue.closed, stopped)
      ensures old(queue.sockets) == (if section.Took? then [section.socket] else []) + queue.sockets
      ensures match section
              case Took(socket) => Popping(end, w) && end.q.consumerStops[w] == stopped && threw == onClient(socket)
              case Nothing => HasExited(end, w)
              case PopWaits => IsAsleep(end, w)
      ensures forall e :: e in steps ==> OfWorker(e, w)
    {
      ReachesItself(st);
      section := PopStep(stopped, st, w);
      StepReaches(st, [], st, D.Pop(w));
      steps, end, threw := [] + [D.Pop(w)], D.Apply(st, D.Pop(w)), false;
      if section.Took? {
        ghost var middle := end;
        ghost var serving;
        threw, serving, end := ServeClient(section.socket, middle, w);
        RunsReach(st, steps, middle, serving, end);
        steps := steps + serving;
      }
    }

    /**
     A worker's loop, from any state in which it is about to pop: it serves what is queued, in order,
     whatever the callback throws, and then sleeps; or it exits if it was stopped or the queue closed.
     */
    method RunWorker(stopped: bool, ghost st: D.State, ghost w: nat)
      returns (served: seq<Socket>, failed: seq<Socket>, ghost run: seq<D.Event>, ghost end: D.State)
      requires D.Inv(st) && Shows(st) && Popping(st, w) && stopped == st.q.consumerStops[w]
      modifies limiter`inflightByIp, queue`sockets
      ensures Reaches(st, run, end) && D.Inv(end) && Shows(end)
      ensures served == old(queue.sockets) && queue.sockets == [] && failed == Failed(served, onClient)
      ensures if stopped || queue.closed then HasExited(end, w) else IsAsleep(end, w)
      ensures forall e :: e in run ==> OfWorker(e, w)
    {
      served, failed, run, end := [], [], [], st;
      ReachesItself(st);
      while true
        invariant Reaches(st, run, end) && D.Inv(end) && Shows(end)
        invariant Popping(end, w) && stopped == end.q.consumerStops[w]
        invariant forall e :: e in run ==> OfWorker(e, w)
        invariant served + queue.sockets == old(queue.sockets) && failed == Failed(served, onClient)
        decreases |queue.sockets|
      {
        ghost var middle := end;
        ghost var steps;
        var section, threw;
        section, threw, steps, end := ServeNext(stopped, middle, w);
        RunsReach(st, run, middle, steps, end);
        run := run + steps;
        if !section.Took? {
          return;
        }
        ConcatIsAssociative(served, [section.socket], queue.sockets);
        FailedOneMore(served, section.socket, onClient);
        served := served + [section.socket];
        if threw {
          failed := failed + [section.socket];
        }
      }
    }
  }
}
