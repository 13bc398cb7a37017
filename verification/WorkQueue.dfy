/**
 The bounded accepted-socket queue, one method per critical section.

 Blocking `push` and `pop` hold the mutex only between two waits. Each such stretch is
 one method here: it decides from the protected fields whether the call finishes or has to wait.
 The waits and the notifications, which happen outside these stretches, are in QueueProtocol.
 */
module WorkQueues {
  import opened Wrappers

  /** An accepted connection: its order of acceptance and the peer address it carries. */
  datatype Socket = Socket(id: nat, address: string)

  datatype PushResult = Queued | Full | Closed

  datatype PushSection = Finished(result: PushResult) | PushWaits

  datatype PopSection = Took(socket: Socket) | Nothing | PopWaits

  function TryPushOutcome(length: nat, capacity: nat, closed: bool): PushResult {
    if closed || length >= capacity then (if closed then Closed else Full) else Queued
  }

  /** What a blocking push does once it holds the lock. */
  function PushOutcome(length: nat, capacity: nat, closed: bool, stopped: bool): PushSection {
    var ready := closed || length < capacity;
    if !ready then (if stopped then Finished(Closed) else PushWaits)
    else if closed then Finished(Closed)
    else Finished(Queued)
  }

  /** What a pop does once it holds the lock. */
  function PopOutcome(sockets: seq<Socket>, closed: bool, stopped: bool): PopSection {
    var ready := closed || sockets != [];
    if !ready then (if stopped then Nothing else PopWaits)
    else if sockets == [] then Nothing
    else Took(sockets[0])
  }

  class WorkQueue {
    const capacity: nat
    var sockets: seq<Socket>
    var closed: bool

    ghost predicate Valid()
      reads this
    {
      0 < capacity && |sockets| <= capacity
    }

    constructor (capacity: nat)
      requires capacity > 0
      ensures Valid() && this.capacity == capacity && sockets == [] && !closed
    {
      this.capacity := capacity;
      this.sockets := [];
      this.closed := false;
    }

    /** The source's constructor throws on a zero capacity. */
    static method Create(capacity: nat) returns (queue: Option<WorkQueue>)
      ensures queue.None? <==> capacity == 0
      ensures queue.Some? ==>
                && fresh(queue.value) && queue.value.Valid() && queue.value.capacity == capacity
                && queue.value.sockets == [] && !queue.value.closed
    {
      if capacity == 0 {
        return None;
      }
      var q := new WorkQueue(capacity);
      return Some(q);
    }

    method TryPush(socket: Socket) returns (result: PushResult)
      requires Valid()
      modifies this`sockets
      ensures Valid()
      ensures result == TryPushOutcome(|old(sockets)|, capacity, closed)
      ensures result.Queued? <==> !closed && |old(sockets)| < capacity
      ensures result.Closed? <==> closed
      ensures sockets == if result.Queued? then old(sockets) + [socket] else old(sockets)
    {
      if closed || |sockets| >= capacity {
        return if closed then Closed else Full;
      }
      sockets := sockets + [socket];
      return Queued;
    }

    method PushWhileLocked(socket: Socket, stopped: bool) returns (section: PushSection)
      requires Valid()
      modifies this`sockets
      ensures Valid()
      ensures section == PushOutcome(|old(sockets)|, capacity, closed, stopped)
      ensures section == Finished(Queued) <==> !closed && |old(sockets)| < capacity
      ensures section == PushWaits <==> !closed && !stopped && |old(sockets)| == capacity
      ensures section == Finished(Closed) <==> closed || (stopped && |old(sockets)| == capacity)
      ensures sockets == if section == Finished(Queued) then old(sockets) + [socket] else old(sockets)
    {
      var ready := closed || |sockets| < capacity;
      if !ready {
        return if stopped then Finished(Closed) else PushWaits;
      }
      if closed {
        return Finished(Closed);
      }
      sockets := sockets + [socket];
      return Finished(Queued);
    }

    method PopWhileLocked(stopped: bool) returns (section: PopSection)
      requires Valid()
      modifies this`sockets
      ensures Valid()
      ensures section == PopOutcome(old(sockets), closed, stopped)
      ensures section.Took? <==> old(sockets) != []
      ensures section == PopWaits <==> old(sockets) == [] && !closed && !stopped
      ensures old(sockets) == (if section.Took? then [section.socket] else []) + sockets
    {
      var ready := closed || sockets != [];
      if !ready {
        return if stopped then Nothing else PopWaits;
      }
      if sockets == [] {
        return Nothing;
      }
      section := Took(sockets[0]);
      sockets := sockets[1..];
    }

    method Close()
      requires Valid()
      modifies this`closed
      ensures Valid() && closed
    {
      closed := true;
    }
  }
}
