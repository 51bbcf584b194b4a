/** The reply a request handler and everything it started share: messages are held in a
    queue until the handler flushes it, and the handler's own answer can be put in front.
    Here each call runs alone; module RequestRuns interleaves them. */
module QueuedReply {

  class QueuedServerReply<T> {
    var hold: bool
    var queue: seq<T>
    /** What the connection has taken. */
    var sent: seq<T>
    /** The connection closes after taking this many messages. */
    const lifetime: nat

    ghost predicate Valid()
      reads this
    {
      |sent| <= lifetime
    }

    /** How many more messages the connection takes. */
    ghost function Room(): nat
      requires Valid()
      reads this
    {
      lifetime - |sent|
    }

    constructor (lifetime: nat)
      ensures Valid() && this.lifetime == lifetime
      ensures hold && queue == [] && sent == []
    {
      this.lifetime := lifetime;
      hold, queue, sent := true, [], [];
    }

    /** The send of the connection beneath. */
    method Deliver(data: T) returns (ok: bool)
      requires Valid()
      modifies `sent
      ensures Valid()
      ensures ok == (old(Room()) > 0)
      ensures sent == if ok then old(sent) + [data] else old(sent)
    {
      ok := |sent| < lifetime;
      if ok {
        sent := sent + [data];
      }
    }

    method Send(data: T) returns (ok: bool)
      requires Valid()
      modifies `queue, `sent
      ensures Valid()
      ensures ok == (hold || old(Room()) > 0)
      ensures queue == if hold then old(queue) + [data] else old(queue)
      ensures sent == if !hold && ok then old(sent) + [data] else old(sent)
    {
      if hold {
        queue := queue + [data];
        ok := true;
      } else {
        ok := Deliver(data);
      }
    }

    method SendBefore(data: T) returns (ok: bool)
      requires Valid()
      modifies `queue, `sent
      ensures Valid()
      ensures ok == (hold || old(Room()) > 0)
      ensures queue == if hold then [data] + old(queue) else old(queue)
      ensures sent == if !hold && ok then old(sent) + [data] else old(sent)
    {
      if hold {
        queue := [data] + queue;
        ok := true;
      } else {
        ok := Deliver(data);
      }
    }

    /** Sends the queue's messages in order. If the connection closes on the way, the rest
        is dropped and the queue goes on holding. */
    method Flush(holdAfter: bool) returns (ok: bool)
      requires Valid()
      modifies this
      ensures Valid() && queue == []
      ensures ok == (old(|queue| <= Room()))
      ensures sent == old(sent) + old(if |queue| <= Room() then queue else queue[..Room()])
      ensures hold == if ok then holdAfter else old(hold)
    {
      var pending := queue;
      queue := [];
      var i := 0;
      while i < |pending|
        invariant 0 <= i <= |pending| && Valid()
        invariant i <= old(Room()) && sent == old(sent) + pending[..i]
        invariant queue == [] && hold == old(hold)
      {
        ok := Deliver(pending[i]);
        if !ok {
          return;
        }
        i := i + 1;
      }
      hold := holdAfter;
      ok := true;
    }
  }

  /** How a request handler ends: its answer goes in front of all that was held, and what
      is sent from now on follows directly. If the connection closes on the way, what it
      took is a prefix of that. */
  method AnswerRequest<T>(reply: QueuedServerReply<T>, response: T)
    requires reply.Valid() && reply.hold && reply.sent == []
    modifies reply
    ensures reply.Valid() && reply.queue == []
    ensures reply.sent <= [response] + old(reply.queue)
    ensures reply.lifetime > old(|reply.queue|) ==> reply.sent == [response] + old(reply.queue) && !reply.hold
    ensures reply.lifetime <= old(|reply.queue|) ==> |reply.sent| == reply.lifetime && reply.hold
  {
    var _ := reply.SendBefore(response);
    var _ := reply.Flush(false);
  }
}
