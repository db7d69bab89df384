/**
 * The hub as an object, one call at a time (gateway/internal/hub/hub.go). HubProtocol shows what
 * remains true when the calls interleave.
 */
module Hub {
  import opened Bytes
  import opened HubProtocol

  datatype AddError = HubClosed | TooManyClients

  class Subscriber {
    const cap: nat
    var queue: seq<seq<Byte>>
    var done: bool
    var dropped: nat

    constructor (cap: nat)
      ensures this.cap == cap && queue == [] && !done && dropped == 0
    {
      this.cap := cap;
      queue, done, dropped := [], false, 0;
    }

    /** The sequential effect of a send. */
    method Send1(msg: seq<Byte>)
      requires 1 <= cap && |queue| <= cap
      modifies this`queue, this`dropped
      ensures queue == if done then old(queue) else Offer(old(queue), cap, msg)
      ensures dropped == old(dropped) + if !done && |old(queue)| == cap then 1 else 0
      ensures |queue| <= cap
    {
      if done {
        return;
      }
      if |queue| < cap {
        queue := queue + [msg];
        return;
      }
      if queue != [] {
        queue := queue[1..];
      }
      if |queue| < cap {
        queue := queue + [msg];
      }
      dropped := dropped + 1;
    }

    method Receive() returns (msg: seq<Byte>)
      requires queue != []
      modifies this`queue
      ensures [msg] + queue == old(queue)
    {
      msg := queue[0];
      queue := queue[1..];
    }

    /** Closing twice is closing once. */
    method CloseDone()
      modifies this`done
      ensures done
    {
      if !done {
        done := true;
      }
    }
  }

  class Fanout {
    var maxClients: nat
    var bufferLen: nat
    var clients: set<Subscriber>
    var closed: bool

    ghost predicate Valid()
      reads this, clients
    {
      && 1 <= maxClients && 1 <= bufferLen
      && (closed ==> clients == {})
      && forall c :: c in clients ==> !c.done && 1 <= c.cap && |c.queue| <= c.cap
    }

    constructor (maxClients: int, bufferLen: int)
      ensures Valid() && clients == {} && !closed
      ensures this.maxClients == (if maxClients <= 0 then DEFAULT_MAX_CLIENTS else maxClients)
      ensures this.bufferLen == (if bufferLen <= 0 then DEFAULT_CLIENT_BUFFER_LEN else bufferLen)
    {
      this.maxClients := if maxClients <= 0 then DEFAULT_MAX_CLIENTS else maxClients;
      this.bufferLen := if bufferLen <= 0 then DEFAULT_CLIENT_BUFFER_LEN else bufferLen;
      clients, closed := {}, false;
    }

    method Add() returns (c: Subscriber?, err: Option<AddError>)
      requires Valid()
      modifies this`clients
      ensures Valid()
      ensures err == (if closed then Some(HubClosed)
                      else if |old(clients)| >= maxClients then Some(TooManyClients) else None)
      ensures err.Some? ==> c == null && clients == old(clients)
      ensures err.None? ==> c != null && fresh(c) && c.cap == bufferLen && c.queue == [] && !c.done && c.dropped == 0
                            && clients == old(clients) + {c} && |clients| <= maxClients
    {
      c, err := null, None;
      if closed {
        return null, Some(HubClosed);
      }
      if |clients| >= maxClients {
        return null, Some(TooManyClients);
      }
      var s := new Subscriber(bufferLen);
      c := s;
      clients := clients + {s};
    }

    method Remove(c: Subscriber)
      requires Valid()
      modifies this`clients, c`done
      ensures Valid() && clients == old(clients) - {c} && c.done
    {
      clients := clients - {c};
      c.CloseDone();
    }

    /** Every registered client is offered the message; no other object changes. */
    method Broadcast(msg: seq<Byte>)
      requires Valid()
      modifies clients
      ensures Valid()
      ensures forall c :: c in clients ==>
                c.queue == Offer(old(c.queue), c.cap, msg)
                && c.dropped == old(c.dropped) + (if |old(c.queue)| == c.cap then 1 else 0)
    {
      var todo := clients;
      while todo != {}
        invariant todo <= clients
        invariant forall c :: c in clients ==> !c.done && 1 <= c.cap && |c.queue| <= c.cap
        invariant forall c :: c in todo ==> c.queue == old(c.queue) && c.dropped == old(c.dropped)
        invariant forall c :: c in clients - todo ==>
                    c.queue == Offer(old(c.queue), c.cap, msg)
                    && c.dropped == old(c.dropped) + (if |old(c.queue)| == c.cap then 1 else 0)
        decreases |todo|
      {
        var c :| c in todo;
        c.Send1(msg);
        todo := todo - {c};
      }
    }

    method Count() returns (n: nat)
      ensures n == |clients|
    {
      n := |clients|;
    }

    /** New limits leave the registered clients and their queues alone. */
    method SetLimits(maxClients: int, bufferLen: int)
      requires Valid()
      modifies this`maxClients, this`bufferLen
      ensures Valid()
      ensures this.maxClients == (if maxClients <= 0 then DEFAULT_MAX_CLIENTS else maxClients)
      ensures this.bufferLen == (if bufferLen <= 0 then DEFAULT_CLIENT_BUFFER_LEN else bufferLen)
    {
      this.maxClients := if maxClients <= 0 then DEFAULT_MAX_CLIENTS else maxClients;
      this.bufferLen := if bufferLen <= 0 then DEFAULT_CLIENT_BUFFER_LEN else bufferLen;
    }

    method Close()
      requires Valid()
      modifies this`closed, this`clients, clients
      ensures Valid() && closed && clients == {}
      ensures forall c :: c in old(clients) ==> c.done && c.queue == old(c.queue) && c.dropped == old(c.dropped)
    {
      if closed {
        return;
      }
      closed := true;
      var todo := clients;
      clients := {};
      while todo != {}
        invariant todo <= old(clients)
        invariant closed && clients == {} && 1 <= maxClients && 1 <= bufferLen
        invariant forall c :: c in old(clients) ==> c.queue == old(c.queue) && c.dropped == old(c.dropped)
        invariant forall c :: c in old(clients) - todo ==> c.done
        decreases |todo|
      {
        var c :| c in todo;
        c.CloseDone();
        todo := todo - {c};
      }
    }
  }
}
