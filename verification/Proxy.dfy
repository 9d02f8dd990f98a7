/** The connection's packet handlers over the queue and target objects. */
module Proxies {
  import opened Packet
  import opened Walks
  import opened SymbolTable
  import opened Connections
  import opened TargetModel
  import opened Targets
  import opened Sessions

  class Proxy {
    const conn: Connection
    const target: TargetMbFreertos
    var seqNo: nat
    var ackMode: bool

    ghost predicate Linked()
      reads this
    {
      target.conn == conn
    }

    function Value(): Session
      reads this, conn, target
    {
      Session(conn.Value(), target.Value(), seqNo, ackMode)
    }

    constructor ()
      ensures Linked() && Value() == NEW_SESSION
      ensures fresh(conn) && fresh(target)
    {
      var c := new Connection();
      conn := c;
      target := new TargetMbFreertos(c);
      seqNo, ackMode := 0, true;
    }

    /** Counts data requests and lets the target handle them. */
    method OnRequest(pkt: Packet) returns (handled: bool)
      requires Linked() && Readable(pkt) && Consistent(Value().t.negotiation)
      modifies this, conn, target
      ensures Linked()
      ensures handled ==> Value() == Sessions.OnRequest(old(Value()), pkt)
      ensures !handled ==> Value().(q := SendRequest(Value().q, Transfer(pkt, false, NoCallback)))
                           == Sessions.OnRequest(old(Value()), pkt)
    {
      if KindOf(pkt) == Dat {
        seqNo := seqNo + 1;
        handled := target.ProcessRequest(pkt);
      } else {
        handled := false;
      }
    }

    /** Handles a response: callback, then the request leaves the queue. The request's ownership flag
        is read before that. */
    method OnResponse(pkt: Packet) returns (handled: bool)
      requires Linked() && conn.requests != []
      requires KindOf(pkt) == Dat ==>
        Acceptable(target.Value(), conn.requests[0].next, pkt) && CallbackInBuffer(conn.requests[0].next, pkt)
      modifies this, conn, target
      ensures Linked()
      ensures handled ==> Value() == Sessions.OnResponse(old(Value()), pkt)
      ensures !handled ==> Value().(q := SendResponse(Value().q, Transfer(pkt, false, NoCallback)))
                           == Sessions.OnResponse(old(Value()), pkt)
    {
      var req := conn.requests[0];
      if KindOf(pkt) == Dat {
        if EndsAcks(req.pkt, pkt) {
          ackMode := false;
        }
        Respond(req.next, pkt);
        conn.PopRequest();
        return req.internal;
      } else if KindOf(pkt) == Ack {
        return req.internal;
      }
      return false;
    }

    /** Runs the callback, if the request has one. */
    method Respond(next: Continuation, pkt: Packet)
      requires Linked() && Acceptable(target.Value(), next, pkt) && CallbackInBuffer(next, pkt)
      modifies conn, target
      ensures target.Value() == Callback(old(target.Value()), next, pkt).target
      ensures conn.Value() == SendAll(old(conn.Value()), Callback(old(target.Value()), next, pkt).outputs)
    {
      if next != NoCallback {
        target.RunCallback(next, pkt);
      }
    }

    /** What a channel does with a complete packet: its handler, or on to the other side. */
    method ClientPacket(pkt: Packet)
      requires Linked() && Readable(pkt) && Consistent(Value().t.negotiation)
      modifies this, conn, target
      ensures Linked() && Value() == Sessions.OnRequest(old(Value()), pkt)
    {
      var handled := OnRequest(pkt);
      if !handled {
        conn.StartRequestWrite(Transfer(pkt, false, NoCallback));
      }
    }

    method TargetPacket(pkt: Packet)
      requires Linked() && conn.requests != []
      requires KindOf(pkt) == Dat ==>
        Acceptable(target.Value(), conn.requests[0].next, pkt) && CallbackInBuffer(conn.requests[0].next, pkt)
      modifies this, conn, target
      ensures Linked() && Value() == Sessions.OnResponse(old(Value()), pkt)
    {
      var handled := OnResponse(pkt);
      if !handled {
        conn.StartResponseWrite(Transfer(pkt, false, NoCallback));
      }
    }

    /** One event of the connection. */
    method Handle(e: Event)
      requires Linked() && Good(Value()) && Possible(Value(), e) && InBounds(Value(), e)
      modifies this, conn, target
      ensures Linked() && Value() == Happen(old(Value()), e)
    {
      match e {
        case FromClient(pkt) => ClientPacket(pkt);
        case FromTarget(pkt) =>
          if KindOf(pkt) == Dat {
            TargetDataGood(Value(), pkt);
          }
          TargetPacket(pkt);
        case RequestDone => conn.RequestWriteDone();
        case ResponseDone => conn.ResponseWriteDone();
      }
    }

    /** The events of a whole run, as the event loop delivers them: nothing that a run can bring is
        refused, and the objects end in the state that the run specifies. */
    method HandleAll(events: seq<Event>)
      requires Linked() && Good(Value()) && PossibleRun(Value(), events) && AllInBounds(Value(), events)
      modifies this, conn, target
      ensures Linked() && Value() == Run(old(Value()), events)
    {
      var i := 0;
      assert events[0..] == events;
      while i < |events|
        invariant 0 <= i <= |events| && Linked() && Good(Value())
        invariant PossibleRun(Value(), events[i..]) && AllInBounds(Value(), events[i..])
        invariant Run(Value(), events[i..]) == Run(old(Value()), events)
      {
        assert events[i..][0] == events[i] && events[i..][1..] == events[i + 1..];
        EventKeepsGood(Value(), events[i]);
        Handle(events[i]);
        i := i + 1;
      }
    }
  }

  /** A reply with a stack pointer is below 2^60: the next request would overrun its buffer otherwise. */
  predicate InBounds(s: Session, e: Event)
    requires Good(s) && Possible(s, e)
  {
    e.FromTarget? && KindOf(e.pkt) == Dat ==> CallbackInBuffer(s.q.requests[0].next, e.pkt)
  }

  predicate AllInBounds(s: Session, events: seq<Event>)
    requires Good(s) && PossibleRun(s, events)
    decreases |events|
  {
    events == [] ||
    (InBounds(s, events[0]) && (EventKeepsGood(s, events[0]); AllInBounds(Happen(s, events[0]), events[1..])))
  }

  /** Replies to stack pointer reads carry no more than the four bytes asked for. */
  predicate AsShortAsAsked(s: Session, events: seq<Event>)
    requires Good(s) && PossibleRun(s, events)
    decreases |events|
  {
    events == [] ||
    (&& (events[0].FromTarget? && KindOf(events[0].pkt) == Dat && s.q.requests[0].next == StackPtr ==>
           |DataOf(events[0].pkt)| <= 8)
     && (EventKeepsGood(s, events[0]); AsShortAsAsked(Happen(s, events[0]), events[1..])))
  }

  /** In such runs every request that is printed stays inside its buffer. */
  lemma {:induction false} ShortRepliesInBounds(s: Session, events: seq<Event>)
    requires Good(s) && PossibleRun(s, events) && AsShortAsAsked(s, events)
    ensures AllInBounds(s, events)
    decreases |events|
  {
    if events != [] {
      var e := events[0];
      EventKeepsGood(s, e);
      if e.FromTarget? && KindOf(e.pkt) == Dat {
        CallbackInBufferIff(s.q.requests[0].next, e.pkt);
      }
      ShortRepliesInBounds(Happen(s, e), events[1..]);
    }
  }
}
