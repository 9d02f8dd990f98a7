/** The two transfer queues of a connection: requests on their way to the target and responses on
    their way to the client. */
module Connections {
  import opened Text
  import opened Packet
  import opened Walks

  /** A packet in a queue, whether it is the proxy's own, and the callback for its response. */
  datatype Transfer = Transfer(pkt: Packet, internal: bool, next: Continuation)

  /** Both queues, the kinds of the request writes not yet completed (oldest first), the number of
      response writes not yet completed, and all packets written to either side. */
  datatype Queues = Queues(
    requests: seq<Transfer>,
    writes: seq<Kind>,
    responses: seq<Transfer>,
    responseWrites: nat,
    toTarget: seq<Packet>,
    toClient: seq<Packet>)

  const NO_QUEUES := Queues([], [], [], 0, [], [])

  predicate IsData(t: Transfer) {
    KindOf(t.pkt) == Dat
  }

  /** `start_write` on the requests channel: a break goes to the front. */
  function SendRequest(q: Queues, t: Transfer): Queues {
    q.(requests := if KindOf(t.pkt) == Break then [t] + q.requests else q.requests + [t],
       writes := q.writes + [KindOf(t.pkt)],
       toTarget := q.toTarget + [t.pkt])
  }

  /** `start_write` on the responses channel. */
  function SendResponse(q: Queues, t: Transfer): Queues {
    q.(responses := if KindOf(t.pkt) == Break then [t] + q.responses else q.responses + [t],
       responseWrites := q.responseWrites + 1,
       toClient := q.toClient + [t.pkt])
  }

  /** Completion of the oldest request write: a control packet leaves the queue. */
  function RequestWritten(q: Queues): Queues
    requires q.writes != [] && (q.writes[0] != Dat ==> q.requests != [])
  {
    q.(writes := q.writes[1..], requests := if q.writes[0] != Dat then q.requests[1..] else q.requests)
  }

  function ResponseWritten(q: Queues): Queues
    requires q.responseWrites > 0 && q.responses != []
  {
    q.(responseWrites := q.responseWrites - 1, responses := q.responses[1..])
  }

  /** The response to the oldest request has been handled. */
  function Answered(q: Queues): Queues
    requires q.requests != []
  {
    q.(requests := q.requests[1..])
  }

  /** The request writes not yet completed that are of control packets. */
  function ControlWrites(writes: seq<Kind>): nat {
    if writes == [] then 0 else (if writes[0] == Dat then 0 else 1) + ControlWrites(writes[1..])
  }

  lemma {:induction false} ControlWritesSnoc(writes: seq<Kind>, k: Kind)
    ensures ControlWrites(writes + [k]) == ControlWrites(writes) + if k == Dat then 0 else 1
  {
    if writes == [] {
      assert [] + [k] == [k];
      assert [k][1..] == [];
    } else {
      TailOfSum(writes, [k]);
      ControlWritesSnoc(writes[1..], k);
    }
  }

  // -------------------------------------------------------------- the object

  class Connection {
    var requests: seq<Transfer>
    var writes: seq<Kind>
    var responses: seq<Transfer>
    var responseWrites: nat
    var toTarget: seq<Packet>
    var toClient: seq<Packet>

    function Value(): Queues
      reads this
    {
      Queues(requests, writes, responses, responseWrites, toTarget, toClient)
    }

    constructor ()
      ensures Value() == NO_QUEUES
    {
      requests, writes, responses, responseWrites, toTarget, toClient := [], [], [], 0, [], [];
    }

    method StartRequestWrite(t: Transfer)
      modifies this
      ensures Value() == SendRequest(old(Value()), t)
    {
      var kind := KindOf(t.pkt);
      if kind == Break {
        requests := [t] + requests;
      } else {
        requests := requests + [t];
      }
      toTarget := toTarget + [t.pkt];
      writes := writes + [kind];
    }

    method StartResponseWrite(t: Transfer)
      modifies this
      ensures Value() == SendResponse(old(Value()), t)
    {
      if KindOf(t.pkt) == Break {
        responses := [t] + responses;
      } else {
        responses := responses + [t];
      }
      toClient := toClient + [t.pkt];
      responseWrites := responseWrites + 1;
    }

    /** Write completion. Data packets stay until their response has been handled. */
    method RequestWriteDone()
      requires writes != [] && (writes[0] != Dat ==> requests != [])
      modifies this
      ensures Value() == RequestWritten(old(Value()))
    {
      if writes[0] != Dat {
        requests := requests[1..];
      }
      writes := writes[1..];
    }

    method ResponseWriteDone()
      requires responseWrites > 0 && responses != []
      modifies this
      ensures Value() == ResponseWritten(old(Value()))
    {
      responses := responses[1..];
      responseWrites := responseWrites - 1;
    }

    method PushInternalRequest(pkt: Packet, next: Continuation)
      modifies this
      ensures Value() == SendRequest(old(Value()), Transfer(pkt, true, next))
    {
      StartRequestWrite(Transfer(pkt, true, next));
    }

    method PushRequest(pkt: Packet, next: Continuation)
      modifies this
      ensures Value() == SendRequest(old(Value()), Transfer(pkt, false, next))
    {
      StartRequestWrite(Transfer(pkt, false, next));
    }

    method PushInternalResponse(pkt: Packet)
      modifies this
      ensures Value() == SendResponse(old(Value()), Transfer(pkt, true, NoCallback))
    {
      StartResponseWrite(Transfer(pkt, true, NoCallback));
    }

    method PopRequest()
      requires requests != []
      modifies this
      ensures Value() == Answered(old(Value()))
    {
      requests := requests[1..];
    }
  }
}
