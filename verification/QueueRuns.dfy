/** The requests queue over whole runs: its shape, and what the shape is good for. */
module QueueRuns {
  import opened Text
  import opened Packet
  import opened Connections

  datatype Event = Send(t: Transfer) | Written | Response

  /** The queue with its history: every data request ever sent and how many have been answered. */
  datatype History = History(q: Queues, asked: seq<Transfer>, answered: nat)

  function Happen(h: History, e: Event): History
    requires Possible(h, e)
  {
    match e
    case Send(t) => History(SendRequest(h.q, t), if IsData(t) then h.asked + [t] else h.asked, h.answered)
    case Written => h.(q := RequestWritten(h.q))
    case Response => History(Answered(h.q), h.asked, h.answered + 1)
  }

  /** Acknowledgements are only sent while no data request waits; a response comes when something
      waits and no control packet is still being written. */
  predicate Possible(h: History, e: Event) {
    match e
    case Send(t) => IsData(t) || KindOf(t.pkt) == Break || h.answered == |h.asked|
    case Written => h.q.writes != [] && (h.q.writes[0] != Dat ==> h.q.requests != [])
    case Response => h.q.requests != [] && ControlWrites(h.q.writes) == 0
  }

  /** In front the control packets being written, then the unanswered data requests in order. */
  predicate Shaped(h: History) {
    var k := ControlWrites(h.q.writes);
    && h.answered <= |h.asked|
    && |h.q.requests| == k + |h.asked| - h.answered
    && (forall i :: 0 <= i < k ==> !IsData(h.q.requests[i]))
    && (forall i :: 0 <= i < |h.asked| ==> IsData(h.asked[i]))
    && h.q.requests[k..] == h.asked[h.answered..]
  }

  lemma SendShaped(h: History, t: Transfer)
    requires Shaped(h) && Possible(h, Send(t))
    ensures Shaped(Happen(h, Send(t)))
  {
    var k, q := ControlWrites(h.q.writes), h.q.requests;
    ControlWritesSnoc(h.q.writes, KindOf(t.pkt));
    if IsData(t) {
      assert (q + [t])[k..] == q[k..] + [t];
      assert (h.asked + [t])[h.answered..] == h.asked[h.answered..] + [t];
    } else if KindOf(t.pkt) == Break {
      assert ([t] + q)[k + 1..] == q[k..];
    } else {
      assert (q + [t])[k + 1..] == [];
    }
  }

  lemma EventKeepsShape(h: History, e: Event)
    requires Shaped(h) && Possible(h, e)
    ensures Shaped(Happen(h, e))
  {
    match e
    case Send(t) => SendShaped(h, t);
    case Written =>
    case Response =>
      assert h.q.requests == h.q.requests[0..];
  }

  predicate PossibleRun(h: History, events: seq<Event>)
    decreases |events|
  {
    events != [] ==> Possible(h, events[0]) && PossibleRun(Happen(h, events[0]), events[1..])
  }

  function Run(h: History, events: seq<Event>): History
    requires PossibleRun(h, events)
    decreases |events|
  {
    if events == [] then h else Run(Happen(h, events[0]), events[1..])
  }

  /** In every run the queue keeps its shape. */
  lemma {:induction false} RunKeepsShape(h: History, events: seq<Event>)
    requires Shaped(h) && PossibleRun(h, events)
    ensures Shaped(Run(h, events))
    decreases |events|
  {
    if events != [] {
      EventKeepsShape(h, events[0]);
      RunKeepsShape(Happen(h, events[0]), events[1..]);
    }
  }

  const NEW := History(NO_QUEUES, [], 0)

  /** So the n-th data response always finds the n-th data request at the front of the queue, even
      when requests were sent in between and breaks overtook them. */
  lemma {:induction false} ResponsesMatchRequests(events: seq<Event>)
    requires PossibleRun(NEW, events) && Possible(Run(NEW, events), Response)
    ensures var h := Run(NEW, events);
            h.answered < |h.asked| && h.q.requests[0] == h.asked[h.answered] && IsData(h.q.requests[0])
  {
    RunKeepsShape(NEW, events);
    var h := Run(NEW, events);
    assert h.q.requests[0..] == h.q.requests;
    assert h.asked[h.answered..][0] == h.asked[h.answered];
  }

  /** The packets of the send events. */
  function SentIn(events: seq<Event>): seq<Packet> {
    if events == [] then []
    else (match events[0] case Send(t) => [t.pkt] case _ => []) + SentIn(events[1..])
  }

  /** Each packet sent is written once, as it is, in order; nothing else is. */
  lemma {:induction false} WrittenAsSent(h: History, events: seq<Event>)
    requires PossibleRun(h, events)
    ensures Run(h, events).q.toTarget == h.q.toTarget + SentIn(events)
    decreases |events|
  {
    if events == [] {
      Empty(h.q.toTarget);
    } else {
      WrittenAsSent(Happen(h, events[0]), events[1..]);
      match events[0]
      case Send(t) => Assoc(h.q.toTarget, [t.pkt], SentIn(events[1..]));
      case Written => Empty(SentIn(events[1..]));
      case Response => Empty(SentIn(events[1..]));
    }
  }

  // ------------------------------------------------------ late acknowledgements

  /** All pending request writes complete, oldest first. */
  function AllWritten(q: Queues): Queues
    requires ControlWrites(q.writes) <= |q.requests|
    decreases |q.writes|
  {
    if q.writes == [] then q else AllWritten(RequestWritten(q))
  }

  lemma {:induction false} AllWrittenMeaning(q: Queues)
    requires ControlWrites(q.writes) <= |q.requests|
    ensures AllWritten(q) == q.(writes := [], requests := q.requests[ControlWrites(q.writes)..])
    decreases |q.writes|
  {
    if q.writes != [] {
      AllWrittenMeaning(RequestWritten(q));
      if q.writes[0] != Dat {
        assert q.requests[1..][ControlWrites(q.writes[1..])..] == q.requests[ControlWrites(q.writes)..];
      }
    }
  }

  /** What is left of the queue when a control packet that goes to the back, such as an acknowledgement,
      is sent and all writes complete: the first waiting request is gone and the packet is in its place
      at the end; with no request waiting it is the packet itself that leaves. */
  lemma {:induction false} LateControl(h: History, t: Transfer)
    requires Shaped(h) && !IsData(t) && KindOf(t.pkt) != Break
    ensures var q := SendRequest(h.q, t);
            && ControlWrites(q.writes) <= |q.requests|
            && AllWritten(q).requests == (h.asked[h.answered..] + [t])[1..]
  {
    var q, k := SendRequest(h.q, t), ControlWrites(h.q.writes);
    ControlWritesSnoc(h.q.writes, KindOf(t.pkt));
    AllWrittenMeaning(q);
    DropSum(h.q.requests[..k], h.asked[h.answered..] + [t], 1);
    assert h.q.requests == h.q.requests[..k] + h.asked[h.answered..];
    Assoc(h.q.requests[..k], h.asked[h.answered..], [t]);
  }

  /** The rule for acknowledgements is needed, and it is exact: after one is sent and written, the queue
      still holds the unanswered requests if and only if there were none. */
  lemma {:induction false} AckLosesRequestIff(h: History, ack: Transfer)
    requires Shaped(h) && !IsData(ack) && KindOf(ack.pkt) != Break
    ensures var q := SendRequest(h.q, ack);
            && ControlWrites(q.writes) <= |q.requests|
            && (Shaped(History(AllWritten(q), h.asked, h.answered)) <==> h.answered == |h.asked|)
  {
    LateControl(h, ack);
    var q := SendRequest(h.q, ack);
    AllWrittenMeaning(q);
    var left := AllWritten(q).requests;
    if h.answered < |h.asked| {
      assert left[|left| - 1] == ack;
      assert left[0..] == left;
      assert h.asked[h.answered..][|left| - 1] == h.asked[|h.asked| - 1];
    } else {
      assert left == [];
    }
  }

  /** A witness: one request, one acknowledgement too early. */
  lemma LateAckLosesRequest(request: Transfer, ack: Transfer)
    requires IsData(request) && KindOf(ack.pkt) == Ack
    ensures var q := RequestWritten(SendRequest(RequestWritten(SendRequest(NO_QUEUES, request)), ack));
            q.requests == [ack] && q.writes == []
  {
    assert ([request] + [ack])[1..] == [ack];
  }
}
