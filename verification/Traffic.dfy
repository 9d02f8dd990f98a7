/** Everything that a session writes to either side, over whole runs: who it comes from, and in which order. */
module Traffic {
  import opened Text
  import opened Packet
  import opened Walks
  import opened Connections
  import opened TargetModel
  import opened Targets
  import opened Sessions

  /** A packet written to one side, passed on from the other side or made by the proxy. */
  datatype Written = Passed(pkt: Packet) | Own(pkt: Packet)

  function Packets(log: seq<Written>): seq<Packet> {
    if log == [] then [] else [log[0].pkt] + Packets(log[1..])
  }

  function PassedOf(log: seq<Written>): seq<Packet> {
    if log == [] then [] else (if log[0].Passed? then [log[0].pkt] else []) + PassedOf(log[1..])
  }

  lemma {:induction false} PacketsAppend(a: seq<Written>, b: seq<Written>)
    ensures Packets(a + b) == Packets(a) + Packets(b)
    decreases |a|
  {
    if a == [] {
      Empty(b);
      Empty(Packets(b));
    } else {
      TailOfSum(a, b);
      PacketsAppend(a[1..], b);
      Assoc([a[0].pkt], Packets(a[1..]), Packets(b));
    }
  }

  lemma {:induction false} PassedAppend(a: seq<Written>, b: seq<Written>)
    ensures PassedOf(a + b) == PassedOf(a) + PassedOf(b)
    decreases |a|
  {
    if a == [] {
      Empty(b);
      Empty(PassedOf(b));
    } else {
      TailOfSum(a, b);
      PassedAppend(a[1..], b);
      Assoc(if a[0].Passed? then [a[0].pkt] else [], PassedOf(a[1..]), PassedOf(b));
    }
  }

  /** The proxy's own packets among the outputs, to the target and to the client. */
  function Asked(outputs: seq<Output>): seq<Written> {
    if outputs == [] then []
    else (if outputs[0].ToTarget? then [Own(outputs[0].t.pkt)] else []) + Asked(outputs[1..])
  }

  function Told(outputs: seq<Output>): seq<Written> {
    if outputs == [] then []
    else (if outputs[0].ToClient? then [Own(outputs[0].pkt)] else []) + Told(outputs[1..])
  }

  lemma {:induction false} OutputsWritten(q: Queues, outputs: seq<Output>)
    ensures SendAll(q, outputs).toTarget == q.toTarget + Packets(Asked(outputs))
    ensures SendAll(q, outputs).toClient == q.toClient + Packets(Told(outputs))
    decreases |outputs|
  {
    if outputs == [] {
      Empty(q.toTarget);
      Empty(q.toClient);
    } else {
      var r := SendOne(q, outputs[0]);
      OutputsWritten(r, outputs[1..]);
      OneWritten(q, outputs[0]);
      var a, b := Asked(outputs[1..]), Told(outputs[1..]);
      Assoc(q.toTarget, Packets(Asked([outputs[0]])), Packets(a));
      Assoc(q.toClient, Packets(Told([outputs[0]])), Packets(b));
      PacketsAppend(Asked([outputs[0]]), a);
      PacketsAppend(Told([outputs[0]]), b);
    }
  }

  lemma {:induction false} OneWritten(q: Queues, o: Output)
    ensures SendOne(q, o).toTarget == q.toTarget + Packets(Asked([o]))
    ensures SendOne(q, o).toClient == q.toClient + Packets(Told([o]))
    ensures Asked([o]) == (if o.ToTarget? then [Own(o.t.pkt)] else [])
    ensures Told([o]) == (if o.ToClient? then [Own(o.pkt)] else [])
  {
    assert [o][1..] == [];
    Empty(q.toTarget);
    Empty(q.toClient);
  }

  // ---------------------------------------------------------------- to the target

  /** What an event makes the session write to the target: the client's packet as it is, unless the target
      object takes a data packet; and the requests of the proxy. */
  function ToTargetBy(s: Session, e: Event): seq<Written>
    requires Good(s) && Possible(s, e)
  {
    match e
    case FromClient(pkt) =>
      if KindOf(pkt) == Dat && ProcessRequest(s.t, pkt).handled then Asked(ProcessRequest(s.t, pkt).outputs)
      else [Passed(pkt)]
    case FromTarget(pkt) =>
      if KindOf(pkt) == Dat
      then TargetDataGood(s, pkt); Asked(Callback(s.t, s.q.requests[0].next, pkt).outputs)
      else []
    case RequestDone => []
    case ResponseDone => []
  }

  /** And to the client: what the target object makes; responses to the client's own requests; and every
      control packet of the target, except acknowledgements of the proxy's requests. */
  function ToClientBy(s: Session, e: Event): seq<Written>
    requires Good(s) && Possible(s, e)
  {
    match e
    case FromClient(pkt) => if KindOf(pkt) == Dat then Told(ProcessRequest(s.t, pkt).outputs) else []
    case FromTarget(pkt) =>
      if KindOf(pkt) == Dat then
        TargetDataGood(s, pkt);
        Told(Callback(s.t, s.q.requests[0].next, pkt).outputs)
        + if s.q.requests[0].internal then [] else [Passed(pkt)]
      else if KindOf(pkt) == Ack && s.q.requests[0].internal then [] else [Passed(pkt)]
    case RequestDone => []
    case ResponseDone => []
  }

  lemma {:induction false} RequestWrites(s: Session, pkt: Packet)
    requires Good(s) && Possible(s, FromClient(pkt))
    ensures OnRequest(s, pkt).q.toTarget == s.q.toTarget + Packets(ToTargetBy(s, FromClient(pkt)))
    ensures OnRequest(s, pkt).q.toClient == s.q.toClient + Packets(ToClientBy(s, FromClient(pkt)))
  {
    OnePacket(Passed(pkt));
    Empty(s.q.toClient);
    if KindOf(pkt) == Dat {
      RequestHasOneEffect(s.t, pkt);
      OutputsWritten(s.q, ProcessRequest(s.t, pkt).outputs);
      Empty(s.q.toTarget);
    }
  }

  lemma {:induction false} OnePacket(w: Written)
    ensures Packets([w]) == [w.pkt]
  {
    assert [w][1..] == [];
  }

  lemma {:induction false} ResponseWrites(s: Session, pkt: Packet)
    requires Good(s) && Possible(s, FromTarget(pkt))
    ensures KindOf(pkt) == Dat ==> Acceptable(s.t, s.q.requests[0].next, pkt)
    ensures OnResponse(s, pkt).q.toTarget == s.q.toTarget + Packets(ToTargetBy(s, FromTarget(pkt)))
    ensures OnResponse(s, pkt).q.toClient == s.q.toClient + Packets(ToClientBy(s, FromTarget(pkt)))
  {
    OnePacket(Passed(pkt));
    Empty(s.q.toTarget);
    Empty(s.q.toClient);
    if KindOf(pkt) == Dat {
      TargetDataGood(s, pkt);
      var e := Callback(s.t, s.q.requests[0].next, pkt);
      OutputsWritten(s.q, e.outputs);
      PacketsAppend(Told(e.outputs), if s.q.requests[0].internal then [] else [Passed(pkt)]);
      Assoc(s.q.toClient, Packets(Told(e.outputs)), [pkt]);
      Empty(Packets(Told(e.outputs)));
    }
  }

  lemma {:induction false} EventWrites(s: Session, e: Event)
    requires Good(s) && Possible(s, e)
    ensures Happen(s, e).q.toTarget == s.q.toTarget + Packets(ToTargetBy(s, e))
    ensures Happen(s, e).q.toClient == s.q.toClient + Packets(ToClientBy(s, e))
  {
    match e
    case FromClient(pkt) => RequestWrites(s, pkt);
    case FromTarget(pkt) => ResponseWrites(s, pkt);
    case RequestDone => Empty(s.q.toTarget); Empty(s.q.toClient);
    case ResponseDone => Empty(s.q.toTarget); Empty(s.q.toClient);
  }

  // ----------------------------------------------------------------- whole runs

  function ToTargetLog(s: Session, events: seq<Event>): seq<Written>
    requires Good(s) && PossibleRun(s, events)
    decreases |events|
  {
    if events == [] then []
    else
      EventKeepsGood(s, events[0]);
      ToTargetBy(s, events[0]) + ToTargetLog(Happen(s, events[0]), events[1..])
  }

  function ToClientLog(s: Session, events: seq<Event>): seq<Written>
    requires Good(s) && PossibleRun(s, events)
    decreases |events|
  {
    if events == [] then []
    else
      EventKeepsGood(s, events[0]);
      ToClientBy(s, events[0]) + ToClientLog(Happen(s, events[0]), events[1..])
  }

  /** In every run exactly these packets are written to each side, in this order. */
  lemma {:induction false} RunWrites(s: Session, events: seq<Event>)
    requires Good(s) && PossibleRun(s, events)
    ensures Run(s, events).q.toTarget == s.q.toTarget + Packets(ToTargetLog(s, events))
    ensures Run(s, events).q.toClient == s.q.toClient + Packets(ToClientLog(s, events))
    decreases |events|
  {
    if events == [] {
      Empty(s.q.toTarget);
      Empty(s.q.toClient);
    } else {
      var e := events[0];
      EventKeepsGood(s, e);
      EventWrites(s, e);
      var s' := Happen(s, e);
      RunWrites(s', events[1..]);
      PacketsAppend(ToTargetBy(s, e), ToTargetLog(s', events[1..]));
      PacketsAppend(ToClientBy(s, e), ToClientLog(s', events[1..]));
      Assoc(s.q.toTarget, Packets(ToTargetBy(s, e)), Packets(ToTargetLog(s', events[1..])));
      Assoc(s.q.toClient, Packets(ToClientBy(s, e)), Packets(ToClientLog(s', events[1..])));
    }
  }

  /** The client's packets that the target object does not take, in order of arrival. */
  function NotTaken(s: Session, events: seq<Event>): seq<Packet>
    requires Good(s) && PossibleRun(s, events)
    decreases |events|
  {
    if events == [] then []
    else
      EventKeepsGood(s, events[0]);
      (match events[0]
       case FromClient(pkt) => if KindOf(pkt) == Dat && ProcessRequest(s.t, pkt).handled then [] else [pkt]
       case _ => []) + NotTaken(Happen(s, events[0]), events[1..])
  }

  lemma {:induction false} OwnOnly(outputs: seq<Output>)
    ensures PassedOf(Asked(outputs)) == []
  {
    if outputs != [] {
      OwnOnly(outputs[1..]);
      var first := if outputs[0].ToTarget? then [Own(outputs[0].t.pkt)] else [];
      PassedAppend(first, Asked(outputs[1..]));
      assert outputs[0].ToTarget? ==> first[1..] == [];
    }
  }

  lemma {:induction false} EventPasses(s: Session, e: Event)
    requires Good(s) && Possible(s, e)
    ensures PassedOf(ToTargetBy(s, e))
            == match e
               case FromClient(pkt) => if KindOf(pkt) == Dat && ProcessRequest(s.t, pkt).handled then [] else [pkt]
               case _ => []
  {
    match e
    case FromClient(pkt) =>
      OwnOnly(ProcessRequest(s.t, pkt).outputs);
      assert [Passed(pkt)][1..] == [];
    case FromTarget(pkt) =>
      if KindOf(pkt) == Dat {
        TargetDataGood(s, pkt);
        OwnOnly(Callback(s.t, s.q.requests[0].next, pkt).outputs);
      }
    case RequestDone =>
    case ResponseDone =>
  }

  /** Every packet of the client that the target object does not take, control or data, is written to the
      target exactly once, unchanged and in order of arrival; all that stands between them is the proxy's. */
  lemma {:induction false} NotTakenArePassed(s: Session, events: seq<Event>)
    requires Good(s) && PossibleRun(s, events)
    ensures PassedOf(ToTargetLog(s, events)) == NotTaken(s, events)
    decreases |events|
  {
    if events != [] {
      EventKeepsGood(s, events[0]);
      EventPasses(s, events[0]);
      NotTakenArePassed(Happen(s, events[0]), events[1..]);
      PassedAppend(ToTargetBy(s, events[0]), ToTargetLog(Happen(s, events[0]), events[1..]));
    }
  }

  // ------------------------------------------------------- what is awaited was written

  /** Every request in the queue has been written to the target. */
  predicate AllWritten(q: Queues) {
    forall i :: 0 <= i < |q.requests| ==> q.requests[i].pkt in q.toTarget
  }

  lemma {:induction false} SendWritten(q: Queues, t: Transfer)
    requires AllWritten(q)
    ensures AllWritten(SendRequest(q, t))
  {
    var r := SendRequest(q, t);
    assert r.toTarget[|q.toTarget|] == t.pkt;
    forall i | 0 <= i < |r.requests| ensures r.requests[i].pkt in r.toTarget {
      if r.requests[i] != t {
        assert r.requests[i] in q.requests;
      }
    }
  }

  lemma {:induction false} SendAllWritten(q: Queues, outputs: seq<Output>)
    requires AllWritten(q)
    ensures AllWritten(SendAll(q, outputs))
    decreases |outputs|
  {
    if outputs != [] {
      if outputs[0].ToTarget? {
        SendWritten(q, outputs[0].t);
      }
      SendAllWritten(SendOne(q, outputs[0]), outputs[1..]);
    }
  }

  lemma {:induction false} EventKeepsWritten(s: Session, e: Event)
    requires Good(s) && Possible(s, e) && AllWritten(s.q)
    ensures AllWritten(Happen(s, e).q)
  {
    match e
    case FromClient(pkt) =>
      if KindOf(pkt) == Dat {
        SendAllWritten(s.q, ProcessRequest(s.t, pkt).outputs);
        SendWritten(SendAll(s.q, ProcessRequest(s.t, pkt).outputs), Transfer(pkt, false, NoCallback));
      } else {
        SendWritten(s.q, Transfer(pkt, false, NoCallback));
      }
    case FromTarget(pkt) =>
      if KindOf(pkt) == Dat {
        TargetDataGood(s, pkt);
        SendAllWritten(s.q, Callback(s.t, s.q.requests[0].next, pkt).outputs);
      }
    case RequestDone =>
    case ResponseDone =>
  }

  /** In all runs a response is only awaited for a packet that was written to the target. */
  lemma {:induction false} AwaitedIsWritten(s: Session, events: seq<Event>)
    requires Good(s) && PossibleRun(s, events) && AllWritten(s.q)
    ensures AllWritten(Run(s, events).q)
    decreases |events|
  {
    if events != [] {
      EventKeepsGood(s, events[0]);
      EventKeepsWritten(s, events[0]);
      AwaitedIsWritten(Happen(s, events[0]), events[1..]);
    }
  }

  // -------------------------------------------------------------- acknowledgements

  /** Some response in the run is `OK` to the request `QStartNoAckMode`. */
  predicate TurnsAcksOff(s: Session, events: seq<Event>)
    requires Good(s) && PossibleRun(s, events)
    decreases |events|
  {
    events != [] &&
    ((events[0].FromTarget? && KindOf(events[0].pkt) == Dat
      && Valid(s.q.requests[0].pkt) && "QStartNoAckMode" <= DataOf(s.q.requests[0].pkt)
      && "OK" <= DataOf(events[0].pkt))
     || (EventKeepsGood(s, events[0]); TurnsAcksOff(Happen(s, events[0]), events[1..])))
  }

  /** Acknowledgements are off at the end exactly if they were off or have been turned off. */
  lemma {:induction false} AcksOffIff(s: Session, events: seq<Event>)
    requires Good(s) && PossibleRun(s, events)
    ensures Run(s, events).ackMode <==> s.ackMode && !TurnsAcksOff(s, events)
    decreases |events|
  {
    if events != [] {
      EventKeepsGood(s, events[0]);
      AcksOffIff(Happen(s, events[0]), events[1..]);
    }
  }
}
