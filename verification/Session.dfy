/** A proxied session: the queues, the target and the two packet handlers, over whole runs. */
module Sessions {
  import opened Text
  import opened Packet
  import opened Walks
  import opened WalkRuns
  import opened SymbolTable
  import opened Connections
  import opened TargetModel
  import opened Targets

  datatype Session = Session(q: Queues, t: Target, seqNo: nat, ackMode: bool)

  const NEW_SESSION := Session(NO_QUEUES, NEW_TARGET, 0, true)

  /** A packet from the client: handled by the target, or forwarded. */
  function OnRequest(s: Session, pkt: Packet): Session
    requires Readable(pkt) && Consistent(s.t.negotiation)
  {
    if KindOf(pkt) != Dat then s.(q := SendRequest(s.q, Transfer(pkt, false, NoCallback)))
    else
      var e := ProcessRequest(s.t, pkt);
      var q := SendAll(s.q, e.outputs);
      Session(if e.handled then q else SendRequest(q, Transfer(pkt, false, NoCallback)),
              e.target, s.seqNo + 1, s.ackMode)
  }

  /** Whether a response ends acknowledgements. */
  predicate EndsAcks(request: Packet, response: Packet) {
    "QStartNoAckMode" <= DataOf'(request) && "OK" <= DataOf'(response)
  }

  /** A packet from the target: data goes to the callback of the oldest request, and on to the client
      unless the request was the proxy's own. */
  function OnResponse(s: Session, pkt: Packet): Session
    requires s.q.requests != []
    requires KindOf(pkt) == Dat ==> Acceptable(s.t, s.q.requests[0].next, pkt)
  {
    var front := s.q.requests[0];
    var passed := Transfer(pkt, false, NoCallback);
    if KindOf(pkt) == Dat then
      var e := Callback(s.t, front.next, pkt);
      var q := Answered(SendAll(s.q, e.outputs));
      Session(if front.internal then q else SendResponse(q, passed),
              e.target, s.seqNo, s.ackMode && !EndsAcks(front.pkt, pkt))
    else if KindOf(pkt) == Ack && front.internal then s
    else s.(q := SendResponse(s.q, passed))
  }

  // --------------------------------------------------------------------- runs

  datatype Event = FromClient(pkt: Packet) | FromTarget(pkt: Packet) | RequestDone | ResponseDone

  function DataPackets(packets: seq<Packet>): seq<Packet> {
    if packets == [] then []
    else (if KindOf(packets[0]) == Dat then [packets[0]] else []) + DataPackets(packets[1..])
  }

  function DataSent(packets: seq<Packet>): nat {
    |DataPackets(packets)|
  }

  /** The requests channel: control packets being written, then data requests. */
  function Controls(q: Queues): nat {
    ControlWrites(q.writes)
  }

  predicate QueueShape(q: Queues) {
    && Controls(q) <= |q.requests|
    && (forall i :: 0 <= i < |q.requests| ==> (IsData(q.requests[i]) <==> Controls(q) <= i))
    && |q.responses| == q.responseWrites
  }

  /** How many data requests wait for their response. */
  function Waiting(q: Queues): int {
    |q.requests| - Controls(q)
  }

  /** The callback of a waiting request will find what it needs. */
  predicate Awaited(t: Target, next: Continuation) {
    IsWalk(next) ==> Ready(Pending(t, next)) && HasStopReply(t)
  }

  /** What every reachable state satisfies. */
  predicate Good(s: Session) {
    && Consistent(s.t.negotiation)
    && QueueShape(s.q)
    && s.seqNo == DataSent(s.q.toClient) + Waiting(s.q)
    && Waiting(s.q) <= 1
    && (Waiting(s.q) == 1 ==>
          Proper(s.q.requests[Controls(s.q)]) && Awaited(s.t, s.q.requests[Controls(s.q)].next))
  }

  predicate ProperResponse(next: Continuation, pkt: Packet)
    requires Valid(pkt)
  {
    match next
    case StopReply => IsStopReply(pkt)
    case Registers(_) => |DataOf(pkt)| / 2 >= Registers.CONTEXT_SIZE_NON_FPU
    case _ => true
  }

  /** The environment. The client sends a data request only when it has its last answer, and
      acknowledgements only then. The target answers once its request is written and no control packet
      is being written; stop replies are `T` replies, and register blocks are complete. */
  predicate Possible(s: Session, e: Event) {
    match e
    case FromClient(pkt) =>
      && Readable(pkt) && pkt.phase == Complete
      && (KindOf(pkt) == Break || s.seqNo == DataSent(s.q.toClient))
    case FromTarget(pkt) =>
      && Valid(pkt) && s.q.requests != []
      && (KindOf(pkt) == Dat ==> Controls(s.q) == 0 && ProperResponse(s.q.requests[0].next, pkt))
    case RequestDone => s.q.writes != []
    case ResponseDone => s.q.responseWrites > 0
  }


  function Happen(s: Session, e: Event): Session
    requires Good(s) && Possible(s, e)
  {
    match e
    case FromClient(pkt) => OnRequest(s, pkt)
    case FromTarget(pkt) => OnResponse(s, pkt)
    case RequestDone => s.(q := RequestWritten(s.q))
    case ResponseDone => s.(q := ResponseWritten(s.q))
  }

  lemma {:induction false} DataPacketsSnoc(packets: seq<Packet>, p: Packet)
    ensures DataPackets(packets + [p]) == DataPackets(packets) + if KindOf(p) == Dat then [p] else []
  {
    var last := if KindOf(p) == Dat then [p] else [];
    if packets == [] {
      Empty([p]);
      Empty(last);
      assert [p][1..] == [];
    } else {
      TailOfSum(packets, [p]);
      DataPacketsSnoc(packets[1..], p);
      Assoc(if KindOf(packets[0]) == Dat then [packets[0]] else [], DataPackets(packets[1..]), last);
    }
  }

  // How each way of sending changes the account.

  lemma SendDataRequest(q: Queues, t: Transfer)
    requires QueueShape(q) && IsData(t)
    ensures var r := SendRequest(q, t);
            && QueueShape(r) && Controls(r) == Controls(q) && Waiting(r) == Waiting(q) + 1
            && r.requests == q.requests + [t] && r.toClient == q.toClient
  {
    ControlWritesSnoc(q.writes, Dat);
  }

  lemma SendControlRequest(q: Queues, t: Transfer)
    requires QueueShape(q) && !IsData(t) && (KindOf(t.pkt) == Break || Waiting(q) == 0)
    ensures var r := SendRequest(q, t);
            && QueueShape(r) && Waiting(r) == Waiting(q) && r.toClient == q.toClient
            && (Waiting(q) > 0 ==> r.requests[Controls(r)] == q.requests[Controls(q)])
  {
    ControlWritesSnoc(q.writes, KindOf(t.pkt));
  }

  lemma SendToClient(q: Queues, t: Transfer)
    requires QueueShape(q)
    ensures var r := SendResponse(q, t);
            && QueueShape(r) && r.requests == q.requests && r.writes == q.writes
            && DataPackets(r.toClient) == DataPackets(q.toClient) + if IsData(t) then [t.pkt] else []
  {
    DataPacketsSnoc(q.toClient, t.pkt);
  }

  /** One output adds one waiting request or one response to the client. */
  lemma SendOutput(q: Queues, o: Output)
    requires QueueShape(q) && ProperOutput(o)
    ensures var r := SendAll(q, [o]);
            && QueueShape(r) && Controls(r) == Controls(q)
            && Waiting(r) + DataSent(r.toClient) == Waiting(q) + DataSent(q.toClient) + 1
            && r.requests == q.requests + (if o.ToTarget? then [o.t] else [])
  {
    SendSingle(q, o);
    match o
    case ToTarget(t) => SendDataRequest(q, t);
    case ToClient(p) => SendToClient(q, Transfer(p, true, NoCallback));
  }

  /** What a request from the target's side leaves behind. */
  predicate GoodEffect(e: Effect) {
    && OneEffect(e) && Consistent(e.target.negotiation)
    && (e.outputs != [] && e.outputs[0].ToTarget? ==> Awaited(e.target, e.outputs[0].t.next))
  }

  lemma RequestEffectGood(t: Target, pkt: Packet)
    requires Readable(pkt) && Consistent(t.negotiation) && KindOf(pkt) == Dat
    ensures GoodEffect(ProcessRequest(t, pkt))
  {
    RequestHasOneEffect(t, pkt);
    var data := DataOf(pkt);
    if data != "" && data[0] == 'q' {
      QueryEffectGood(t, pkt);
    }
  }

  lemma QueryEffectGood(t: Target, pkt: Packet)
    requires Valid(pkt) && Consistent(t.negotiation)
    ensures var e := OnQuery(t, pkt);
            && Consistent(e.target.negotiation)
            && (e.outputs != [] && e.outputs[0].ToTarget? ==> !IsWalk(e.outputs[0].t.next))
  {
    var data := DataOf(pkt);
    if "qThreadExtraInfo," <= data {
      assert OnExtraInfo(t, data).target == t;
    } else {
      SymbolEffectGood(t, data);
    }
  }

  lemma SymbolEffectGood(t: Target, data: string)
    requires Consistent(t.negotiation)
    ensures var e := OnSymbolQuery(t, data);
            && Consistent(e.target.negotiation)
            && (e.outputs != [] && e.outputs[0].ToTarget? ==> !IsWalk(e.outputs[0].t.next))
  {
    if data == "qSymbol::" {
      IdleConsistent();
    } else if "qSymbol:" <= data && t.negotiation.processing {
      StoreConsistent(t.negotiation, Address(data[8..]));
    }
  }

  lemma IdleConsistent()
    ensures Consistent(STARTED) && Consistent(IDLE)
  {
  }

  lemma ContinueAwaited(t: Target, o: Outcome)
    requires HasStopReply(t) && Ready(o)
    ensures var e := Continue(t, o);
            && e.target.negotiation == t.negotiation
            && (e.outputs[0].ToTarget? ==> Awaited(e.target, e.outputs[0].t.next))
  {
  }

  lemma CallbackEffectGood(t: Target, transfer: Transfer, reply: Packet)
    requires Proper(transfer) && Acceptable(t, transfer.next, reply) && Consistent(t.negotiation)
    requires transfer.internal
    ensures GoodEffect(Callback(t, transfer.next, reply)) && Callback(t, transfer.next, reply).handled
  {
    CallbackHasOneEffect(t, transfer, reply);
    if transfer.next == StopReply {
      if t.negotiation.avail {
        ContinueAwaited(t.(stopReply := reply), Begin(Setting(t), t.walk.ids));
      }
    } else if IsWalk(transfer.next) {
      StepReady(Setting(t), Pending(t, transfer.next), DataOf(reply));
      ContinueAwaited(t, OnReply(Setting(t), Pending(t, transfer.next), DataOf(reply)));
    }
  }

  /** Client packets keep the account: one request more, and one that waits or is answered. */
  lemma ClientEventGood(s: Session, pkt: Packet)
    requires Good(s) && Possible(s, FromClient(pkt))
    ensures Good(OnRequest(s, pkt))
  {
    var forwarded := Transfer(pkt, false, NoCallback);
    if KindOf(pkt) != Dat {
      SendControlRequest(s.q, forwarded);
    } else {
      RequestEffectGood(s.t, pkt);
      var e := ProcessRequest(s.t, pkt);
      if e.handled {
        assert e.outputs == [e.outputs[0]];
        SendOutput(s.q, e.outputs[0]);
      } else {
        SendDataRequest(s.q, forwarded);
      }
    }
  }

  lemma AnsweredShape(q: Queues)
    requires QueueShape(q) && Controls(q) == 0 && q.requests != []
    ensures var r := Answered(q);
            QueueShape(r) && Controls(r) == 0 && Waiting(r) == Waiting(q) - 1 && r.toClient == q.toClient
  {
  }

  /** Target packets keep it too: the response to an own request becomes another request or a response
      to the client, the response to a client's request goes to the client. */
  lemma TargetDataGood(s: Session, pkt: Packet)
    requires Good(s) && Possible(s, FromTarget(pkt)) && KindOf(pkt) == Dat
    ensures Acceptable(s.t, s.q.requests[0].next, pkt) && Good(OnResponse(s, pkt))
  {
    var front := s.q.requests[0];
    assert Waiting(s.q) == 1 && s.q.requests == [front];
    if front.internal {
      CallbackEffectGood(s.t, front, pkt);
      OwnAnswerGood(s, Callback(s.t, front.next, pkt), s.ackMode && !EndsAcks(front.pkt, pkt));
    } else {
      CallbackHasOneEffect(s.t, front, pkt);
      ClientAnswerGood(s, pkt);
    }
  }

  lemma {:induction false} OwnAnswerGood(s: Session, e: Effect, ackMode: bool)
    requires QueueShape(s.q) && |s.q.requests| == 1 && Controls(s.q) == 0
    requires s.seqNo == DataSent(s.q.toClient) + 1 && GoodEffect(e) && e.handled
    ensures SendAll(s.q, e.outputs).requests != []
    ensures Good(Session(Answered(SendAll(s.q, e.outputs)), e.target, s.seqNo, ackMode))
  {
    assert e.outputs == [e.outputs[0]];
    SendOutput(s.q, e.outputs[0]);
    AnsweredShape(SendAll(s.q, e.outputs));
  }

  lemma ClientAnswerGood(s: Session, pkt: Packet)
    requires Good(s) && |s.q.requests| == 1 && Controls(s.q) == 0 && KindOf(pkt) == Dat
    requires var front := s.q.requests[0];
             && !front.internal && Acceptable(s.t, front.next, pkt) && Callback(s.t, front.next, pkt).outputs == []
             && Consistent(Callback(s.t, front.next, pkt).target.negotiation)
    ensures Good(OnResponse(s, pkt))
  {
    AnsweredShape(s.q);
    SendToClient(Answered(s.q), Transfer(pkt, false, NoCallback));
  }

  lemma EventKeepsGood(s: Session, e: Event)
    requires Good(s) && Possible(s, e)
    ensures Good(Happen(s, e))
  {
    match e
    case FromClient(pkt) => ClientEventGood(s, pkt);
    case FromTarget(pkt) =>
      if KindOf(pkt) == Dat {
        TargetDataGood(s, pkt);
      } else {
        TargetControlGood(s, pkt);
      }
    case RequestDone => RequestDoneGood(s);
    case ResponseDone => ResponseDoneGood(s);
  }

  lemma TargetControlGood(s: Session, pkt: Packet)
    requires Good(s) && s.q.requests != [] && KindOf(pkt) != Dat
    ensures Good(OnResponse(s, pkt))
  {
    SendToClient(s.q, Transfer(pkt, false, NoCallback));
  }

  lemma RequestDoneGood(s: Session)
    requires Good(s) && s.q.writes != []
    ensures Good(s.(q := RequestWritten(s.q)))
  {
  }

  lemma ResponseDoneGood(s: Session)
    requires Good(s) && s.q.responseWrites > 0
    ensures Good(s.(q := ResponseWritten(s.q)))
  {
  }

  predicate PossibleRun(s: Session, events: seq<Event>)
    requires Good(s)
    decreases |events|
  {
    if events == [] then true
    else if !Possible(s, events[0]) then false
    else
      EventKeepsGood(s, events[0]);
      PossibleRun(Happen(s, events[0]), events[1..])
  }

  function Run(s: Session, events: seq<Event>): Session
    requires Good(s) && PossibleRun(s, events)
    decreases |events|
  {
    if events == [] then s
    else
      EventKeepsGood(s, events[0]);
      Run(Happen(s, events[0]), events[1..])
  }

  lemma NewIsGood()
    ensures Good(NEW_SESSION)
  {
    NoQueuesGood(NEW_SESSION);
    IdleConsistent();
  }

  lemma NoQueuesGood(s: Session)
    requires s.q == NO_QUEUES && s.seqNo == 0 && Consistent(s.t.negotiation)
    ensures Good(s)
  {
  }

  lemma {:induction false} RunKeepsGood(s: Session, events: seq<Event>)
    requires Good(s) && PossibleRun(s, events)
    ensures Good(Run(s, events))
    decreases |events|
  {
    if events != [] {
      EventKeepsGood(s, events[0]);
      RunKeepsGood(Happen(s, events[0]), events[1..]);
    }
  }

  /** In every state reachable from a good one, such as the beginning (`NewIsGood`), with a synchronous
      client, the data requests received less the data packets sent to the client are zero or one, and
      exactly that many data requests wait in the queue, whichever path each request took. Symbol
      negotiation is consistent throughout. */
  lemma {:induction false} OneReplyPerRequest(start: Session, events: seq<Event>)
    requires Good(start) && PossibleRun(start, events)
    ensures var s := Run(start, events);
            && 0 <= s.seqNo - DataSent(s.q.toClient) <= 1
            && s.seqNo - DataSent(s.q.toClient) == |s.q.requests| - ControlWrites(s.q.writes)
            && Consistent(s.t.negotiation)
  {
    RunKeepsGood(start, events);
  }

  lemma EventKeepsMap(s: Session, e: Event)
    requires Good(s) && Possible(s, e) && MapSound(s.t.walk)
    ensures MapSound(Happen(s, e).t.walk)
  {
    match e
    case FromClient(pkt) => RequestKeepsWalk(s, pkt);
    case FromTarget(pkt) =>
      if KindOf(pkt) == Dat {
        TargetDataGood(s, pkt);
        CallbackKeepsMap(s.t, s.q.requests[0].next, pkt);
        assert OnResponse(s, pkt).t == Callback(s.t, s.q.requests[0].next, pkt).target;
      }
    case RequestDone =>
    case ResponseDone =>
  }

  lemma RequestKeepsWalk(s: Session, pkt: Packet)
    requires Readable(pkt) && Consistent(s.t.negotiation)
    ensures OnRequest(s, pkt).t.walk == s.t.walk
  {
    if KindOf(pkt) == Dat {
      assert OnQuery(s.t, pkt).target.walk == s.t.walk;
    }
  }

  lemma CallbackKeepsMap(t: Target, next: Continuation, reply: Packet)
    requires Acceptable(t, next, reply) && MapSound(t.walk)
    ensures MapSound(Callback(t, next, reply).target.walk)
  {
    if IsWalk(next) {
      StepMapSound(Setting(t), Pending(t, next), DataOf(reply));
    }
  }

  /** In all runs every id that the map gives a task is at least 2, hence never the id of the current
      execution, and the map stays in key order. */
  lemma {:induction false} IdsInAllRuns(start: Session, events: seq<Event>)
    requires Good(start) && PossibleRun(start, events) && MapSound(start.t.walk)
    ensures MapSound(Run(start, events).t.walk)
    decreases |events|
  {
    if events != [] {
      EventKeepsGood(start, events[0]);
      EventKeepsMap(start, events[0]);
      IdsInAllRuns(Happen(start, events[0]), events[1..]);
    }
  }
}
