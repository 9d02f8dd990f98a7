/** Runs as a client sees them: every waiting request is answered, and a stop ends with the table. */
module Updates {
  import opened Text
  import opened Hex
  import opened Packet
  import opened Memories
  import opened Walks
  import opened WalkRuns
  import opened WalkRefines
  import opened StopReplies
  import opened Connections
  import opened TargetModel
  import opened Routing
  import opened Targets
  import opened Sessions

  /** A session without control packets: the data requests that wait for a response, the data packets
      sent to the client, the target's state, the number of data requests received, and the data packets
      written to the target. */
  datatype Status = Status(waiting: seq<Transfer>, sent: seq<Packet>, t: Target, seqNo: nat, asked: seq<Packet>)

  function WaitingPart(q: Queues): seq<Transfer> {
    if Controls(q) <= |q.requests| then q.requests[Controls(q)..] else []
  }

  function StatusOf(s: Session): Status {
    Status(WaitingPart(s.q), DataPackets(s.q.toClient), s.t, s.seqNo, DataPackets(s.q.toTarget))
  }

  predicate IsRequest(e: Event) {
    e.FromClient? && KindOf(e.pkt) == Dat
  }

  predicate IsResponse(e: Event) {
    e.FromTarget? && KindOf(e.pkt) == Dat
  }

  /** What a good session keeps, seen from here: at most one request waits, and it is well formed. */
  predicate Waits(st: Status) {
    && |st.waiting| == 1 && Proper(st.waiting[0]) && Awaited(st.t, st.waiting[0].next)
    && SymbolTable.Consistent(st.t.negotiation)
  }


  lemma {:induction false} GoodWaits(s: Session)
    requires Good(s)
    ensures StatusOf(s).waiting == [] || Waits(StatusOf(s))
    ensures |StatusOf(s).waiting| == Waiting(s.q)
  {
  }

  // ------------------------------------------------------------ control events

  /** Write completions, acknowledgements, breaks and other control packets do not change the status. */
  lemma {:induction false} ControlEvent(s: Session, e: Event)
    requires Good(s) && Possible(s, e) && !IsRequest(e) && !IsResponse(e)
    ensures StatusOf(Happen(s, e)) == StatusOf(s)
  {
    match e
    case FromClient(pkt) => ControlRequestStatus(s, Transfer(pkt, false, NoCallback));
    case FromTarget(pkt) => SendToClient(s.q, Transfer(pkt, false, NoCallback));
    case RequestDone => WrittenStatus(s.q);
    case ResponseDone =>
  }

  lemma {:induction false} ControlRequestStatus(s: Session, t: Transfer)
    requires QueueShape(s.q) && !IsData(t) && (KindOf(t.pkt) == Break || Waiting(s.q) == 0)
    ensures WaitingPart(SendRequest(s.q, t)) == WaitingPart(s.q)
    ensures DataPackets(SendRequest(s.q, t).toTarget) == DataPackets(s.q.toTarget)
  {
    ControlWritesSnoc(s.q.writes, KindOf(t.pkt));
    DataPacketsSnoc(s.q.toTarget, t.pkt);
    Empty(DataPackets(s.q.toTarget));
    if KindOf(t.pkt) == Break {
      DropSum([t], s.q.requests, Controls(s.q));
    }
  }

  lemma {:induction false} WrittenStatus(q: Queues)
    requires QueueShape(q) && q.writes != []
    ensures WaitingPart(RequestWritten(q)) == WaitingPart(q)
  {
  }

  // ---------------------------------------------------------- requests and responses

  /** What one output does. */
  function Sent(st: Status, t: Target, o: Output): Status {
    match o
    case ToTarget(transfer) => Status([transfer], st.sent, t, st.seqNo, st.asked + [transfer.pkt])
    case ToClient(p) => Status([], st.sent + [p], t, st.seqNo, st.asked)
  }

  /** A data request from a client that waits for nothing. */
  function Request(st: Status, pkt: Packet): Status
    requires Readable(pkt) && SymbolTable.Consistent(st.t.negotiation)
  {
    var e, st' := ProcessRequest(st.t, pkt), st.(seqNo := st.seqNo + 1);
    if e.handled && e.outputs != [] then Sent(st', e.target, e.outputs[0])
    else Sent(st', e.target, ToTarget(Transfer(pkt, false, NoCallback)))
  }

  lemma {:induction false} RequestStatus(s: Session, pkt: Packet)
    requires Good(s) && Possible(s, FromClient(pkt)) && KindOf(pkt) == Dat
    ensures StatusOf(s).waiting == []
    ensures StatusOf(OnRequest(s, pkt)) == Request(StatusOf(s), pkt)
  {
    GoodWaits(s);
    RequestHasOneEffect(s.t, pkt);
    var e := ProcessRequest(s.t, pkt);
    if e.handled {
      OutputStatus(s.q, e.outputs[0]);
      assert e.outputs == [e.outputs[0]];
    } else {
      DataRequestStatus(s.q, Transfer(pkt, false, NoCallback));
    }
  }

  lemma {:induction false} DataRequestStatus(q: Queues, t: Transfer)
    requires QueueShape(q) && Waiting(q) == 0 && IsData(t)
    ensures WaitingPart(SendRequest(q, t)) == [t] && SendRequest(q, t).toClient == q.toClient
    ensures DataPackets(SendRequest(q, t).toTarget) == DataPackets(q.toTarget) + [t.pkt]
  {
    SendDataRequest(q, t);
    Parts(q.requests, [t]);
    DataPacketsSnoc(q.toTarget, t.pkt);
  }

  lemma {:induction false} OutputStatus(q: Queues, o: Output)
    requires QueueShape(q) && Waiting(q) == 0 && ProperOutput(o)
    ensures var r := SendAll(q, [o]);
            && WaitingPart(r) == (if o.ToTarget? then [o.t] else [])
            && DataPackets(r.toClient) == DataPackets(q.toClient) + (if o.ToClient? then [o.pkt] else [])
            && DataPackets(r.toTarget) == DataPackets(q.toTarget) + if o.ToTarget? then [o.t.pkt] else []
  {
    SendSingle(q, o);
    Empty(DataPackets(q.toTarget));
    match o
    case ToTarget(t) =>
      DataRequestStatus(q, t);
      Empty(DataPackets(q.toClient));
    case ToClient(p) => SendToClient(q, Transfer(p, true, NoCallback));
  }

  predicate Answerable(st: Status, pkt: Packet) {
    Waits(st) && Acceptable(st.t, st.waiting[0].next, pkt) && KindOf(pkt) == Dat
  }

  /** The response to the waiting request. */
  function Respond(st: Status, pkt: Packet): Status
    requires Answerable(st, pkt)
  {
    var e := Callback(st.t, st.waiting[0].next, pkt);
    if st.waiting[0].internal && e.outputs != [] then Sent(st, e.target, e.outputs[0])
    else Sent(st, e.target, ToClient(pkt))
  }

  lemma {:induction false} ResponseStatus(s: Session, pkt: Packet)
    requires Good(s) && Possible(s, FromTarget(pkt)) && KindOf(pkt) == Dat
    ensures Answerable(StatusOf(s), pkt) && Good(OnResponse(s, pkt))
    ensures StatusOf(OnResponse(s, pkt)) == Respond(StatusOf(s), pkt)
  {
    GoodWaits(s);
    TargetDataGood(s, pkt);
    var front := s.q.requests[0];
    assert s.q.requests == [front] && WaitingPart(s.q) == [front];
    CallbackHasOneEffect(s.t, front, pkt);
    var e := Callback(s.t, front.next, pkt);
    if front.internal {
      assert e.outputs == [e.outputs[0]];
      OwnResponseStatus(s.q, e.outputs[0]);
    } else {
      SendToClient(Answered(s.q), Transfer(pkt, false, NoCallback));
    }
  }

  lemma {:induction false} OwnResponseStatus(q: Queues, o: Output)
    requires QueueShape(q) && Controls(q) == 0 && |q.requests| == 1 && ProperOutput(o)
    ensures SendAll(q, [o]).requests != []
    ensures var r := Answered(SendAll(q, [o]));
            && WaitingPart(r) == (if o.ToTarget? then [o.t] else [])
            && DataPackets(r.toClient) == DataPackets(q.toClient) + (if o.ToClient? then [o.pkt] else [])
            && DataPackets(r.toTarget) == DataPackets(q.toTarget) + if o.ToTarget? then [o.t.pkt] else []
  {
    SendSingle(q, o);
    Empty(DataPackets(q.toTarget));
    match o
    case ToTarget(t) =>
      SendDataRequest(q, t);
      DataPacketsSnoc(q.toTarget, t.pkt);
      Empty(DataPackets(q.toClient));
    case ToClient(p) => SendToClient(q, Transfer(p, true, NoCallback));
  }

  /** What the client finally gets: one packet, the rewritten stop reply. */
  function StopPacket(t: Target): Packet
    requires HasStopReply(t)
  {
    Built(Rewritten(DataOf(t.stopReply), Label(t.selected)))
  }

  /** After an update nothing waits, the client got one packet more, and only the table and the stored
      stop reply changed. */
  function Ended(st: Status, w: Walk): Status
    requires HasStopReply(st.t)
  {
    Status([], st.sent + [StopPacket(st.t)], st.t.(walk := w, stopReply := FRESH), st.seqNo, st.asked)
  }

  /** While an update goes on, only the waiting read and the table change. */
  function Ongoing(st: Status, o: Outcome): Status
    requires o.Ask?
  {
    st.(waiting := [ReadTransfer(o.read)], t := st.t.(walk := o.w))
  }

  /** The read has just been written to the target. */
  function Asking(st: Status, o: Outcome): Status
    requires o.Ask?
  {
    Ongoing(st, o).(asked := st.asked + [ReadTransfer(o.read).pkt])
  }

  /** The response to a read of the walk. */
  lemma {:induction false} WalkResponse(st: Status, pkt: Packet)
    requires Answerable(st, pkt) && st.waiting[0].internal && IsWalk(st.waiting[0].next)
    ensures var o' := OnReply(Setting(st.t), Pending(st.t, st.waiting[0].next), DataOf(pkt));
            Respond(st, pkt) == if o'.Ask? then Asking(st, o') else Ended(st, o'.w)
  {
    var o' := OnReply(Setting(st.t), Pending(st.t, st.waiting[0].next), DataOf(pkt));
    assert Callback(st.t, st.waiting[0].next, pkt) == Continue(st.t, o');
  }

  // ------------------------------------------------------------------- liveness

  /** How far the answer is away: which part of the chain waits, and inside the walk how far it is. */
  function Level(next: Continuation): nat {
    if next == StopReply then 5
    else if IsWalk(next) then Stage(next) + 1
    else if next == StackPtr then 2 else 1
  }

  datatype Rank = Rank(level: nat, lists: nat, unread: nat, remaining: nat, turn: nat)

  function RankOf(st: Status): Rank {
    if |st.waiting| != 1 then Rank(0, 0, 0, 0, 0)
    else
      var o := Pending(st.t, st.waiting[0].next);
      if IsWalk(st.waiting[0].next) && Ready(o) then WalkRank(o) else Rank(Level(st.waiting[0].next), 0, 0, 0, 0)
  }

  function WalkRank(o: Outcome): Rank
    requires Ready(o) && o.Ask?
  {
    Rank(Level(o.read.next), ListsLeft(o), Unread(o), Remaining(o), Turn(o))
  }

  predicate Below(a: Rank, b: Rank) {
    a.level < b.level || (a.level == b.level && (a.lists < b.lists || (a.lists == b.lists && (a.unread < b.unread ||
      (a.unread == b.unread && (a.remaining < b.remaining || (a.remaining == b.remaining && a.turn < b.turn)))))))
  }

  /** Any acceptable response, whatever it says, answers the client with one packet or comes closer to that. */
  lemma {:induction false} RespondProgress(st: Status, pkt: Packet)
    requires Answerable(st, pkt)
    ensures var st' := Respond(st, pkt);
            if st'.waiting == [] then |st'.sent| == |st.sent| + 1
            else st'.sent == st.sent && Below(RankOf(st'), RankOf(st))
  {
    var front := st.waiting[0];
    CallbackHasOneEffect(st.t, front, pkt);
    if front.internal && IsWalk(front.next) {
      WalkProgress(st, pkt);
    }
  }

  lemma {:induction false} WalkProgress(st: Status, pkt: Packet)
    requires Answerable(st, pkt) && st.waiting[0].internal && IsWalk(st.waiting[0].next)
    ensures var st' := Respond(st, pkt);
            if st'.waiting == [] then |st'.sent| == |st.sent| + 1
            else st'.sent == st.sent && Below(RankOf(st'), RankOf(st))
  {
    var o := Pending(st.t, st.waiting[0].next);
    StepLater(Setting(st.t), o, DataOf(pkt));
    var o' := OnReply(Setting(st.t), o, DataOf(pkt));
    WalkResponse(st, pkt);
    if o'.Ask? {
      RankOfWalk(st);
      OngoingRank(st, o');
      LaterIsBelow(o, o');
    }
  }

  lemma {:induction false} LaterIsBelow(a: Outcome, b: Outcome)
    requires Ready(a) && Ready(b) && b.Ask? && WalkRuns.Later(a, b)
    ensures Below(WalkRank(b), WalkRank(a))
  {
  }

  lemma {:induction false} RankOfWalk(st: Status)
    requires |st.waiting| == 1 && IsWalk(st.waiting[0].next) && Ready(Pending(st.t, st.waiting[0].next))
    ensures RankOf(st) == WalkRank(Pending(st.t, st.waiting[0].next))
  {
  }

  lemma {:induction false} OngoingRank(st: Status, o: Outcome)
    requires Ready(o) && o.Ask?
    ensures RankOf(Asking(st, o)) == WalkRank(o)
  {
  }

  /** What one event does to a status with a waiting request. */
  predicate OnWay(st: Status, st': Status, response: bool) {
    if !response then st' == st
    else if st'.waiting == [] then |st'.sent| == |st.sent| + 1
    else st'.sent == st.sent && Below(RankOf(st'), RankOf(st))
  }

  /** While a request waits the client sends no other. */
  lemma {:induction false} NoRequest(s: Session, e: Event)
    requires Good(s) && Possible(s, e) && StatusOf(s).waiting != []
    ensures !IsRequest(e)
  {
    GoodWaits(s);
  }

  lemma {:induction false} EventOnWay(s: Session, e: Event)
    requires Good(s) && Possible(s, e) && StatusOf(s).waiting != []
    ensures OnWay(StatusOf(s), StatusOf(Happen(s, e)), IsResponse(e))
  {
    if IsResponse(e) {
      ResponseStatus(s, e.pkt);
      RespondProgress(StatusOf(s), e.pkt);
    } else {
      NoRequest(s, e);
      ControlEvent(s, e);
    }
  }

  predicate OnWayAt(sts: nat -> Status, responses: nat -> bool, k: nat) {
    sts(k).waiting != [] ==> OnWay(sts(k), sts(k + 1), responses(k))
  }

  /** The rank cannot fall for ever: when responses keep coming, one of them is the last. */
  lemma {:induction false} Descent(sts: nat -> Status, responses: nat -> bool, next: nat -> nat, from: nat, at: nat)
      returns (n: nat)
    requires sts(from).waiting != [] && forall k: nat :: OnWayAt(sts, responses, k)
    requires forall k: nat :: sts(k).waiting != [] ==> next(k) >= k && responses(next(k))
    requires from <= at && responses(at)
    ensures sts(n).waiting == [] && |sts(n).sent| == |sts(from).sent| + 1
    decreases RankOf(sts(from)).level, RankOf(sts(from)).lists, RankOf(sts(from)).unread,
              RankOf(sts(from)).remaining, RankOf(sts(from)).turn, at - from
  {
    assert OnWayAt(sts, responses, from);
    n := from + 1;
    if sts(n).waiting != [] {
      n := Descent(sts, responses, next, n, if responses(from) then next(n) else at);
    }
  }

  /** The first `n` events. */
  function Prefix(events: nat -> Event, n: nat): seq<Event>
  {
    if n == 0 then [] else Prefix(events, n - 1) + [events(n - 1)]
  }

  /** The environment never does anything impossible. */
  ghost predicate AlwaysPossible(s: Session, events: nat -> Event)
    requires Good(s)
  {
    forall n: nat :: PossibleRun(s, Prefix(events, n))
  }

  lemma {:induction false} RunSnoc(s: Session, events: seq<Event>, e: Event)
    requires Good(s) && PossibleRun(s, events + [e])
    ensures PossibleRun(s, events) && Good(Run(s, events)) && Possible(Run(s, events), e)
    ensures Run(s, events + [e]) == Happen(Run(s, events), e)
    decreases |events|
  {
    if events == [] {
      Empty([e]);
      assert [e][1..] == [];
    } else {
      EventKeepsGood(s, events[0]);
      TailOfSum(events, [e]);
      RunSnoc(Happen(s, events[0]), events[1..], e);
    }
  }

  ghost function StatusAt(s: Session, events: nat -> Event, n: nat): Status
    requires Good(s) && AlwaysPossible(s, events)
  {
    StatusOf(Run(s, Prefix(events, n)))
  }

  lemma {:induction false} EventAt(s: Session, events: nat -> Event, n: nat)
    requires Good(s) && AlwaysPossible(s, events) && StatusAt(s, events, n).waiting != []
    ensures OnWay(StatusAt(s, events, n), StatusAt(s, events, n + 1), IsResponse(events(n)))
  {
    assert PossibleRun(s, Prefix(events, n + 1));
    assert Prefix(events, n + 1) == Prefix(events, n) + [events(n)];
    RunSnoc(s, Prefix(events, n), events(n));
    EventOnWay(Run(s, Prefix(events, n)), events(n));
  }

  /** The target goes on responding: as long as a request waits, a response is still to come. */
  ghost predicate Responsive(s: Session, events: nat -> Event, next: nat -> nat)
    requires Good(s) && AlwaysPossible(s, events)
  {
    forall k: nat :: StatusAt(s, events, k).waiting != [] ==> next(k) >= k && IsResponse(events(next(k)))
  }

  /** Every waiting data request, the client's or the proxy's own, is answered with exactly one data
      packet to the client: in every possible run in which the target goes on responding, whatever its
      responses say, also with write completions, acknowledgements and breaks in between. */
  lemma {:induction false} AnswerComes(s: Session, events: nat -> Event, next: nat -> nat) returns (n: nat)
    requires Good(s) && StatusOf(s).waiting != []
    requires AlwaysPossible(s, events) && Responsive(s, events, next)
    ensures var st := StatusAt(s, events, n);
            st.waiting == [] && |st.sent| == |StatusOf(s).sent| + 1
  {
    var sts := (k: nat) => StatusAt(s, events, k);
    var responses := (k: nat) => IsResponse(events(k));
    forall k: nat ensures OnWayAt(sts, responses, k) {
      if sts(k).waiting != [] {
        EventAt(s, events, k);
      }
    }
    assert Prefix(events, 0) == [];
    assert sts(0) == StatusOf(s);
    assert StatusAt(s, events, 0).waiting != [];
    n := Descent(sts, responses, next, 0, next(0));
  }

  // ------------------------------------------------- runs against a halted target

  /** The halted target's response: the stop reply, and after that what its memory server says. */
  function Reply(mem: Memory, stop: Packet, front: Transfer): Packet
    requires Valid(front.pkt)
  {
    if front.next == StopReply then stop else Answer(mem, front.pkt)
  }

  /** A run in which the client sends no further request, and all responses are that target's. */
  predicate Serving(s: Session, mem: Memory, stop: Packet, events: seq<Event>)
    requires Good(s) && PossibleRun(s, events)
    decreases |events|
  {
    events == [] ||
    (&& !IsRequest(events[0])
     && (IsResponse(events[0]) ==>
           Waits(StatusOf(s)) && events[0].pkt == Reply(mem, stop, StatusOf(s).waiting[0]))
     && (EventKeepsGood(s, events[0]); Serving(Happen(s, events[0]), mem, stop, events[1..])))
  }

  function Responses(events: seq<Event>): nat {
    if events == [] then 0 else (if IsResponse(events[0]) then 1 else 0) + Responses(events[1..])
  }

  predicate Servable(st: Status, mem: Memory, stop: Packet) {
    Waits(st) && Answerable(st, Reply(mem, stop, st.waiting[0]))
  }

  function ServedOnce(st: Status, mem: Memory, stop: Packet): Status {
    if Servable(st, mem, stop) then Respond(st, Reply(mem, stop, st.waiting[0])) else st
  }

  /** The status after `n` responses, or after all that there are. */
  ghost function Served(st: Status, mem: Memory, stop: Packet, n: nat): Status
    decreases n
  {
    if n == 0 then st else Served(ServedOnce(st, mem, stop), mem, stop, n - 1)
  }

  /** Whatever happens between the responses, only their number matters. */
  lemma {:induction false} OnlyResponsesMatter(s: Session, mem: Memory, stop: Packet, events: seq<Event>)
    requires Good(s) && PossibleRun(s, events) && Serving(s, mem, stop, events)
    ensures StatusOf(Run(s, events)) == Served(StatusOf(s), mem, stop, Responses(events))
    decreases |events|
  {
    if events != [] {
      var e := events[0];
      EventKeepsGood(s, e);
      if IsResponse(e) {
        ResponseStatus(s, e.pkt);
      } else {
        ControlEvent(s, e);
      }
      OnlyResponsesMatter(Happen(s, e), mem, stop, events[1..]);
    }
  }

  /** Nothing is served when nothing waits. */
  lemma {:induction false} ServedNoMore(s: Session, mem: Memory, stop: Packet, events: seq<Event>, n: nat)
    requires Good(s) && PossibleRun(s, events) && Serving(s, mem, stop, events)
    requires Served(StatusOf(s), mem, stop, n).waiting == []
    ensures Responses(events) <= n
    decreases |events|
  {
    if events != [] {
      var e := events[0];
      EventKeepsGood(s, e);
      OneServed(s, mem, stop, e, n);
      ServedNoMore(Happen(s, e), mem, stop, events[1..], if IsResponse(e) then n - 1 else n);
    }
  }

  lemma {:induction false} OneServed(s: Session, mem: Memory, stop: Packet, e: Event, n: nat)
    requires Good(s) && Possible(s, e) && !IsRequest(e)
    requires IsResponse(e) ==> Waits(StatusOf(s)) && e.pkt == Reply(mem, stop, StatusOf(s).waiting[0])
    requires Served(StatusOf(s), mem, stop, n).waiting == []
    ensures IsResponse(e) ==> n > 0
    ensures Served(StatusOf(Happen(s, e)), mem, stop, if IsResponse(e) then n - 1 else n).waiting == []
  {
    if IsResponse(e) {
      ResponseStatus(s, e.pkt);
    } else {
      ControlEvent(s, e);
    }
  }

  // --------------------------------------------------- an update from end to end

  /** A walk waits for a read that fits the request buffer. */
  predicate Expects(st: Status, o: Outcome) {
    && Ready(o) && o.Ask? && HasStopReply(st.t) && st == Ongoing(st, o)
    && Narrow(o) && NarrowSymbols(Setting(st.t).symbols)
    && SymbolTable.Consistent(st.t.negotiation)
  }

  lemma {:induction false} ReadServed(st: Status, o: Outcome, mem: Memory, stop: Packet) returns (o': Outcome)
    requires Expects(st, o)
    ensures o' == OnReply(Setting(st.t), o, ReplyText(mem, o.read)) && Ready(o') && Narrow(o')
    ensures Waits(st) && Answerable(st, Reply(mem, stop, st.waiting[0]))
    ensures Respond(st, Reply(mem, stop, st.waiting[0]))
            == if o'.Ask? then Asking(st, o') else Ended(st, o'.w)
  {
    var r := o.read;
    NarrowFits(o);
    AnswerCarries(mem, r.address, r.size);
    o' := OnReply(Setting(st.t), o, ReplyText(mem, r));
    StepLater(Setting(st.t), o, ReplyText(mem, r));
    NarrowReply(mem, o);
    StepNarrow(Setting(st.t), o, ReplyText(mem, r));
    OnlyContinuationMatters(st.t, o, ReplyText(mem, r));
    assert st.waiting == [ReadTransfer(r)] && st.t.walk == o.w;
    WalkResponse(st, Answer(mem, ReadRequest(r.address, r.size)));
  }

  lemma {:induction false} NarrowReply(mem: Memory, o: Outcome)
    requires Narrow(o) && o.Ask?
    ensures o.read.next != ElemName ==> ReplyWord(ReplyText(mem, o.read)) < TWO_32
  {
    var bytes := BytesAt(mem, o.read.address, o.read.size);
    HexRoundTrip(bytes, o.read.size);
    if o.read.next != ElemName {
      HexRoundTrip(bytes, 8);
      WordBelow(bytes);
    }
  }

  lemma {:induction false} OnlyContinuationMatters(t: Target, o: Outcome, data: string)
    requires Ready(o) && o.Ask? && t.walk == o.w
    ensures Ready(Pending(t, o.read.next))
    ensures OnReply(Setting(t), Pending(t, o.read.next), data) == OnReply(Setting(t), o, data)
  {
  }

  /** The packets that carry the reads. */
  function Requests(trace: seq<Read>): seq<Packet> {
    if trace == [] then [] else [ReadRequest(trace[0].address, trace[0].size)] + Requests(trace[1..])
  }

  /** The end of a walk that made these reads. */
  function EndedAfter(st: Status, trace: seq<Read>, w: Walk): Status
    requires HasStopReply(st.t)
  {
    Ended(st.(asked := st.asked + Requests(trace)), w)
  }

  /** A walk can be served from here. */
  predicate Walkable(st: Status, o: Outcome) {
    && HasStopReply(st.t) && Ready(o) && o.Ask? && Narrow(o) && NarrowSymbols(Setting(st.t).symbols)
    && SymbolTable.Consistent(st.t.negotiation)
  }

  lemma {:induction false} AskingExpects(st: Status, o: Outcome)
    requires Walkable(st, o)
    ensures Expects(Asking(st, o), o) && Setting(Asking(st, o).t) == Setting(st.t)
  {
  }

  /** A read more, seen from before the one that waits. */
  function WithRead(st: Status, r: Read): Status {
    st.(asked := st.asked + [ReadTransfer(r).pkt])
  }

  lemma {:induction false} AskingTwice(st: Status, o: Outcome, o': Outcome)
    requires HasStopReply(st.t) && o.Ask?
    ensures HasStopReply(Asking(st, o).t) && Setting(WithRead(st, o.read).t) == Setting(st.t)
    ensures o'.Ask? ==> Asking(Asking(st, o), o') == Asking(WithRead(st, o.read), o')
    ensures Ended(Asking(st, o), o'.w) == Ended(WithRead(st, o.read), o'.w)
  {
  }

  lemma {:induction false} ReadEnds(st: Status, r: Read, trace: seq<Read>, w: Walk)
    requires HasStopReply(st.t)
    ensures EndedAfter(WithRead(st, r), trace, w) == EndedAfter(st, [r] + trace, w)
    ensures EndedAfter(st, [], w) == Ended(st, w)
  {
    Head(r, trace);
    Assoc(st.asked, [ReadTransfer(r).pkt], Requests(trace));
    Empty(st.asked);
  }

  /** All reads of a walk, served from memory: they are written to the target in order, and the table is the
      one that the walk computes, with one packet to the client. */
  lemma {:induction false} WalkServed(st: Status, o: Outcome, mem: Memory, stop: Packet)
    requires Walkable(st, o)
    ensures var env := Setting(st.t);
            Served(Asking(st, o), mem, stop, Reads(env, o, mem))
            == EndedAfter(st, Trace(env, o, mem), Play(env, o, mem))
    decreases Reads(Setting(st.t), o, mem)
  {
    PlayStep(Setting(st.t), o, mem);
    TraceStep(Setting(st.t), o, mem);
    AskingExpects(st, o);
    var o' := ReadServed(Asking(st, o), o, mem, stop);
    AskingTwice(st, o, o');
    ReadEnds(st, o.read, Trace(Setting(st.t), o', mem), Play(Setting(st.t), o', mem));
    if o'.Ask? {
      WalkServed(WithRead(st, o.read), o', mem, stop);
    } else {
      ReadEnds(WithRead(st, o.read), o.read, [], o'.w);
    }
  }

  /** The same with the numbers and the table named. */
  lemma {:induction false} OngoingServed(st: Status, o: Outcome, mem: Memory, stop: Packet,
                                         n: nat, trace: seq<Read>, w: Walk)
    requires Walkable(st, o)
    requires n == Reads(Setting(st.t), o, mem) && w == Play(Setting(st.t), o, mem)
    requires trace == Trace(Setting(st.t), o, mem)
    ensures Served(Asking(st, o), mem, stop, n) == EndedAfter(st, trace, w)
  {
    WalkServed(st, o, mem, stop);
  }

  /** The update that a stop begins. */
  lemma {:induction false} StopServed(st: Status, pkt: Packet, mem: Memory, stop: Packet)
    requires st.waiting == [Transfer(pkt, true, StopReply)] && Valid(pkt) && KindOf(pkt) == Dat
    requires st.t.negotiation.avail && SymbolTable.Consistent(st.t.negotiation)
    requires NarrowSymbols(Setting(st.t).symbols)
    requires Valid(stop) && KindOf(stop) == Dat && IsStopReply(stop)
    ensures Served(st, mem, stop, UpdateLength(st.t, mem)) == Updated(st, mem, stop)
  {
    WalkAfterStop(st, mem, stop);
    StopThenServed(st, mem, stop, UpdateLength(st.t, mem) - 1);
  }

  lemma {:induction false} StopThenServed(st: Status, mem: Memory, stop: Packet, n: nat)
    requires Waits(st) && st.waiting[0].next == StopReply && st.waiting[0].internal && st.t.negotiation.avail
    requires Valid(stop) && KindOf(stop) == Dat && IsStopReply(stop)
    ensures Served(st, mem, stop, 1 + n) == Served(Begun(WithStop(st, stop)), mem, stop, n)
  {
    StopAnswered(st, stop);
    ServedOne(st, mem, stop, n);
  }

  lemma {:induction false} WalkAfterStop(st: Status, mem: Memory, stop: Packet)
    requires NarrowSymbols(Setting(st.t).symbols) && SymbolTable.Consistent(st.t.negotiation)
    requires Valid(stop) && KindOf(stop) == Dat && IsStopReply(stop)
    ensures Served(Begun(WithStop(st, stop)), mem, stop, UpdateLength(st.t, mem) - 1)
            == EndedAfter(WithStop(st, stop), UpdateTrace(st.t, mem), UpdatedTable(st.t, mem))
  {
    SameUpdate(st.t, stop, mem);
    BeginServed(WithStop(st, stop), mem, stop);
  }

  /** The stop reply is stored. */
  function WithStop(st: Status, stop: Packet): Status {
    st.(t := st.t.(stopReply := stop))
  }

  /** The first read of an update waits. */
  function Begun(st: Status): Status {
    Asking(st, Begin(Setting(st.t), st.t.walk.ids))
  }

  lemma {:induction false} BeginServed(st: Status, mem: Memory, stop: Packet)
    requires HasStopReply(st.t) && NarrowSymbols(Setting(st.t).symbols)
    requires SymbolTable.Consistent(st.t.negotiation)
    ensures Served(Begun(st), mem, stop, UpdateLength(st.t, mem) - 1)
            == EndedAfter(st, UpdateTrace(st.t, mem), UpdatedTable(st.t, mem))
  {
    BeginNarrow(Setting(st.t), st.t.walk.ids);
    UpdateReads(st.t, mem);
    OngoingServed(st, Begin(Setting(st.t), st.t.walk.ids), mem, stop, UpdateLength(st.t, mem) - 1,
                  UpdateTrace(st.t, mem), UpdatedTable(st.t, mem));
  }

  lemma {:induction false} UpdateReads(t: Target, mem: Memory)
    ensures var env, o := Setting(t), Begin(Setting(t), t.walk.ids);
            && UpdateLength(t, mem) - 1 == Reads(env, o, mem) && UpdatedTable(t, mem) == Play(env, o, mem)
            && UpdateTrace(t, mem) == Trace(env, o, mem)
  {
  }

  lemma {:induction false} SameUpdate(t: Target, stop: Packet, mem: Memory)
    ensures var t' := t.(stopReply := stop);
            && UpdateLength(t', mem) == UpdateLength(t, mem) && UpdatedTable(t', mem) == UpdatedTable(t, mem)
            && UpdateTrace(t', mem) == UpdateTrace(t, mem)
  {
  }

  lemma {:induction false} ServedOne(st: Status, mem: Memory, stop: Packet, n: nat)
    requires Waits(st) && Answerable(st, Reply(mem, stop, st.waiting[0]))
    ensures Served(st, mem, stop, 1 + n) == Served(Respond(st, Reply(mem, stop, st.waiting[0])), mem, stop, n)
  {
  }

  lemma {:induction false} StopAnswered(st: Status, stop: Packet)
    requires Waits(st) && st.waiting[0].next == StopReply && st.waiting[0].internal && st.t.negotiation.avail
    requires Valid(stop) && KindOf(stop) == Dat && IsStopReply(stop)
    ensures Answerable(st, stop)
    ensures Respond(st, stop) == Begun(WithStop(st, stop))
  {
    StopBegins(st.t, stop);
  }

  lemma {:induction false} StopBegins(t: Target, stop: Packet)
    requires t.negotiation.avail && Valid(stop) && IsStopReply(stop)
    ensures Acceptable(t, StopReply, stop) && HasStopReply(t.(stopReply := stop))
    ensures Callback(t, StopReply, stop) == Continue(t.(stopReply := stop), Begin(Setting(t), t.walk.ids))
  {
  }

  /** Without an RTOS the stop reply goes to the client at once, with the selected thread in it, and the table
      stays as it is. */
  lemma {:induction false} StopWithoutRtos(st: Status, stop: Packet)
    requires Waits(st) && st.waiting[0].next == StopReply && st.waiting[0].internal && !st.t.negotiation.avail
    requires Valid(stop) && KindOf(stop) == Dat && IsStopReply(stop)
    ensures Answerable(st, stop)
    ensures Respond(st, stop)
            == st.(waiting := [], sent := st.sent + [Built(Rewritten(DataOf(stop), Label(st.t.selected)))],
                   t := st.t.(stopReply := FRESH))
  {
  }

  /** How many responses an update takes: the stop reply and the reads of the walk. */
  function UpdateLength(t: Target, mem: Memory): (n: nat)
    ensures n > 0
  {
    1 + Reads(Setting(t), Begin(Setting(t), t.walk.ids), mem)
  }

  function UpdateTrace(t: Target, mem: Memory): seq<Read> {
    Trace(Setting(t), Begin(Setting(t), t.walk.ids), mem)
  }

  function UpdatedTable(t: Target, mem: Memory): Walk {
    Play(Setting(t), Begin(Setting(t), t.walk.ids), mem)
  }

  /** The client resumes the target; the target stops; the proxy walks the task lists in its memory,
      every request and reply going through packets, with any write completions, acknowledgements and
      breaks in between; and once the last read is answered the client has its stop reply, once, the
      target has got the client's packet and the reads of the walk in order and no other request, and the
      table is the plain enumeration of the task lists. */
  lemma {:induction false} StopWithTable(s: Session, pkt: Packet, stop: Packet, mem: Memory, events: seq<Event>)
    requires Good(s) && Possible(s, FromClient(pkt)) && KindOf(pkt) == Dat && Resumes(DataOf(pkt))
    requires s.t.negotiation.avail && NarrowSymbols(s.t.negotiation.symbols)
    requires Valid(stop) && KindOf(stop) == Dat && IsStopReply(stop)
    requires Good(OnRequest(s, pkt)) && PossibleRun(OnRequest(s, pkt), events)
    requires Serving(OnRequest(s, pkt), mem, stop, events)
    ensures Responses(events) <= UpdateLength(s.t, mem)
    ensures var e := StatusOf(Run(OnRequest(s, pkt), events));
            Responses(events) == UpdateLength(s.t, mem) ==>
            && e.waiting == [] && e.seqNo == s.seqNo + 1
            && e.sent == StatusOf(s).sent + [Built(Rewritten(DataOf(stop), Label(s.t.selected)))]
            && e.asked == StatusOf(s).asked + [pkt] + Requests(UpdateTrace(s.t, mem))
            && SameTable(e.t.walk, Enumeration(Setting(s.t), mem, s.t.walk.ids))
  {
    RequestStatus(s, pkt);
    ResumeWaits(StatusOf(s), pkt);
    StopRun(OnRequest(s, pkt), pkt, mem, stop, events);
    UpdateShows(StatusOf(OnRequest(s, pkt)), mem, stop);
  }

  /** The status once the update is complete. */
  function Updated(st: Status, mem: Memory, stop: Packet): Status
    requires Valid(stop) && IsStopReply(stop)
  {
    EndedAfter(WithStop(st, stop), UpdateTrace(st.t, mem), UpdatedTable(st.t, mem))
  }

  lemma {:induction false} UpdateShows(st: Status, mem: Memory, stop: Packet)
    requires Valid(stop) && IsStopReply(stop)
    ensures var e := Updated(st, mem, stop);
            && e.waiting == [] && e.seqNo == st.seqNo
            && e.sent == st.sent + [Built(Rewritten(DataOf(stop), Label(st.t.selected)))]
            && e.asked == st.asked + Requests(UpdateTrace(st.t, mem))
            && SameTable(e.t.walk, Enumeration(Setting(st.t), mem, st.t.walk.ids))
  {
    WalkRefinesEnumeration(Setting(st.t), mem, st.t.walk.ids);
  }

  lemma {:induction false} StopRun(s: Session, pkt: Packet, mem: Memory, stop: Packet, events: seq<Event>)
    requires Good(s) && PossibleRun(s, events) && Serving(s, mem, stop, events)
    requires StatusOf(s).waiting == [Transfer(pkt, true, StopReply)] && Valid(pkt) && KindOf(pkt) == Dat
    requires s.t.negotiation.avail && NarrowSymbols(s.t.negotiation.symbols)
    requires Valid(stop) && KindOf(stop) == Dat && IsStopReply(stop)
    ensures Responses(events) <= UpdateLength(s.t, mem)
    ensures Responses(events) == UpdateLength(s.t, mem) ==>
              StatusOf(Run(s, events)) == Updated(StatusOf(s), mem, stop)
  {
    StopServed(StatusOf(s), pkt, mem, stop);
    OnlyResponsesMatter(s, mem, stop, events);
    ServedNoMore(s, mem, stop, events, UpdateLength(s.t, mem));
  }

  /** A halted target answers the whole of an infinite run. */
  ghost predicate AlwaysServing(s: Session, mem: Memory, stop: Packet, events: nat -> Event)
    requires Good(s) && AlwaysPossible(s, events)
  {
    forall n: nat :: Serving(s, mem, stop, Prefix(events, n))
  }

  /** The stop reply and the table are reached in every run in which the halted target goes on responding. */
  lemma {:induction false} StopReached(s: Session, pkt: Packet, mem: Memory, stop: Packet,
                                       events: nat -> Event, next: nat -> nat)
      returns (n: nat)
    requires Good(s) && AlwaysPossible(s, events) && Responsive(s, events, next)
    requires AlwaysServing(s, mem, stop, events)
    requires StatusOf(s).waiting == [Transfer(pkt, true, StopReply)] && Valid(pkt) && KindOf(pkt) == Dat
    requires s.t.negotiation.avail && NarrowSymbols(s.t.negotiation.symbols)
    requires Valid(stop) && KindOf(stop) == Dat && IsStopReply(stop)
    ensures StatusAt(s, events, n) == Updated(StatusOf(s), mem, stop)
  {
    n := AnswerComes(s, events, next);
    var es := Prefix(events, n);
    assert PossibleRun(s, es) && Serving(s, mem, stop, es);
    OnlyResponsesMatter(s, mem, stop, es);
    StopServed(StatusOf(s), pkt, mem, stop);
    ServedNoMore(s, mem, stop, es, UpdateLength(s.t, mem));
    ServedStays(StatusOf(s), mem, stop, Responses(es), UpdateLength(s.t, mem));
  }

  /** What is served when nothing waits any more stays so. */
  lemma {:induction false} ServedStays(st: Status, mem: Memory, stop: Packet, k: nat, n: nat)
    requires k <= n && Served(st, mem, stop, k).waiting == []
    ensures Served(st, mem, stop, n) == Served(st, mem, stop, k)
    decreases k
  {
    if k > 0 {
      ServedStays(ServedOnce(st, mem, stop), mem, stop, k - 1, n - 1);
    } else {
      ServedIdle(st, mem, stop, n);
    }
  }

  lemma {:induction false} ServedIdle(st: Status, mem: Memory, stop: Packet, n: nat)
    requires st.waiting == []
    ensures Served(st, mem, stop, n) == st
    decreases n
  {
    if n > 0 {
      ServedIdle(st, mem, stop, n - 1);
    }
  }

  lemma {:induction false} ResumeWaits(st: Status, pkt: Packet)
    requires Readable(pkt) && KindOf(pkt) == Dat && SymbolTable.Consistent(st.t.negotiation)
    requires Resumes(DataOf(pkt))
    ensures Request(st, pkt)
            == Status([Transfer(pkt, true, StopReply)], st.sent, st.t, st.seqNo + 1, st.asked + [pkt])
  {
    ResumeRouted(st.t, pkt);
  }

  /** Such runs can always go on: when no write is pending, the response that a walk waits for is possible. */
  lemma {:induction false} ServingGoesOn(s: Session, mem: Memory, stop: Packet)
    requires Good(s) && Controls(s.q) == 0 && s.q.requests != []
    requires IsWalk(s.q.requests[0].next) || (s.q.requests[0].next == StopReply && IsStopReply(stop))
    requires Valid(stop) && KindOf(stop) == Dat
    ensures Waits(StatusOf(s)) && StatusOf(s).waiting[0] == s.q.requests[0]
    ensures var pkt := Reply(mem, stop, s.q.requests[0]);
            IsResponse(FromTarget(pkt)) && Possible(s, FromTarget(pkt))
  {
    GoodWaits(s);
    AnswerIsData(mem, s.q.requests[0].pkt);
  }

  lemma {:induction false} AnswerIsData(mem: Memory, request: Packet)
    requires Valid(request)
    ensures Valid(Answer(mem, request)) && KindOf(Answer(mem, request)) == Dat
  {
    match DecodeRead(DataOf(request))
    case None => BuiltIsData("E01");
    case Some((a, n)) => BuiltIsData(HexOf(BytesAt(mem, a, n)));
  }
}
