/** What a client sees across several requests. */
module Dialogues {
  import opened Text
  import opened Hex
  import opened Packet
  import opened ThreadIds
  import opened Walks
  import opened StopReplies
  import opened SymbolTable
  import opened Connections
  import opened TargetModel
  import opened Routing
  import opened Memories
  import opened WalkRuns
  import opened WalkRefines
  import opened WalkTables
  import opened Kernels
  import opened IdMaps
  import opened ListedIds
  import opened TableIds
  import opened Sessions
  import opened Updates

  // ------------------------------------------------------- the table in all runs

  /** The table of a session, tame as `k` events can leave it; its last row is incomplete only while the
      name is being read. */
  predicate TableTame(st: Status, k: nat) {
    Tame(st.t.walk, k, if |st.waiting| == 1 then st.waiting[0].next else NoCallback)
  }

  lemma {:induction false} EventTame(s: Session, e: Event, k: nat)
    requires Good(s) && Possible(s, e) && TableTame(StatusOf(s), k) && k + 3 < TWO_63
    ensures Good(Happen(s, e)) && TableTame(StatusOf(Happen(s, e)), k + 1)
  {
    EventKeepsGood(s, e);
    if IsRequest(e) {
      RequestStatus(s, e.pkt);
      RequestKeepsWalk(s, e.pkt);
      RequestSteady(StatusOf(s), e.pkt);
    } else if IsResponse(e) {
      ResponseStatus(s, e.pkt);
      RespondTame(StatusOf(s), e.pkt, k);
    } else {
      ControlEvent(s, e);
    }
  }

  /** No request of a client makes a callback of the walk wait. */
  lemma {:induction false} RequestSteady(st: Status, pkt: Packet)
    requires Readable(pkt) && SymbolTable.Consistent(st.t.negotiation) && KindOf(pkt) == Dat
    ensures var st' := Request(st, pkt);
            st'.waiting != [] ==> |st'.waiting| == 1 && Steady(st'.waiting[0].next)
  {
    var data := DataOf(pkt);
    if data != "" && data[0] == 'q' {
      QueryEffectGood(st.t, pkt);
    }
  }

  lemma {:induction false} RespondTame(st: Status, pkt: Packet, k: nat)
    requires Answerable(st, pkt) && TableTame(st, k) && k + 3 < TWO_63
    ensures TableTame(Respond(st, pkt), k + 1)
  {
    CallbackHasOneEffect(st.t, st.waiting[0], pkt);
    if st.waiting[0].internal && IsWalk(st.waiting[0].next) {
      WalkResponse(st, pkt);
      StepTame(Setting(st.t), Pending(st.t, st.waiting[0].next), DataOf(pkt), k);
    }
  }

  lemma {:induction false} TablesInAllRuns(start: Session, events: seq<Event>, k: nat)
    requires Good(start) && PossibleRun(start, events)
    requires TableTame(StatusOf(start), k) && k + |events| + 3 < TWO_63
    ensures TableTame(StatusOf(Run(start, events)), k + |events|)
    decreases |events|
  {
    if events != [] {
      EventTame(start, events[0], k);
      TablesInAllRuns(Happen(start, events[0]), events[1..], k + 1);
    }
  }

  lemma {:induction false} NewTableTame()
    ensures TableTame(StatusOf(NEW_SESSION), 0)
  {
    SmallTid(false, CURRENT_EXECUTION, 0);
  }

  /** When the client may send a data request, no name is being read. */
  lemma {:induction false} TableWhenAsked(s: Session, pkt: Packet, k: nat)
    requires Good(s) && Possible(s, FromClient(pkt)) && KindOf(pkt) == Dat && TableTame(StatusOf(s), k)
    ensures Tame(s.t.walk, k, NoCallback)
  {
    RequestStatus(s, pkt);
  }

  // -------------------------------------------------------------- what a client sees

  /** A client that decodes the thread list gets every row's id, in order. */
  lemma {:induction false} ThreadListDecodes(t: Target, k: nat)
    requires t.walk.count != 0 && t.walk.info != [] && Tame(t.walk, k, NoCallback)
    ensures ListShown(t, DataOf(Built(ThreadListText(t))))
  {
    var ids := Ids(t.walk.info);
    ListPlain(ids);
    BuiltPlain(ThreadListText(t));
    Head('m', Join(Texts(ids), ','));
    assert forall i :: 0 <= i < |ids| ==> GoodRow(t.walk.info[i], k);
    ListRoundTrip(ids);
  }

  lemma {:induction false} JoinPlain(parts: seq<string>)
    requires forall i :: 0 <= i < |parts| ==> Plain(parts[i])
    ensures Plain(Join(parts, ','))
    decreases |parts|
  {
    if |parts| > 1 {
      JoinPlain(parts[1..]);
    }
  }

  lemma ListPlain(ids: seq<ThreadId>)
    ensures Plain("m" + Join(Texts(ids), ','))
  {
    forall i | 0 <= i < |ids| ensures Plain(Texts(ids)[i]) {
      ToTextChars(ids[i]);
    }
    JoinPlain(Texts(ids));
  }

  /** What a client decodes from a packet of hexadecimal text. */
  function Decoded(p: Packet, size: nat): string
    requires Valid(p)
  {
    Chars(BytesOf(DataOf(p), size))
  }

  /** The client asks for the extra information of row `i` by its id: unless the id is that of the
      current execution, it gets one packet that decodes to the name and state of the first row with
      that id, and that is row `i` when ids do not repeat. */
  lemma {:induction false} ExtraInfoDecodes(t: Target, i: nat, k: nat)
    requires t.negotiation.avail && t.walk.count != 0 && i < |t.walk.info| && Tame(t.walk, k, NoCallback)
    ensures var info, id := t.walk.info, t.walk.info[i].id;
            var e := OnExtraInfo(t, "qThreadExtraInfo," + ToText(id));
            var j := FindRow(info, Parse(ToText(id)), 0);
            if Equal(Parse(ToText(id)), Current(t)) then e == Forward(t)
            else
              && j <= i && Equal(Parse(ToText(id)), info[j].id)
              && ((forall r :: 0 <= r < i ==> info[r].id.tid != id.tid) ==> j == i)
              && e.target == t && e.handled && |e.outputs| == 1 && e.outputs[0].ToClient? && Valid(e.outputs[0].pkt)
              && Decoded(e.outputs[0].pkt, |ExtraText(info[j])|) == ExtraText(info[j])
  {
    var info, id := t.walk.info, t.walk.info[i].id;
    assert GoodRow(info[i], k);
    TextRoundTrip(id);
    Parts("qThreadExtraInfo,", ToText(id));
    FirstRow(info, Parse(ToText(id)), i, 0);
    var j := FindRow(info, Parse(ToText(id)), 0);
    assert GoodRow(info[j], k);
    ExtraTextBytes(info[j]);
    TextThroughPacket(ExtraText(info[j]));
  }

  lemma {:induction false} FirstRow(info: seq<ThreadInfo>, id: ThreadId, i: nat, k: nat)
    requires k <= i < |info| && Equal(id, info[i].id)
    ensures var j := FindRow(info, id, k); k <= j <= i && Equal(id, info[j].id)
    decreases i - k
  {
    if !Equal(id, info[k].id) {
      FirstRow(info, id, i, k + 1);
    }
  }

  lemma {:induction false} ExtraTextBytes(row: ThreadInfo)
    requires IsText(row.name) && (row.extra == "" || row.extra == "State: Running")
    ensures IsText(ExtraText(row))
  {
  }

  /** Every listed thread is reported alive when the client asks for it by its listed name; the current
      execution is left to the target. */
  lemma {:induction false} ListedThreadsAlive(t: Target, i: nat, k: nat)
    requires t.negotiation.avail && t.walk.count != 0 && i < |t.walk.info| && Tame(t.walk, k, NoCallback)
    ensures var id := t.walk.info[i].id;
            var e := OnThreadAlive(t, "T" + ToText(id));
            if Equal(Parse(ToText(id)), Current(t)) then e == Forward(t) else e == Handle(t, "OK")
  {
    var id := t.walk.info[i].id;
    assert GoodRow(t.walk.info[i], k);
    Head('T', ToText(id));
    TextRoundTrip(id);
    assert Equal(t.walk.info[i].id, Parse(ToText(id)));
  }

  /** The three answers in every reachable state (`TablesInAllRuns`), whatever the target's replies were:
      the client can decode the thread list, and by every listed id it gets a thread's text and finds the
      thread alive. */
  lemma {:induction false} TableShown(s: Session, pkt: Packet, i: nat, k: nat)
    requires Good(s) && Possible(s, FromClient(pkt)) && KindOf(pkt) == Dat && TableTame(StatusOf(s), k)
    requires s.t.negotiation.avail && s.t.walk.count != 0 && i < |s.t.walk.info|
    ensures AnswersShown(s.t, pkt, i)
  {
    TableWhenAsked(s, pkt, k);
    ThreadListDecodes(s.t, k);
    ExtraInfoDecodes(s.t, i, k);
    ListedThreadsAlive(s.t, i, k);
    QueriesRouted(s.t, pkt);
  }

  /** What the target does with each of the three requests. */
  lemma {:induction false} QueriesRouted(t: Target, pkt: Packet)
    requires Readable(pkt) && KindOf(pkt) == Dat && SymbolTable.Consistent(t.negotiation)
    ensures "qfThreadInfo" <= DataOf(pkt) && t.negotiation.avail ==>
              ProcessRequest(t, pkt) == Handle(t, ThreadListText(t))
    ensures "qThreadExtraInfo," <= DataOf(pkt) ==> ProcessRequest(t, pkt) == OnExtraInfo(t, DataOf(pkt))
    ensures DataOf(pkt) != "" && DataOf(pkt)[0] == 'T' ==> ProcessRequest(t, pkt) == OnThreadAlive(t, DataOf(pkt))
  {
    var data := DataOf(pkt);
    if |data| > 1 && data[0] == 'q' {
      SecondLetter(data);
    }
  }

  lemma {:induction false} SecondLetter(data: string)
    requires |data| > 1
    ensures "qSupported" <= data ==> data[1] == 'S'
    ensures "qfThreadInfo" <= data ==> data[1] == 'f'
    ensures "qThreadExtraInfo," <= data ==> data[1] == 'T'
  {
  }

  /** Asking by listed ids reaches each row if and only if the ids differ. */
  lemma {:induction false} EachRowFoundIff(t: Target, k: nat)
    requires Tame(t.walk, k, NoCallback)
    ensures (forall i :: 0 <= i < |t.walk.info| ==> RowFound(t.walk.info, i)) <==> RowsDiffer(t.walk.info)
  {
    var info := t.walk.info;
    if RowsDiffer(info) {
      forall i | 0 <= i < |info| ensures RowFound(info, i) {
        OwnRowFound(info, i, k);
      }
    } else {
      var i, j :| 0 <= i < j < |info| && info[i].id.tid == info[j].id.tid;
      EarlierRowFound(info, i, j, k);
    }
  }

  lemma {:induction false} ListedIdEquals(info: seq<ThreadInfo>, i: nat, j: nat, k: nat)
    requires GoodRows(info, k) && i < |info| && j < |info|
    ensures Equal(Parse(ToText(info[j].id)), info[i].id) <==> info[i].id.tid == info[j].id.tid
  {
    assert GoodRow(info[i], k) && GoodRow(info[j], k);
    TextRoundTrip(info[j].id);
  }

  lemma {:induction false} OwnRowFound(info: seq<ThreadInfo>, i: nat, k: nat)
    requires GoodRows(info, k) && RowsDiffer(info) && i < |info|
    ensures RowFound(info, i)
  {
    ListedIdEquals(info, i, i, k);
    FirstRow(info, Parse(ToText(info[i].id)), i, 0);
    ListedIdEquals(info, FindRow(info, Parse(ToText(info[i].id)), 0), i, k);
  }

  lemma {:induction false} EarlierRowFound(info: seq<ThreadInfo>, i: nat, j: nat, k: nat)
    requires GoodRows(info, k) && i < j < |info| && info[i].id.tid == info[j].id.tid
    ensures !RowFound(info, j)
  {
    ListedIdEquals(info, i, j, k);
    FirstRow(info, Parse(ToText(info[j].id)), i, 0);
  }

  /** The first row that answers to the listed id of row `i` is row `i`. */
  predicate RowFound(info: seq<ThreadInfo>, i: nat)
    requires i < |info|
  {
    FindRow(info, Parse(ToText(info[i].id)), 0) == i
  }

  /** After a stop, whatever else happened during the walk: the listed ids agree with the map if and only if
      every task listed before was spared, and they also lead a client to every row if and only if every
      arrival was clean. */
  lemma {:induction false} StopListsIff(s: Session, pkt: Packet, stop: Packet, mem: Memory, events: seq<Event>, k: nat)
    requires Good(s) && Possible(s, FromClient(pkt)) && KindOf(pkt) == Dat && Resumes(DataOf(pkt))
    requires s.t.negotiation.avail && NarrowSymbols(s.t.negotiation.symbols)
    requires Valid(stop) && KindOf(stop) == Dat && IsStopReply(stop)
    requires Good(OnRequest(s, pkt)) && PossibleRun(OnRequest(s, pkt), events)
    requires Serving(OnRequest(s, pkt), mem, stop, events)
    ensures var ids, tasks := s.t.walk.ids, AllTasks(s.t.negotiation.symbols, mem);
            Responses(events) == UpdateLength(s.t, mem)
            && Sorted(ids) && SmallIds(ids, k) && k + |tasks| + 4 < TWO_63 ==>
              IdsShown(StatusOf(Run(OnRequest(s, pkt), events)).t.walk, ListingIds(Setting(s.t), mem, ids), tasks)
  {
    StopWithTable(s, pkt, stop, mem, events);
    var ids, tasks := s.t.walk.ids, AllTasks(s.t.negotiation.symbols, mem);
    if Responses(events) == UpdateLength(s.t, mem) && Sorted(ids) && SmallIds(ids, k)
       && k + |tasks| + 4 < TWO_63
    {
      UpdateIdsIff(Setting(s.t), mem, ids, k);
      SameRows(StatusOf(Run(OnRequest(s, pkt), events)).t.walk, Enumeration(Setting(s.t), mem, ids));
    }
  }

  /** And the table shows every task of the RTOS: the reads of the walk go to its lists in order, and there is a
      row for each task, with name and state. */
  lemma {:induction false} StopShowsTasks(s: Session, pkt: Packet, stop: Packet, mem: Memory, events: seq<Event>,
                                          k: Kernel, elems: seq<seq<u64>>, tasks: seq<seq<u64>>)
    requires Good(s) && Possible(s, FromClient(pkt)) && KindOf(pkt) == Dat && Resumes(DataOf(pkt))
    requires s.t.negotiation.avail && NarrowSymbols(s.t.negotiation.symbols)
    requires Valid(stop) && KindOf(stop) == Dat && IsStopReply(stop)
    requires Good(OnRequest(s, pkt)) && PossibleRun(OnRequest(s, pkt), events)
    requires Serving(OnRequest(s, pkt), mem, stop, events)
    ensures Responses(events) == UpdateLength(s.t, mem)
            && Describes(s.t.negotiation.symbols, mem, k) && KernelIn(mem, k, elems, tasks)
            && WordAt(mem, k.tasksNumber) != 0 ==>
              && TableShows(StatusOf(Run(OnRequest(s, pkt), events)).t.walk, mem, s.t.multiprocess,
                            WordAt(mem, k.currentTcb), Flat(tasks))
              && CountsOf(UpdateTrace(s.t, mem)) == NotNull(AllLists(k))
  {
    StopWithTable(s, pkt, stop, mem, events);
    var env, ids := Setting(s.t), s.t.walk.ids;
    if Responses(events) == UpdateLength(s.t, mem)
       && Describes(s.t.negotiation.symbols, mem, k) && KernelIn(mem, k, elems, tasks)
       && WordAt(mem, k.tasksNumber) != 0
    {
      EnumerationOfKernel(env, mem, ids, k, elems, tasks);
      ListsRead(env, mem, ids, k);
      SameTableShown(StatusOf(Run(OnRequest(s, pkt), events)).t.walk, Enumeration(env, mem, ids), mem,
                     s.t.multiprocess, WordAt(mem, k.currentTcb), Flat(tasks));
    }
  }

  /** A table of `tasks`, listed with the map `m`, shows the right ids exactly under these conditions. */
  predicate IdsShown(w: Walk, m: seq<Entry>, tasks: seq<u64>) {
    && (RowsAgree(w) <==> AllSpare(m, [], tasks))
    && (RowsAgree(w) && RowsDiffer(w.info) <==> AllClean(m, [], tasks))
  }

  lemma {:induction false} SameRows(a: Walk, b: Walk)
    requires SameTable(a, b)
    ensures RowsAgree(a) == RowsAgree(b) && RowsDiffer(a.info) == RowsDiffer(b.info)
  {
  }

  /** The list of a table with the ids 1, 3 and 3, as a first update can leave it (`FirstTableCollides`). */
  lemma {:induction false} CollidingList(t: Target)
    requires t.walk.count != 0 && |t.walk.info| == 3
    requires t.walk.info[0].id == ThreadId(false, 1, 1)
    requires t.walk.info[1].id == t.walk.info[2].id == ThreadId(false, 1, 3)
    ensures ThreadListText(t) == "m1,3,3"
  {
    var texts := Texts(Ids(t.walk.info));
    assert HexText(1) == "1" && HexText(3) == "3";
    assert texts == ["1", "3", "3"];
    assert texts[1..] == ["3", "3"] && texts[1..][1..] == ["3"];
    assert Join(["3", "3"], ',') == "3,3";
  }

  /** The request by which a client asks about row `i`, and the answer that shows it. */
  predicate AnswersShown(t: Target, pkt: Packet, i: nat)
    requires Readable(pkt) && SymbolTable.Consistent(t.negotiation) && i < |t.walk.info|
  {
    var data, id, e := DataOf(pkt), ToText(t.walk.info[i].id), ProcessRequest(t, pkt);
    && ("qfThreadInfo" <= data ==>
          e == Handle(t, ThreadListText(t)) && ListShown(t, DataOf(Built(ThreadListText(t)))))
    && (data == "qThreadExtraInfo," + id && !Equal(Parse(id), Current(t)) ==>
          InfoShown(t, e, FindRow(t.walk.info, Parse(id), 0)))
    && (data == "T" + id && !Equal(Parse(id), Current(t)) ==> e == Handle(t, "OK"))
  }

  predicate ListShown(t: Target, data: string) {
    && data != "" && data[0] == 'm'
    && var parts := Split(data[1..], ',');
       |parts| == |t.walk.info| && forall i :: 0 <= i < |parts| ==> Equal(Parse(parts[i]), t.walk.info[i].id)
  }

  predicate InfoShown(t: Target, e: Effect, j: nat) {
    && j < |t.walk.info| && |e.outputs| == 1 && e.outputs[0].ToClient? && Valid(e.outputs[0].pkt)
    && Decoded(e.outputs[0].pkt, |ExtraText(t.walk.info[j])|) == ExtraText(t.walk.info[j])
  }

  /** The thread that a client selects is the one named in every thread field of later stop replies. */
  lemma {:induction false} SelectionShown(t: Target, id: ThreadId, reply: string)
    requires id.tid >= ALL && id.pid >= ALL && |reply| >= 3
    ensures var selected := OnSelectThread(t, "Hg" + ToText(id)).target.selected;
            var fields := Fields(reply[3..]);
            var shown := Fields(Rewritten(reply, Label(selected))[3..]);
            && Equal(selected, id) && ToText(selected) == ToText(id)
            && |shown| == |fields|
            && forall i :: 0 <= i < |fields| ==>
                 shown[i] == if THREAD <= fields[i] then THREAD + ToText(id) + ";" else fields[i]
  {
    Parts("Hg", ToText(id));
    TextRoundTrip(id);
    var selected := OnSelectThread(t, "Hg" + ToText(id)).target.selected;
    assert selected == Parse(ToText(id));
    RewriteMeaning(reply, selected);
    RetagEach(Fields(reply[3..]), Label(selected));
  }

  // --------------------------------------------------------- symbol negotiation

  /** An answer to a symbol request. */
  predicate IsSymbolAnswer(data: string) {
    "qSymbol:" <= data && data != "qSymbol::"
  }

  /** The client answers symbol requests, one packet after the other. */
  function AnswerSymbols(t: Target, answers: seq<string>): (Target, seq<Output>)
    requires Consistent(t.negotiation)
    requires forall i :: 0 <= i < |answers| ==> IsSymbolAnswer(answers[i])
    decreases |answers|
  {
    if answers == [] then (t, [])
    else
      var e := OnSymbolQuery(t, answers[0]);
      SymbolQueryConsistent(t, answers[0]);
      var (t', rest) := AnswerSymbols(e.target, answers[1..]);
      (t', e.outputs + rest)
  }

  lemma SymbolQueryConsistent(t: Target, data: string)
    requires Consistent(t.negotiation)
    ensures Consistent(OnSymbolQuery(t, data).target.negotiation)
  {
    if "qSymbol:" <= data && t.negotiation.processing {
      StoreConsistent(t.negotiation, Address(data[8..]));
    }
  }

  /** The requests for symbols `from` up to the last one, and then the client's own request. */
  function RequestsFrom(from: nat): seq<Output>
    requires from <= SYM_COUNT
    decreases SYM_COUNT - from
  {
    if from == SYM_COUNT then [ToTarget(Transfer(Built("qSymbol::"), false, NoCallback))]
    else [ToClient(Built(SymbolRequest(from)))] + RequestsFrom(from + 1)
  }

  function AddressesOf(answers: seq<string>): (r: seq<u64>)
    requires forall i :: 0 <= i < |answers| ==> IsSymbolAnswer(answers[i])
    ensures |r| == |answers|
  {
    if answers == [] then []
    else
      assert IsSymbolAnswer(answers[0]);
      [Address(answers[0][8..])] + AddressesOf(answers[1..])
  }

  lemma {:induction false} AnswersInTurn(t: Target, answers: seq<string>)
    requires Consistent(t.negotiation) && t.negotiation.processing
    requires answers != [] && t.negotiation.current + |answers| == SYM_COUNT
    requires forall i :: 0 <= i < |answers| ==> IsSymbolAnswer(answers[i])
    ensures var (t', outputs) := AnswerSymbols(t, answers);
            && t' == t.(negotiation := AnswerAll(t.negotiation, AddressesOf(answers)))
            && outputs == RequestsFrom(t.negotiation.current + 1)
    decreases |answers|
  {
    var e := OnSymbolAnswer(t, answers[0]);
    assert OnSymbolQuery(t, answers[0]) == e;
    SymbolQueryConsistent(t, answers[0]);
    if |answers| == 1 {
      assert answers[1..] == [];
      assert AddressesOf(answers)[0] == Address(answers[0][8..]);
      Empty(e.outputs);
    } else {
      AnswersInTurn(e.target, answers[1..]);
      Head(Address(answers[0][8..]), AddressesOf(answers[1..]));
    }
  }

  /** The whole negotiation: `qSymbol::` is answered with the first symbol request, each of the first
      twelve answers with the next one, and only the thirteenth sends the client's request to the
      target, once. Slot `i` of the table then holds the value of answer `i`, and the RTOS is available
      exactly when every required symbol has a value. */
  lemma {:induction false} SymbolsNegotiated(t: Target, answers: seq<string>)
    requires Consistent(t.negotiation) && |answers| == SYM_COUNT
    requires forall i :: 0 <= i < |answers| ==> IsSymbolAnswer(answers[i])
    ensures var e := OnSymbolQuery(t, "qSymbol::");
            && e.outputs == [ToClient(Built(SymbolRequest(0)))]
            && Consistent(e.target.negotiation)
            && var (t', outputs) := AnswerSymbols(e.target, answers);
               && e.outputs + outputs == RequestsFrom(0)
               && !t'.negotiation.processing
               && t'.negotiation.symbols == AddressesOf(answers)
               && (t'.negotiation.avail <==> RequiredFound(AddressesOf(answers)))
  {
    var e := OnSymbolQuery(t, "qSymbol::");
    SymbolQueryConsistent(t, "qSymbol::");
    AnswersInTurn(e.target, answers);
    NegotiationEnds(AddressesOf(answers));
  }
}
