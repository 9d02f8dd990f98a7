/** The FreeRTOS target object: fields updated by a chain of callbacks. */
module Targets {
  import opened Text
  import opened Hex
  import opened Packet
  import opened GdbPackets
  import opened ThreadIds
  import opened IdMaps
  import opened Memories
  import opened Walks
  import opened StopReplies
  import opened SymbolTable
  import opened Connections
  import opened TargetModel

  /** The outputs sent in order. */
  function SendAll(q: Queues, outputs: seq<Output>): (r: Queues)
    ensures |r.requests| >= |q.requests|
    decreases |outputs|
  {
    if outputs == [] then q else SendAll(SendOne(q, outputs[0]), outputs[1..])
  }

  function SendOne(q: Queues, o: Output): Queues {
    match o
    case ToTarget(t) => SendRequest(q, t)
    case ToClient(p) => SendResponse(q, Transfer(p, true, NoCallback))
  }

  lemma SendSingle(q: Queues, o: Output)
    ensures SendAll(q, [o]) == SendOne(q, o)
  {
    assert [o][1..] == [];
  }

  /** The callback's own request, if it makes one, stays inside the request buffer. Only the context of
      a task is read with a size of two digits. */
  predicate CallbackInBuffer(next: Continuation, reply: Packet)
    requires Valid(reply)
  {
    next == StackPtr ==> InBuffer(ReplyWord(DataOf(reply)), Registers.CONTEXT_SIZE_NON_FPU)
  }

  /** That is so exactly for stack pointers below 2^60, so for every reply of the four bytes asked for. */
  lemma {:induction false} CallbackInBufferIff(next: Continuation, reply: Packet)
    requires Valid(reply)
    ensures CallbackInBuffer(next, reply)
            <==> (next == StackPtr ==> ReplyWord(DataOf(reply)) < 0x1000_0000_0000_0000)
    ensures |DataOf(reply)| <= 8 ==> CallbackInBuffer(next, reply)
  {
    RequestFits(ReplyWord(DataOf(reply)), Registers.CONTEXT_SIZE_NON_FPU);
    WordBelow(BytesOf(DataOf(reply), 8));
  }

  class TargetMbFreertos {
    const conn: Connection

    var multiprocess: bool

    var processSymbols: bool
    var currentSymbol: nat
    var rtosAvail: bool
    var symbols: Symbols

    var threadsCount: nat
    var currentThreadTcb: u64
    var currentThreadId: ThreadId
    var info: seq<ThreadInfo>
    var lists: seq<ThreadList>
    var listIt: nat
    var threadsMap: seq<Entry>

    var selected: ThreadId
    var stopReply: Packet
    var stackPtr: u64

    function WalkNow(): Walk
      reads this
    {
      Walk(threadsCount, currentThreadTcb, currentThreadId, info, lists, listIt, threadsMap)
    }

    function Value(): Target
      reads this
    {
      Target(multiprocess, Negotiation(processSymbols, currentSymbol, rtosAvail, symbols), WalkNow(),
             selected, stopReply, stackPtr)
    }

    /** The state is the effect's, and exactly its outputs were sent. */
    ghost predicate Became(e: Effect, q: Queues)
      reads this, conn
    {
      Value() == e.target && conn.Value() == SendAll(q, e.outputs)
    }

    constructor (conn: Connection)
      ensures this.conn == conn && Value() == NEW_TARGET
    {
      this.conn := conn;
      multiprocess := false;
      processSymbols, currentSymbol, rtosAvail, symbols := false, 0, false, NO_SYMBOLS;
      threadsCount, currentThreadTcb, currentThreadId := 1, CURRENT_EXECUTION, MakeThreadId(false, CURRENT_EXECUTION);
      info, lists, listIt, threadsMap := [CurrentExecution(false)], [], 0, [];
      selected := MakeThreadId(false, CURRENT_EXECUTION);
      stopReply, stackPtr := FRESH, 0;
    }

    // ---------------------------------------------------------- thread ids

    /** Finds or allocates the id of a task. The search changes the entry at the gap in place. */
    method GetThreadId(tcb: u64) returns (id: int)
      modifies this`threadsMap
      ensures (threadsMap, id) == Assign(old(threadsMap), tcb)
    {
      if Has(threadsMap, tcb) {
        return Lookup(threadsMap, tcb);
      }
      ghost var before := threadsMap;
      var startId := CURRENT_EXECUTION + 1;
      var k := 0;
      while k < |threadsMap|
        invariant 0 <= k <= |before| && startId == FIRST_ID + k
        invariant threadsMap == before && GapFrom(before, k) == Gap(before)
      {
        if threadsMap[k].id != startId {
          threadsMap := threadsMap[k := Entry(threadsMap[k].key, startId)];
          break;
        }
        startId, k := startId + 1, k + 1;
      }
      assert k == Gap(before) && threadsMap == Filled(before);
      id := startId + 1;
      threadsMap := Put(threadsMap, tcb, id);
    }

    // ------------------------------------------------------- reads of the walk

    /** Pushes a read request with the callback for its reply. */
    method PushRead(address: u64, size: u64, next: Continuation)
      requires size < 16 || InBuffer(address, size)
      modifies conn
      ensures conn.Value() == SendAll(old(conn.Value()), [ToTarget(ReadTransfer(Read(address, size, next)))])
    {
      RequestFits(address, size);
      var pkt := MemoryReadReq(address, size);
      SendSingle(conn.Value(), ToTarget(ReadTransfer(Read(address, size, next))));
      conn.PushInternalRequest(pkt.Value(), next);
    }

    method UpdateThreads()
      requires HasStopReply(Value())
      modifies this, conn
      ensures Became(TargetModel.UpdateThreads(old(Value())), old(conn.Value()))
    {
      if !rtosAvail {
        SendStopReply();
        return;
      }
      UpdateAsks(Value());
      ClearWalk();
      GetThreadsCount();
    }

    lemma UpdateAsks(t: Target)
      requires HasStopReply(t) && t.negotiation.avail
      ensures TargetModel.UpdateThreads(t) == Effect(
        t.(walk := NO_WALK.(ids := t.walk.ids)),
        [ToTarget(ReadTransfer(Read(t.negotiation.symbols[SYM_TASKS_NUMBER], THREAD_COUNTER_SIZE, ThreadsCount)))],
        true)
    {
    }

    method ClearWalk()
      modifies this
      ensures Value() == old(Value()).(walk := NO_WALK.(ids := old(threadsMap)))
    {
      threadsCount, currentThreadTcb, currentThreadId := 0, 0, ThreadId(false, 0, 0);
      info, lists, listIt := [], [], 0;
    }

    method GetThreadsCount()
      modifies conn
      ensures conn.Value() == SendAll(old(conn.Value()),
        [ToTarget(ReadTransfer(Read(symbols[SYM_TASKS_NUMBER], THREAD_COUNTER_SIZE, ThreadsCount)))])
    {
      PushRead(symbols[SYM_TASKS_NUMBER], THREAD_COUNTER_SIZE, ThreadsCount);
    }

    method OnThreadsCount(val: u64)
      modifies this, conn
      ensures Value() == old(Value()).(walk := old(WalkNow()).(count := val))
      ensures conn.Value() == SendAll(old(conn.Value()),
        [ToTarget(ReadTransfer(Read(symbols[SYM_CURRENT_TCB], POINTER_SIZE, CurrentThread)))])
    {
      threadsCount := val;
      GetCurrentThread();
    }

    method GetCurrentThread()
      modifies conn
      ensures conn.Value() == SendAll(old(conn.Value()),
        [ToTarget(ReadTransfer(Read(symbols[SYM_CURRENT_TCB], POINTER_SIZE, CurrentThread)))])
    {
      PushRead(symbols[SYM_CURRENT_TCB], POINTER_SIZE, CurrentThread);
    }

    method OnCurrentThread(val: u64)
      requires HasStopReply(Value())
      modifies this, conn
      ensures Became(Continue(old(Value()), Walks.OnCurrentThread(Setting(old(Value())), old(WalkNow()), val)),
                     old(conn.Value()))
    {
      SetCurrent(val);
      if threadsCount == 1 {
        UpdateThreadsDone();
        return;
      }
      GetThreadListsCount();
    }

    /** Records the running task and opens the table with the current execution. */
    method SetCurrent(val: u64)
      modifies this
      ensures Value() == old(Value()).(walk := WithCurrent(Setting(old(Value())), old(WalkNow()), val))
    {
      currentThreadTcb := val;
      if val != 0 {
        var id := GetThreadId(val);
        currentThreadId := MakeThreadId(multiprocess, id);
      }
      threadsCount := (threadsCount + 1) % TWO_64;
      AddCurrentExecution();
    }

    method AddCurrentExecution()
      modifies this`info
      ensures info == old(info) + [CurrentExecution(multiprocess)]
    {
      info := info + [CurrentExecution(multiprocess)];
    }

    method GetThreadListsCount()
      requires HasStopReply(Value())
      modifies this, conn
      ensures Became(Continue(old(Value()), AskLists(Setting(old(Value())), old(WalkNow()))), old(conn.Value()))
    {
      var address: u64;
      if symbols[SYM_TOP_USED_PRIORITY] != 0 {
        address := symbols[SYM_TOP_USED_PRIORITY];
      } else if symbols[SYM_TOP_READY_PRIORITY] != 0 {
        address := symbols[SYM_TOP_READY_PRIORITY];
      } else {
        ProcessReadyLists(MAX_PRIORITIES);
        return;
      }
      PushRead(address, THREAD_COUNTER_SIZE, TopPriority);
    }

    method ProcessReadyLists(count: nat)
      requires HasStopReply(Value())
      modifies this, conn
      ensures Became(Continue(old(Value()), ScanLists(Setting(old(Value())), old(WalkNow()), count)), old(conn.Value()))
    {
      CollectLists(count);
      listIt := 0;
      GetThreadListData();
    }

    /** The lists to scan: the ready lists and the five others. */
    method CollectLists(count: nat)
      modifies this`lists
      ensures lists == NewLists(Addresses(symbols, count))
    {
      ghost var addresses := Addresses(symbols, count);
      lists := [];
      var i := 0;
      while i < count
        invariant 0 <= i <= count
        invariant lists == NewLists(addresses[..i])
      {
        lists := lists + [NewList((symbols[SYM_READY_LISTS] + i * LIST_WIDTH) % TWO_64)];
        i := i + 1;
      }
      lists := lists + [NewList(symbols[SYM_DELAYED_1])];
      lists := lists + [NewList(symbols[SYM_DELAYED_2])];
      lists := lists + [NewList(symbols[SYM_PENDING_READY])];
      lists := lists + [NewList(symbols[SYM_TERMINATION])];
      lists := lists + [NewList(symbols[SYM_SUSPENDED])];
      assert lists == NewLists(addresses);
    }

    /** Skips lists without an address; behind the last list the update is done. */
    method GetThreadListData()
      requires HasStopReply(Value()) && listIt <= |lists|
      modifies this, conn
      ensures Became(Continue(old(Value()), NextList(old(WalkNow()))), old(conn.Value()))
    {
      while true
        invariant old(listIt) <= listIt <= |lists|
        invariant NextAddress(lists, listIt) == NextAddress(old(lists), old(listIt))
        invariant Value() == old(Value()).(walk := old(WalkNow()).(at := listIt))
        invariant conn.Value() == old(conn.Value())
        decreases |lists| - listIt
      {
        if listIt == |lists| {
          UpdateThreadsDone();
          return;
        }
        if lists[listIt].address == 0 {
          listIt := listIt + 1;
          continue;
        }
        break;
      }
      GetListThreadsCount();
    }

    method GetListThreadsCount()
      requires listIt < |lists|
      modifies conn
      ensures conn.Value() == SendAll(old(conn.Value()),
        [ToTarget(ReadTransfer(Read(lists[listIt].address, THREAD_COUNTER_SIZE, ListCount)))])
    {
      PushRead(lists[listIt].address, THREAD_COUNTER_SIZE, ListCount);
    }

    method OnListCount(val: u64)
      requires HasStopReply(Value()) && listIt < |lists|
      modifies this, conn
      ensures Became(Continue(old(Value()), Walks.OnListCount(old(WalkNow()), val)), old(conn.Value()))
    {
      lists := lists[listIt := lists[listIt].(count := val)];
      if lists[listIt].count == 0 {
        listIt := listIt + 1;
        GetThreadListData();
        return;
      }
      GetListElemPtr();
    }

    method GetListElemPtr()
      requires listIt < |lists|
      modifies conn
      ensures conn.Value() == SendAll(old(conn.Value()),
        [ToTarget(ReadTransfer(Read(Add64(lists[listIt].address, LIST_NEXT_OFFSET), POINTER_SIZE, ListElemPtr)))])
    {
      PushRead(Add64(lists[listIt].address, LIST_NEXT_OFFSET), POINTER_SIZE, ListElemPtr);
    }

    method OnElemPtr(val: u64)
      requires HasStopReply(Value()) && listIt < |lists|
      modifies this, conn
      ensures Became(Continue(old(Value()), Walks.OnElemPtr(old(WalkNow()), val)), old(conn.Value()))
    {
      lists := lists[listIt := lists[listIt].(elem := val)];
      GetListElemThreadId();
    }

    method GetListElemThreadId()
      requires HasStopReply(Value()) && listIt < |lists|
      modifies this, conn
      ensures Became(Continue(old(Value()), AtElem(old(WalkNow()))), old(conn.Value()))
    {
      var list := lists[listIt];
      var address := Add64(list.elem, LIST_ELEM_CONTENT_OFFSET);
      if list.count == 0 || list.elem == 0 || list.elem == list.prev {
        listIt := listIt + 1;
        GetThreadListData();
        return;
      }
      PushRead(address, POINTER_SIZE, ElemOwner);
    }

    method OnOwner(val: u64)
      requires HasStopReply(Value())
      modifies this, conn
      ensures Became(Continue(old(Value()), Walks.OnOwner(Setting(old(Value())), old(WalkNow()), val)),
                     old(conn.Value()))
    {
      AppendRow(val);
      GetListElemThreadName();
    }

    /** A row without a name, with the id of its task. */
    method AppendRow(tcb: u64)
      modifies this
      ensures Value() == old(Value()).(walk := Walks.OnOwner(Setting(old(Value())), old(WalkNow()), tcb).w)
      ensures info != [] && info[|info| - 1].tcb == tcb
    {
      var id := GetThreadId(tcb);
      info := info + [ThreadInfo(tcb, MakeThreadId(multiprocess, id), false, "", "")];
    }

    method GetListElemThreadName()
      requires info != []
      modifies conn
      ensures conn.Value() == SendAll(old(conn.Value()),
        [ToTarget(ReadTransfer(Read(Add64(info[|info| - 1].tcb, THREAD_NAME_OFFSET), THREAD_NAME_SIZE, ElemName)))])
    {
      PushRead(Add64(info[|info| - 1].tcb, THREAD_NAME_OFFSET), THREAD_NAME_SIZE, ElemName);
    }

    method OnName(data: string)
      requires HasStopReply(Value()) && info != [] && listIt < |lists| && lists[listIt].count > 0
      modifies this, conn
      ensures Became(Continue(old(Value()), Walks.OnName(old(WalkNow()), ReplyBytes(data))), old(conn.Value()))
    {
      NameAsks(WalkNow(), ReplyBytes(data));
      NameRow(data);
      CountElem();
      GetListElemNext();
    }

    /** The element is done: one less to go on its list. */
    method CountElem()
      requires listIt < |lists| && lists[listIt].count > 0
      modifies this`lists
      ensures lists == old(lists)[listIt := old(lists)[listIt].(count := old(lists)[listIt].count - 1)]
    {
      lists := lists[listIt := lists[listIt].(count := lists[listIt].count - 1)];
    }

    lemma NameAsks(w: Walk, bytes: seq<byte>)
      requires w.info != [] && w.at < |w.lists| && w.lists[w.at].count > 0
      ensures var last, l := |w.info| - 1, w.lists[w.at];
              Walks.OnName(w, bytes)
              == Ask(w.(info := w.info[last := Named(w.info[last], w.currentTcb, bytes)],
                        lists := w.lists[w.at := l.(count := l.count - 1)]),
                     Read(Add64(l.elem, LIST_ELEM_NEXT_OFFSET), POINTER_SIZE, ElemNext))
    {
    }

    method NameRow(data: string)
      requires info != []
      modifies this`info
      ensures var last := |old(info)| - 1;
              info == old(info)[last := Named(old(info)[last], currentThreadTcb, ReplyBytes(data))]
    {
      var row := info[|info| - 1];
      row := row.(name := NameOf(ReplyBytes(data)));
      if currentThreadTcb == row.tcb {
        row := row.(extra := "State: Running");
      }
      row := row.(exists_ := true);
      info := info[|info| - 1 := row];
    }

    method GetListElemNext()
      requires listIt < |lists|
      modifies conn
      ensures conn.Value() == SendAll(old(conn.Value()),
        [ToTarget(ReadTransfer(Read(Add64(lists[listIt].elem, LIST_ELEM_NEXT_OFFSET), POINTER_SIZE, ElemNext)))])
    {
      PushRead(Add64(lists[listIt].elem, LIST_ELEM_NEXT_OFFSET), POINTER_SIZE, ElemNext);
    }

    method OnElemNext(val: u64)
      requires HasStopReply(Value()) && listIt < |lists|
      modifies this, conn
      ensures Became(Continue(old(Value()), Walks.OnElemNext(old(WalkNow()), val)), old(conn.Value()))
    {
      var list := lists[listIt];
      lists := lists[listIt := list.(prev := list.elem, elem := val)];
      GetListElemThreadId();
    }

    /** Closes the table and erases the ids of tasks without a row. */
    method UpdateThreadsDone()
      requires HasStopReply(Value())
      modifies this, conn
      ensures Became(Continue(old(Value()), Done(old(WalkNow()))), old(conn.Value()))
    {
      CloseTable();
      SendStopReply();
    }

    method CloseTable()
      modifies this
      ensures Value() == old(Value()).(walk := Done(old(WalkNow())).w)
    {
      lists := [];
      threadsCount := |info|;
      EraseMissing();
    }

    /** Erases, while iterating, every map entry whose task has no row. */
    method EraseMissing()
      modifies this`threadsMap
      ensures threadsMap == Keep(old(threadsMap), Tcbs(info))
    {
      ghost var keep := Tcbs(info);
      ghost var kept := Keep(threadsMap, keep);
      var i := 0;
      while i < |threadsMap|
        invariant 0 <= i <= |threadsMap| && kept == Prefixed(threadsMap, i, keep)
        decreases |threadsMap| - i
      {
        EraseStep(threadsMap, i, keep);
        var found := HasRow(threadsMap[i].key);
        if found {
          i := i + 1;
        } else {
          threadsMap := threadsMap[..i] + threadsMap[i + 1..];
        }
      }
    }

    /** The entries before `i` are settled, the others are still to be filtered. */
    ghost function Prefixed(m: seq<Entry>, i: nat, keep: set<u64>): (r: seq<Entry>)
      requires i <= |m|
      ensures i == 0 ==> r == Keep(m, keep)
      ensures i == |m| ==> r == m
    {
      assert i == 0 ==> m[..i] + Keep(m[i..], keep) == Keep(m[i..], keep) && m[i..] == m;
      m[..i] + Keep(m[i..], keep)
    }

    method HasRow(key: u64) returns (found: bool)
      ensures found <==> key in Tcbs(info)
    {
      found := false;
      var j := 0;
      while j < |info|
        invariant 0 <= j <= |info|
        invariant !found && forall k :: 0 <= k < j ==> info[k].tcb != key
      {
        if key == info[j].tcb {
          found := true;
          break;
        }
        j := j + 1;
      }
    }

    lemma EraseStep(m: seq<Entry>, i: nat, keep: set<u64>)
      requires i < |m|
      ensures Prefixed(m, i, keep)
              == if m[i].key in keep then Prefixed(m, i + 1, keep) else Prefixed(m[..i] + m[i + 1..], i, keep)
    {
      Parts(m[..i], m[i + 1..]);
      Empty(Keep(m[i + 1..], keep));
      assert m[i..][1..] == m[i + 1..];
      Assoc(m[..i], [m[i]], Keep(m[i + 1..], keep));
    }

    /** The end of an update: the stop reply, with the selected thread, goes to the client. */
    method SendStopReply()
      requires HasStopReply(Value())
      modifies this`stopReply, conn
      ensures Became(FinishStop(old(Value())), old(conn.Value()))
    {
      DataIsPlain(stopReply);
      var pkt := RewriteStopReply(DataOf(stopReply), selected);
      SendSingle(conn.Value(), ToClient(pkt.Value()));
      conn.PushInternalResponse(pkt.Value());
      stopReply := FRESH;
    }

    // --------------------------------------------------------------- registers

    method GetThreadStackPtr(thread: u64)
      modifies conn
      ensures conn.Value() == SendAll(old(conn.Value()), [ToTarget(ReadTransfer(Read(thread, POINTER_SIZE, StackPtr)))])
    {
      StackPtrIsFirst(thread);
      PushRead(Add64(thread, THREAD_STACK_OFFSET), POINTER_SIZE, StackPtr);
    }

    /** The stack pointer is the first field of a task. */
    lemma StackPtrIsFirst(thread: u64)
      ensures Add64(thread, THREAD_STACK_OFFSET) == thread
    {
    }

    method GetThreadRegisters()
      requires InBuffer(stackPtr, Registers.CONTEXT_SIZE_NON_FPU)
      modifies conn
      ensures conn.Value() == SendAll(old(conn.Value()),
        [ToTarget(ReadTransfer(Read(stackPtr, Registers.CONTEXT_SIZE_NON_FPU, Walks.Registers(stackPtr))))])
    {
      PushRead(stackPtr, Registers.CONTEXT_SIZE_NON_FPU, Walks.Registers(stackPtr));
    }

    method OnRegisters(address: u64, data: string)
      requires |data| / 2 >= Registers.CONTEXT_SIZE_NON_FPU
      modifies conn
      ensures conn.Value() == SendAll(old(conn.Value()), [ToClient(RegistersReply(address, data))])
    {
      var bin := Registers.ContextBytes(data);
      Registers.MicroBlazeLayout(bin, Registers.PoppedBytes(address));
      var pkt := Registers.RegisterReply(Registers.MicroBlaze(), Registers.CONTEXT_SIZE_NON_FPU, address, bin);
      SendSingle(conn.Value(), ToClient(pkt.Value()));
      conn.PushInternalResponse(pkt.Value());
    }

    // ----------------------------------------------------------------- replies

    /** Runs the callback of a request on the response to it. */
    method RunCallback(next: Continuation, reply: Packet)
      requires Acceptable(Value(), next, reply) && CallbackInBuffer(next, reply)
      modifies this, conn
      ensures Became(Callback(old(Value()), next, reply), old(conn.Value()))
    {
      if IsWalk(next) {
        WalkCallback(Value(), next, reply);
        RunWalkCallback(next, DataOf(reply));
      } else {
        RunOtherCallback(next, reply);
      }
    }

    /** The callbacks outside the walk. */
    method RunOtherCallback(next: Continuation, reply: Packet)
      requires Acceptable(Value(), next, reply) && CallbackInBuffer(next, reply) && !IsWalk(next)
      modifies this, conn
      ensures Became(Callback(old(Value()), next, reply), old(conn.Value()))
    {
      var data := DataOf(reply);
      if next == SupportedReply {
        if Contains(data, ";multiprocess+") {
          multiprocess := true;
        }
      } else if next == StopReply {
        stopReply := reply;
        UpdateThreads();
      } else if next == StackPtr {
        OnStackPtr(ReplyWord(data));
      } else if next.Registers? {
        OnRegisters(next.address, data);
      }
    }

    lemma {:induction false} WalkCallback(t: Target, next: Continuation, reply: Packet)
      requires Acceptable(t, next, reply) && IsWalk(next)
      ensures Callback(t, next, reply) == Continue(t, OnReply(Setting(t), Pending(t, next), DataOf(reply)))
    {
    }

    method OnStackPtr(val: u64)
      requires InBuffer(val, Registers.CONTEXT_SIZE_NON_FPU)
      modifies this, conn
      ensures Value() == old(Value()).(stackPtr := val)
      ensures conn.Value() == SendAll(old(conn.Value()),
        [ToTarget(ReadTransfer(Read(val, Registers.CONTEXT_SIZE_NON_FPU, Walks.Registers(val))))])
    {
      stackPtr := val;
      GetThreadRegisters();
    }

    /** The callbacks of the walk. */
    method RunWalkCallback(next: Continuation, data: string)
      requires IsWalk(next) && Ready(Pending(Value(), next)) && HasStopReply(Value())
      modifies this, conn
      ensures Became(Continue(old(Value()), OnReply(Setting(old(Value())), Pending(old(Value()), next), data)),
                     old(conn.Value()))
    {
      match next {
        case ThreadsCount => OnThreadsCount(ReplyWord(data));
        case CurrentThread => OnCurrentThread(ReplyWord(data));
        case TopPriority => ProcessReadyLists(ReplyWord(data));
        case ListCount => OnListCount(ReplyWord(data));
        case ListElemPtr => OnElemPtr(ReplyWord(data));
        case ElemOwner => OnOwner(ReplyWord(data));
        case ElemName => OnName(data);
        case ElemNext => OnElemNext(ReplyWord(data));
      }
    }

    // ---------------------------------------------------------------- requests

    method PushClientReply(text: string)
      modifies conn
      ensures conn.Value() == SendAll(old(conn.Value()), [ToClient(Built(text))])
    {
      var rep := new GdbPacket.Of(Dat);
      var n := rep.Parse(text);
      var ok := rep.Finalize();
      SendSingle(conn.Value(), ToClient(rep.Value()));
      conn.PushInternalResponse(rep.Value());
    }

    method RequestSymbol()
      requires currentSymbol < SYM_COUNT
      modifies conn
      ensures conn.Value() == SendAll(old(conn.Value()), [ToClient(Built(SymbolRequest(currentSymbol)))])
    {
      var pkt := new GdbPacket.Of(Dat);
      var n := pkt.Parse("qSymbol:");
      var hex := Bin2Hex(Codes(NAMES[currentSymbol]), "");
      SymbolIsPlain(currentSymbol);
      ParseMore(pkt, "qSymbol:", hex);
      var ok := pkt.Finalize();
      SendSingle(conn.Value(), ToClient(pkt.Value()));
      conn.PushInternalResponse(pkt.Value());
    }

    lemma SymbolIsPlain(k: nat)
      requires k < SYM_COUNT
      ensures Feed(OPEN, "qSymbol:").0.phase == Data
      ensures var hex := HexOf(Codes(NAMES[k])); "" + hex == hex && Plain(hex)
    {
      var hex := HexOf(Codes(NAMES[k]));
      FeedPlain(OPEN, "qSymbol:");
      Empty(hex);
      HexOfLower(Codes(NAMES[k]));
      LowerHexIsPlain(hex);
    }

    method HandleSymbolAnswer(data: string)
      requires |data| >= 8 && processSymbols && currentSymbol < SYM_COUNT
      modifies this, conn
      ensures Became(OnSymbolAnswer(old(Value()), data), old(conn.Value()))
    {
      StoreSymbol(Address(data[8..]));
      if processSymbols {
        RequestSymbol();
      } else {
        RequestFinal();
      }
    }

    method StoreSymbol(val: u64)
      requires processSymbols && currentSymbol < SYM_COUNT
      modifies this
      ensures Value() == old(Value()).(negotiation := StoreAnswer(old(Value()).negotiation, val))
    {
      symbols := symbols[currentSymbol := val];
      currentSymbol := currentSymbol + 1;
      if currentSymbol == SYM_COUNT {
        processSymbols := false;
        rtosAvail := CheckRequired();
      }
    }

    /** Negotiation is over: the target gets the final `qSymbol::`. */
    method RequestFinal()
      modifies conn
      ensures conn.Value() == SendAll(old(conn.Value()), [ToTarget(Transfer(Built("qSymbol::"), false, NoCallback))])
    {
      var reply := new GdbPacket.Of(Dat);
      var n := reply.Parse("qSymbol::");
      var ok := reply.Finalize();
      SendSingle(conn.Value(), ToTarget(Transfer(reply.Value(), false, NoCallback)));
      conn.PushRequest(reply.Value(), NoCallback);
    }

    method CheckRequired() returns (avail: bool)
      ensures avail <==> RequiredFound(symbols)
    {
      avail := true;
      var i := 0;
      while i < |symbols|
        invariant 0 <= i <= |symbols| && avail
        invariant forall k :: 0 <= k < i && Required(k) ==> symbols[k] != 0
      {
        if symbols[i] == 0 && Required(i) {
          avail := false;
          break;
        }
        i := i + 1;
      }
    }

    /** The list of all thread ids, built piece by piece. */
    method ReplyThreadList()
      modifies conn
      ensures conn.Value() == SendAll(old(conn.Value()), [ToClient(Built(ThreadListText(Value())))])
    {
      var rep := new GdbPacket.Of(Dat);
      if threadsCount != 0 {
        FeedPlain(OPEN, "m");
        var n := rep.Parse("m");
        var i := 0;
        while i < |info|
          invariant 0 <= i <= |info| && fresh(rep) && conn.Value() == old(conn.Value())
          invariant rep.state == Data && rep.Value() == Feed(OPEN, FirstIds(info, i)).0
        {
          ParseId(rep, i);
          i := i + 1;
        }
        assert info[..i] == info;
      }
      var ok := rep.Finalize();
      SendSingle(conn.Value(), ToClient(rep.Value()));
      conn.PushInternalResponse(rep.Value());
    }

    /** The list when it holds the ids of the first `k` rows. */
    ghost function FirstIds(rows: seq<ThreadInfo>, k: nat): string
      requires k <= |rows|
    {
      "m" + Join(Texts(Ids(rows[..k])), ',')
    }

    method ParseId(rep: GdbPacket, i: nat)
      requires i < |info| && rep.state == Data && rep.Value() == Feed(OPEN, FirstIds(info, i)).0
      modifies rep
      ensures rep.state == Data && rep.Value() == Feed(OPEN, FirstIds(info, i + 1)).0
    {
      FirstIdsMore(info, i);
      ghost var text := FirstIds(info, i);
      if i != 0 {
        ParseMore(rep, text, ",");
        text := text + ",";
      }
      ToTextChars(info[i].id);
      ParseMore(rep, text, ToText(info[i].id));
    }

    lemma FirstIdsMore(rows: seq<ThreadInfo>, i: nat)
      requires i < |rows|
      ensures FirstIds(rows, i + 1) == (FirstIds(rows, i) + if i == 0 then "" else ",") + ToText(rows[i].id)
      ensures i == 0 ==> FirstIds(rows, i) + "" == FirstIds(rows, i)
    {
      var parts := Texts(Ids(rows[..i]));
      assert Texts(Ids(rows[..i + 1])) == parts + [ToText(rows[i].id)];
      JoinSnoc(parts, ToText(rows[i].id));
    }

    lemma {:induction false} JoinSnoc(parts: seq<string>, last: string)
      ensures Join(parts + [last], ',') == if parts == [] then last else Join(parts, ',') + "," + last
      decreases |parts|
    {
      if |parts| > 1 {
        TailOfSum(parts, [last]);
        JoinSnoc(parts[1..], last);
        Assoc(parts[0] + ",", Join(parts[1..], ','), "," + last);
      } else if |parts| == 1 {
        assert (parts + [last])[1..] == [last];
      }
    }

    method HandleQueryPacket(pkt: Packet) returns (handled: bool)
      requires Valid(pkt) && Consistent(Value().negotiation)
      modifies this, conn
      ensures handled == OnQuery(old(Value()), pkt).handled
      ensures Became(OnQuery(old(Value()), pkt), old(conn.Value()))
    {
      var data := DataOf(pkt);
      if "qSupported" <= data {
        SendSingle(conn.Value(), ToTarget(Transfer(pkt, false, SupportedReply)));
        conn.PushRequest(pkt, SupportedReply);
        return true;
      }
      if "qThreadExtraInfo," <= data {
        handled := HandleExtraInfo(data);
        return;
      }
      if "qfThreadInfo" <= data {
        if !rtosAvail {
          return false;
        }
        ReplyThreadList();
        return true;
      }
      if "qCRC:" <= data {
        return false;
      }
      if "qC" <= data {
        if !rtosAvail {
          return false;
        }
        PushClientReply("QC" + ToText(currentThreadId));
        return true;
      }
      handled := HandleSymbolQuery(data);
    }

    method HandleSymbolQuery(data: string) returns (handled: bool)
      requires Consistent(Value().negotiation)
      modifies this, conn
      ensures handled == OnSymbolQuery(old(Value()), data).handled
      ensures Became(OnSymbolQuery(old(Value()), data), old(conn.Value()))
    {
      if data == "qSymbol::" {
        processSymbols, currentSymbol, rtosAvail, symbols := true, 0, false, NO_SYMBOLS;
        RequestSymbol();
        return true;
      }
      if "qSymbol:" <= data && processSymbols {
        HandleSymbolAnswer(data);
        return true;
      }
      return false;
    }

    method HandleExtraInfo(data: string) returns (handled: bool)
      requires |data| >= 17
      modifies conn
      ensures handled == OnExtraInfo(Value(), data).handled
      ensures conn.Value() == SendAll(old(conn.Value()), OnExtraInfo(Value(), data).outputs)
    {
      if !rtosAvail || threadsCount == 0 {
        return false;
      }
      var id := Parse(data[17..]);
      if Equal(id, MakeThreadId(multiprocess, CURRENT_EXECUTION)) {
        return false;
      }
      var k := 0;
      while k < |info| && !Equal(id, info[k].id)
        invariant 0 <= k <= |info| && FindRow(info, id, k) == FindRow(info, id, 0)
      {
        k := k + 1;
      }
      if k == |info| {
        PushClientReply("E01");
      } else {
        var extraInfo := "";
        if info[k].name != "" {
          extraInfo := "Name: " + info[k].name;
        }
        if info[k].extra != "" {
          if extraInfo != "" {
            extraInfo := extraInfo + ", ";
          }
          extraInfo := extraInfo + info[k].extra;
        }
        var hex := Bin2Hex(Codes(extraInfo), "");
        Empty(HexOf(Codes(extraInfo)));
        PushClientReply(hex);
      }
      return true;
    }

    method HandleThreadAlive(data: string) returns (handled: bool)
      requires data != ""
      modifies conn
      ensures handled == OnThreadAlive(Value(), data).handled
      ensures conn.Value() == SendAll(old(conn.Value()), OnThreadAlive(Value(), data).outputs)
    {
      if !rtosAvail {
        return false;
      }
      var id := Parse(data[1..]);
      if Equal(id, MakeThreadId(multiprocess, CURRENT_EXECUTION)) {
        return false;
      }
      var it := |info|;
      if threadsCount != 0 {
        it := 0;
        while it < |info|
          invariant 0 <= it <= |info|
          invariant forall k :: 0 <= k < it ==> !(Equal(info[k].id, id) && info[k].exists_)
        {
          if Equal(info[it].id, id) && info[it].exists_ {
            break;
          }
          it := it + 1;
        }
      }
      PushClientReply(if it < |info| then "OK" else "E01");
      return true;
    }

    /** Routes a request: handled here, or to be forwarded by the caller. */
    method ProcessRequest(pkt: Packet) returns (handled: bool)
      requires Readable(pkt) && Consistent(Value().negotiation)
      modifies this, conn
      ensures handled == TargetModel.ProcessRequest(old(Value()), pkt).handled
      ensures Became(TargetModel.ProcessRequest(old(Value()), pkt), old(conn.Value()))
    {
      var data := DataOf(pkt);
      if KindOf(pkt) != Dat || data == "" {
        return false;
      }
      if data[0] == 'q' {
        handled := HandleQueryPacket(pkt);
        return;
      }
      if IsResume(data) {
        SendSingle(conn.Value(), ToTarget(Transfer(pkt, true, StopReply)));
        conn.PushInternalRequest(pkt, StopReply);
        return true;
      }
      if data[0] == 'g' {
        if Equal(selected, MakeThreadId(multiprocess, CURRENT_EXECUTION)) {
          return false;
        }
        if rtosAvail {
          if Equal(selected, currentThreadId) {
            return false;
          }
          if selected.tid % TWO_64 > CURRENT_EXECUTION {
            GetThreadStackPtr(selected.tid % TWO_64);
            return true;
          }
        }
        return false;
      }
      if data[0] == 'T' {
        handled := HandleThreadAlive(data);
        return;
      }
      if data[0] == 'H' && |data| > 1 && data[1] == 'g' {
        selected := Parse(data[2..]);
        if Equal(selected, MakeThreadId(multiprocess, CURRENT_EXECUTION)) || !rtosAvail {
          return false;
        }
        PushClientReply("OK");
        return true;
      }
      return false;
    }
  }
}
