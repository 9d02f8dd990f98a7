/** Register reads: which memory the reply to `g` shows, and when that is the selected task's context. */
module Contexts {
  import opened Text
  import opened Hex
  import opened Packet
  import opened ThreadIds
  import opened IdMaps
  import opened Memories
  import opened Walks
  import opened WalkRefines
  import opened WalkTables
  import opened Connections
  import opened TargetModel
  import opened Targets
  import opened Sessions
  import opened Updates

  function StackPtrRead(address: u64): Transfer {
    ReadTransfer(Read(address, POINTER_SIZE, StackPtr))
  }

  /** A register read that the proxy answers asks for a word at the selected id. The request fits its
      buffer exactly for ids from 0 up to 2^60, so not for -1, which stands for all threads. */
  lemma {:induction false} RegisterRequest(t: Target)
    requires OnRegisterRead(t).handled
    ensures OnRegisterRead(t).outputs == [ToTarget(StackPtrRead(SelectedTcb(t)))]
    ensures Fits(SelectedTcb(t), POINTER_SIZE) <==> 0 <= t.selected.tid < 0x1000_0000_0000_0000
  {
    RequestFits(SelectedTcb(t), POINTER_SIZE);
  }

  /** The failing input: `Hg-1` and then `g`. The size is lost, the NUL behind the comma is sent. */
  lemma {:induction false} AllThreadsDoNotFit(t: Target)
    requires t.negotiation.avail && t.walk.currentId.tid != ALL
    ensures var t' := OnSelectThread(t, "Hg-1").target;
            && t'.selected == ThreadId(false, 0, ALL) && OnRegisterRead(t').handled
            && SelectedTcb(t') == TWO_64 - 1
            && DataOf(StackPtrRead(TWO_64 - 1).pkt) == "mffffffffffffffff,\0"
            && DecodeRead(DataOf(StackPtrRead(TWO_64 - 1).pkt)) == None
  {
    AllThreadsSelected();
    RequestFits(TWO_64 - 1, POINTER_SIZE);
    RequestDecodes(TWO_64 - 1, POINTER_SIZE);
    AllThreadsText();
  }

  lemma {:induction false} AllThreadsSelected()
    ensures Parse("Hg-1"[2..]) == ThreadId(false, 0, ALL)
  {
    Parts("Hg", "-1");
    assert "Hg" + "-1" == "Hg-1";
    assert ParseId("-1") == ALL;
  }

  lemma {:induction false} AllThreadsText()
    ensures SentText(TWO_64 - 1, POINTER_SIZE) == "mffffffffffffffff,\0"
  {
    PowersOf16();
    AllOnes(TWO_64 - 1, 16);
    RequestFits(TWO_64 - 1, POINTER_SIZE);
    var front := "m" + Repeat('f', 16) + ",";
    Parts(front, "4");
    assert HexText(POINTER_SIZE) == "4";
    assert Repeat('\0', 1) == "\0";
    assert front == "mffffffffffffffff,";
  }

  lemma {:induction false} AllOnes(n: nat, k: nat)
    requires k > 0 && n == Pow(16, k) - 1
    ensures HexText(n) == Repeat('f', k)
    decreases k
  {
    PowPositive(16, k - 1);
    if k > 1 {
      PowPositive(16, k - 2);
      AllOnes(n / 16, k - 1);
    }
  }

  // ---------------------------------------------------- a register read from end to end

  /** The stack pointer that the proxy goes by. An error reply is read as a number, too. */
  function PointerAt(mem: Memory, address: u64): u64 {
    if Fits(address, POINTER_SIZE) then WordAt(mem, address) else 0xe0
  }

  /** The packet that the client gets. */
  function ContextReply(mem: Memory, sp: u64): Packet {
    RegistersReply(sp, HexOf(BytesAt(mem, sp, Registers.CONTEXT_SIZE_NON_FPU)))
  }

  lemma {:induction false} ErrorWord()
    ensures ReplyWord("E01") == 0xe0
  {
    assert "E01"[2..] == "1";
    assert BytesOf("E01", 8) == [Pair('E', '0')] + BytesOf("1", 7);
  }

  lemma {:induction false} PointerServed(st: Status, address: u64, mem: Memory, stop: Packet)
    requires st.waiting == [StackPtrRead(address)] && SymbolTable.Consistent(st.t.negotiation)
    ensures var sp := PointerAt(mem, address);
            && Answerable(st, Reply(mem, stop, st.waiting[0]))
            && Respond(st, Reply(mem, stop, st.waiting[0]))
               == st.(waiting := [ReadTransfer(Read(sp, Registers.CONTEXT_SIZE_NON_FPU, Walks.Registers(sp)))],
                      t := st.t.(stackPtr := sp),
                      asked := st.asked + [ReadRequest(sp, Registers.CONTEXT_SIZE_NON_FPU)])
  {
    var pkt := Answer(mem, ReadRequest(address, POINTER_SIZE));
    PointerReplied(mem, address);
    assert Callback(st.t, StackPtr, pkt).target == st.t.(stackPtr := PointerAt(mem, address));
  }

  lemma {:induction false} PointerReplied(mem: Memory, address: u64)
    ensures var pkt := Answer(mem, ReadRequest(address, POINTER_SIZE));
            Valid(pkt) && KindOf(pkt) == Dat && ReplyWord(DataOf(pkt)) == PointerAt(mem, address)
  {
    AnswerCarries(mem, address, POINTER_SIZE);
    AnswerWord(mem, address);
    ErrorWord();
  }

  /** Whatever the selected id, the request for the context that follows stays inside the buffer. */
  lemma {:induction false} PointerInBuffer(address: u64, mem: Memory)
    ensures CallbackInBuffer(StackPtr, Answer(mem, ReadRequest(address, POINTER_SIZE)))
  {
    AnswerCarries(mem, address, POINTER_SIZE);
    CallbackInBufferIff(StackPtr, Answer(mem, ReadRequest(address, POINTER_SIZE)));
  }

  lemma {:induction false} ContextServed(st: Status, sp: u64, mem: Memory, stop: Packet)
    requires st.waiting == [ReadTransfer(Read(sp, Registers.CONTEXT_SIZE_NON_FPU, Walks.Registers(sp)))]
    requires sp < 0x1_0000_0000 && SymbolTable.Consistent(st.t.negotiation)
    ensures Answerable(st, Reply(mem, stop, st.waiting[0]))
    ensures Respond(st, Reply(mem, stop, st.waiting[0]))
            == st.(waiting := [], sent := st.sent + [ContextReply(mem, sp)])
  {
    RequestFits(sp, Registers.CONTEXT_SIZE_NON_FPU);
    AnswerCarries(mem, sp, Registers.CONTEXT_SIZE_NON_FPU);
    ContextEffect(st.t, sp, mem, Answer(mem, ReadRequest(sp, Registers.CONTEXT_SIZE_NON_FPU)));
  }

  lemma {:induction false} ContextEffect(t: Target, sp: u64, mem: Memory, pkt: Packet)
    requires Valid(pkt) && DataOf(pkt) == HexOf(BytesAt(mem, sp, Registers.CONTEXT_SIZE_NON_FPU))
    ensures Acceptable(t, Walks.Registers(sp), pkt)
    ensures Callback(t, Walks.Registers(sp), pkt) == Effect(t, [ToClient(ContextReply(mem, sp))], true)
  {
  }

  /** The status once both reads are answered. */
  function ContextSent(st: Status, address: u64, mem: Memory): Status {
    var sp := PointerAt(mem, address);
    Status([], st.sent + [ContextReply(mem, sp)], st.t.(stackPtr := sp), st.seqNo,
           st.asked + [ReadRequest(sp, Registers.CONTEXT_SIZE_NON_FPU)])
  }

  lemma {:induction false} RegistersServed(st: Status, address: u64, mem: Memory, stop: Packet)
    requires st.waiting == [StackPtrRead(address)] && SymbolTable.Consistent(st.t.negotiation)
    ensures Served(st, mem, stop, 2) == ContextSent(st, address, mem)
  {
    var sp := PointerAt(mem, address);
    PointerServed(st, address, mem, stop);
    ServedOne(st, mem, stop, 1);
    var st1 := Respond(st, Reply(mem, stop, st.waiting[0]));
    ContextServed(st1, sp, mem, stop);
    ServedOne(st1, mem, stop, 0);
  }

  /** A `g` that the proxy handles, from end to end: after two responses, with any control events in
      between, the client has exactly one packet, the context at the word that memory holds at the
      selected id, and each of its 59 registers shows memory. */
  lemma {:induction false} RegistersShown(s: Session, pkt: Packet, mem: Memory, stop: Packet, events: seq<Event>)
    requires Good(s) && Possible(s, FromClient(pkt)) && KindOf(pkt) == Dat
    requires DataOf(pkt) != "" && DataOf(pkt)[0] == 'g' && OnRegisterRead(s.t).handled
    requires Good(OnRequest(s, pkt)) && PossibleRun(OnRequest(s, pkt), events)
    requires Serving(OnRequest(s, pkt), mem, stop, events)
    ensures Responses(events) <= 2
    ensures Responses(events) == 2 ==>
              StatusOf(Run(OnRequest(s, pkt), events))
              == ContextSent(StatusOf(s).(seqNo := s.seqNo + 1, asked := StatusOf(s).asked
                                          + [ReadRequest(SelectedTcb(s.t), POINTER_SIZE)]), SelectedTcb(s.t), mem)
    ensures forall i :: 0 <= i < Registers.MICROBLAZE_NUM_REGS ==>
              RegisterShown(mem, PointerAt(mem, SelectedTcb(s.t)), i)
  {
    RequestStatus(s, pkt);
    RegisterRequest(s.t);
    RegistersWait(StatusOf(s), pkt);
    var s1 := OnRequest(s, pkt);
    RegistersServed(StatusOf(s1), SelectedTcb(s.t), mem, stop);
    OnlyResponsesMatter(s1, mem, stop, events);
    ServedNoMore(s1, mem, stop, events, 2);
    forall i | 0 <= i < Registers.MICROBLAZE_NUM_REGS
      ensures RegisterShown(mem, PointerAt(mem, SelectedTcb(s.t)), i)
    {
      ReplyShows(mem, PointerAt(mem, SelectedTcb(s.t)), i);
    }
  }

  lemma {:induction false} RegistersWait(st: Status, pkt: Packet)
    requires Readable(pkt) && KindOf(pkt) == Dat && SymbolTable.Consistent(st.t.negotiation)
    requires DataOf(pkt) != "" && DataOf(pkt)[0] == 'g' && OnRegisterRead(st.t).handled
    ensures Request(st, pkt)
            == st.(waiting := [StackPtrRead(SelectedTcb(st.t))], seqNo := st.seqNo + 1,
                   asked := st.asked + [ReadRequest(SelectedTcb(st.t), POINTER_SIZE)])
  {
  }

  /** Register `i` of the reply about the context at `sp` shows memory. */
  predicate RegisterShown(mem: Memory, sp: u64, i: nat) {
    var text := DataOf(ContextReply(mem, sp));
    && |text| == 8 * Registers.MICROBLAZE_NUM_REGS && i < Registers.MICROBLAZE_NUM_REGS
    && Registers.ShowsMemory(text[8 * i..][..8], Registers.MicroBlazePlace(i), mem, sp)
  }

  lemma {:induction false} ReplyShows(mem: Memory, sp: u64, i: nat)
    requires i < Registers.MICROBLAZE_NUM_REGS
    ensures RegisterShown(mem, sp, i)
  {
    var bin := Registers.ContextBytes(HexOf(BytesAt(mem, sp, Registers.CONTEXT_SIZE_NON_FPU)));
    var sptr := Registers.PoppedBytes(sp);
    Registers.MicroBlazeInContext(bin, sptr);
    Registers.PayloadPlain(Registers.MicroBlaze(), bin, sptr);
    BuiltPlain(Registers.BlockText(bin, sptr));
    Registers.RegistersFromMemory(mem, sp, i);
  }

  // ---------------------------------------------------------- whose context it is

  /** The stack pointer is read from the task of row `i`, which is selected by its id, if and only if that
      id happens to be the task's address. */
  lemma {:induction false} ContextOfRow(t: Target, i: nat)
    requires i < |t.walk.info| && t.selected.tid == t.walk.info[i].id.tid && OnRegisterRead(t).handled
    requires t.walk.info[i].tcb < 0x1000_0000_0000_0000
    ensures var row := t.walk.info[i];
            OnRegisterRead(t).outputs == [ToTarget(StackPtrRead(row.tcb))] <==> row.id.tid % TWO_64 == row.tcb
  {
    RegisterRequest(t);
    RequestFits(t.walk.info[i].tcb, POINTER_SIZE);
    RequestDecodes(t.walk.info[i].tcb, POINTER_SIZE);
    RequestDecodes(SelectedTcb(t), POINTER_SIZE);
  }

  /** In a table that `k` events can leave, ids are small: a task whose address is larger is never read. */
  lemma {:induction false} LargeAddressMissed(t: Target, i: nat, k: nat)
    requires Tame(t.walk, k, NoCallback) && i < |t.walk.info| && k + 2 < t.walk.info[i].tcb < 0x1000_0000_0000_0000
    requires t.selected.tid == t.walk.info[i].id.tid && OnRegisterRead(t).handled
    ensures OnRegisterRead(t).outputs != [ToTarget(StackPtrRead(t.walk.info[i].tcb))]
  {
    assert GoodRow(t.walk.info[i], k);
    ContextOfRow(t, i);
  }

  /** A witness: the first task of a first walk has id 3, wherever it is. */
  lemma {:induction false} FirstTaskMissed(env: Setup, mem: Memory, current: u64, tcb: u64)
    requires tcb != 3
    ensures var row := Rows(env, mem, current, [], [tcb])[0];
            row.tcb == tcb && row.id.tid == 3 && row.id.tid % TWO_64 != row.tcb
  {
    assert Put([], tcb, 3) == [Entry(tcb, 3)];
    assert Assign([], tcb).1 == 3;
  }
}
