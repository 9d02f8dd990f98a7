/** The walk against the RTOS structures as they lie in memory, described by their addresses and layout
    alone: which lists it reads, in which order, and what table comes of them. */
module Kernels {
  import opened Text
  import opened ThreadIds
  import opened IdMaps
  import opened Memories
  import opened Walks
  import opened WalkRuns
  import opened WalkRefines

  /** Where an RTOS keeps its lists, and how many ready lists it has, one for each priority. */
  datatype Kernel = Kernel(
    currentTcb: u64,
    tasksNumber: u64,
    ready: u64,
    delayed1: u64,
    delayed2: u64,
    pendingReady: u64,
    termination: u64,
    suspended: u64,
    priorities: nat)

  /** The symbols found lead to that RTOS. The number of ready lists is read where the target keeps it, and
      taken for 8 if it does not say. */
  predicate Describes(s: Symbols, mem: Memory, k: Kernel) {
    && s[1] == k.currentTcb && s[10] == k.tasksNumber && s[2] == k.ready
    && s[3] == k.delayed1 && s[4] == k.delayed2 && s[7] == k.pendingReady && s[8] == k.termination
    && s[9] == k.suspended
    && k.priorities == if s[11] != 0 then WordAt(mem, s[11]) else if s[12] != 0 then WordAt(mem, s[12]) else 8
  }

  /** The ready lists, twenty bytes each, and then the five others. */
  function ListAt(k: Kernel, i: nat): u64
    requires i < k.priorities + 5
  {
    if i < k.priorities then (k.ready + 20 * i) % 0x1_0000_0000_0000_0000
    else match i - k.priorities
      case 0 => k.delayed1
      case 1 => k.delayed2
      case 2 => k.pendingReady
      case 3 => k.termination
      case _ => k.suspended
  }

  function AllLists(k: Kernel): (r: seq<u64>)
    ensures |r| == k.priorities + 5
  {
    seq(k.priorities + 5, i requires 0 <= i < k.priorities + 5 => ListAt(k, i))
  }

  lemma {:induction false} ScannedAreLists(s: Symbols, mem: Memory, k: Kernel)
    requires Describes(s, mem, k)
    ensures Scanned(s, mem) == AllLists(k)
  {
    var r := Scanned(s, mem);
    forall i | 0 <= i < |r| ensures r[i] == ListAt(k, i) {
    }
  }

  // --------------------------------------------------------------- which lists

  /** The lists whose count is read, in order. */
  function CountsOf(trace: seq<Read>): seq<u64> {
    if trace == [] then []
    else (if trace[0].next == ListCount then [trace[0].address] else []) + CountsOf(trace[1..])
  }

  function NotNull(addresses: seq<u64>): seq<u64> {
    if addresses == [] then [] else (if addresses[0] == 0 then [] else [addresses[0]]) + NotNull(addresses[1..])
  }

  lemma {:induction false} CountsCons(r: Read, rest: seq<Read>)
    ensures CountsOf([r] + rest) == (if r.next == ListCount then [r.address] else []) + CountsOf(rest)
  {
    Head(r, rest);
  }

  /** A count is read at the address of the list that the walk stands at. */
  predicate Aimed(o: Outcome)
    requires Ready(o)
  {
    o.Ask? && o.read.next == ListCount ==> o.read.address == o.w.lists[o.w.at].address != 0
  }

  /** The lists still to be read, with the one whose count is being asked for. */
  function ToCome(o: Outcome): seq<u64>
    requires Ready(o)
  {
    if o.Finished? || !OnList(o.read.next) then []
    else NotNull(AddressesFrom(o.w.lists, if o.read.next == ListCount then o.w.at else o.w.at + 1))
  }

  /** The walk is on its lists, or over, and `later` are the lists still to be read. */
  predicate OnTrack(o: Outcome, later: seq<u64>) {
    Ready(o) && Aimed(o) && (o.Ask? ==> OnList(o.read.next)) && ToCome(o) == later
  }

  lemma {:induction false} SkipNull(lists: seq<ThreadList>, k: nat)
    requires k <= |lists|
    ensures NotNull(AddressesFrom(lists, k)) == NotNull(AddressesFrom(lists, NextAddress(lists, k)))
    decreases |lists| - k
  {
    if k < |lists| && lists[k].address == 0 {
      SkipNull(lists, k + 1);
      Head(lists[k].address, AddressesFrom(lists, k + 1));
      Empty(NotNull(AddressesFrom(lists, k + 1)));
    }
  }

  lemma {:induction false} NextListToCome(w: Walk)
    requires w.at <= |w.lists| && Sound(w)
    ensures var o := NextList(w);
            OnTrack(o, NotNull(AddressesFrom(w.lists, w.at)))
  {
    NextListMovesOn(w);
    SkipNull(w.lists, w.at);
  }

  lemma {:induction false} AtElemToCome(w: Walk)
    requires w.at < |w.lists| && Sound(w)
    ensures var o := AtElem(w);
            OnTrack(o, NotNull(AddressesFrom(w.lists, w.at + 1)))
  {
    AtElemMovesOn(w);
    NextListToCome(w.(at := w.at + 1));
  }

  lemma {:induction false} SetListToCome(w: Walk, l: ThreadList)
    requires w.at < |w.lists| && Sound(w) && l.address == w.lists[w.at].address
    ensures Sound(SetList(w, l))
    ensures AddressesFrom(SetList(w, l).lists, w.at + 1) == AddressesFrom(w.lists, w.at + 1)
  {
    SameAddresses(SetList(w, l).lists, w.lists, w.at + 1);
  }

  lemma {:induction false} ListCountToCome(w: Walk, val: u64)
    requires w.at < |w.lists| && Sound(w)
    ensures OnTrack(OnListCount(w, val), NotNull(AddressesFrom(w.lists, w.at + 1)))
  {
    var l := w.lists[w.at].(count := val);
    SetListToCome(w, l);
    if val == 0 {
      NextListToCome(SetList(w, l).(at := w.at + 1));
    }
  }

  lemma {:induction false} NameToCome(w: Walk, bytes: seq<byte>)
    requires w.at < |w.lists| && Sound(w) && w.lists[w.at].count > 0
    ensures var o := OnName(w, bytes);
            OnTrack(o, NotNull(AddressesFrom(w.lists, w.at + 1)))
  {
    var l := w.lists[w.at];
    SameAddresses(OnName(w, bytes).w.lists, w.lists, w.at + 1);
  }

  lemma {:induction false} MovedToCome(w: Walk, l: ThreadList)
    requires w.at < |w.lists| && Sound(w) && l.address == w.lists[w.at].address
    ensures OnTrack(AtElem(SetList(w, l)), NotNull(AddressesFrom(w.lists, w.at + 1)))
  {
    SetListToCome(w, l);
    AtElemToCome(SetList(w, l));
  }

  lemma {:induction false} OwnerToCome(env: Setup, w: Walk, val: u64)
    requires w.at < |w.lists| && Sound(w) && w.lists[w.at].count > 0
    ensures OnTrack(OnOwner(env, w, val), NotNull(AddressesFrom(w.lists, w.at + 1)))
  {
    OwnerReady(env, w, val);
  }

  /** Every reply on a list, whatever it says, leads on through the lists in order. */
  lemma {:induction false} StepOnTrack(env: Setup, o: Outcome, data: string)
    requires Ready(o) && o.Ask? && OnList(o.read.next)
    ensures OnTrack(OnReply(env, o, data), NotNull(AddressesFrom(o.w.lists, o.w.at + 1)))
  {
    var w, val := o.w, ReplyWord(data);
    match o.read.next {
      case ListCount => ListCountToCome(w, val);
      case ListElemPtr => MovedToCome(w, w.lists[w.at].(elem := val));
      case ElemOwner => OwnerToCome(env, w, val);
      case ElemName => NameToCome(w, ReplyBytes(data));
      case ElemNext => MovedToCome(w, w.lists[w.at].(prev := w.lists[w.at].elem, elem := val));
    }
  }

  lemma {:induction false} ToComeNow(o: Outcome)
    requires Ready(o) && o.Ask? && OnList(o.read.next) && Aimed(o)
    ensures ToCome(o) == (if o.read.next == ListCount then [o.read.address] else [])
                         + NotNull(AddressesFrom(o.w.lists, o.w.at + 1))
  {
    Head(o.w.lists[o.w.at].address, AddressesFrom(o.w.lists, o.w.at + 1));
    Empty(NotNull(AddressesFrom(o.w.lists, o.w.at + 1)));
  }

  lemma {:induction false} TraceToCome(env: Setup, o: Outcome, mem: Memory)
    requires Ready(o) && Aimed(o) && (o.Ask? ==> OnList(o.read.next))
    ensures CountsOf(Trace(env, o, mem)) == ToCome(o)
    decreases Reads(env, o, mem)
  {
    if o.Ask? {
      var data := ReplyText(mem, o.read);
      StepOnTrack(env, o, data);
      ToComeNow(o);
      TraceStep(env, o, mem);
      PlayStep(env, o, mem);
      TraceToCome(env, OnReply(env, o, data), mem);
      CountsCons(o.read, Trace(env, OnReply(env, o, data), mem));
    }
  }

  lemma {:induction false} ScanTrace(env: Setup, w: Walk, mem: Memory, ready: nat)
    requires Sound(w)
    ensures Ready(ScanLists(env, w, ready))
    ensures CountsOf(Trace(env, ScanLists(env, w, ready), mem)) == NotNull(Addresses(env.symbols, ready))
  {
    var addresses := Addresses(env.symbols, ready);
    var w' := w.(lists := NewLists(addresses), at := 0);
    NextListToCome(w');
    NewListAddresses(addresses, 0);
    assert addresses[0..] == addresses;
    TraceToCome(env, NextList(w'), mem);
  }

  lemma {:induction false} AskTrace(env: Setup, w: Walk, mem: Memory)
    requires Sound(w)
    ensures Ready(AskLists(env, w))
    ensures CountsOf(Trace(env, AskLists(env, w), mem)) == NotNull(Scanned(env.symbols, mem))
  {
    var s, o := env.symbols, AskLists(env, w);
    if s[SYM_TOP_USED_PRIORITY] == 0 && s[SYM_TOP_READY_PRIORITY] == 0 {
      ScanTrace(env, w, mem, MAX_PRIORITIES);
    } else {
      AskListsMovesOn(env, w);
      ReplyIsWord(mem, o.read);
      TraceStep(env, o, mem);
      ScanTrace(env, w, mem, WordAt(mem, o.read.address));
      CountsCons(o.read, Trace(env, ScanLists(env, w, WordAt(mem, o.read.address)), mem));
      Empty(NotNull(Scanned(s, mem)));
    }
  }

  /** The first two reads are of the number of tasks and of the running task; after them the counts of the
      lists are read in order, each list once, without those that have no address. */
  lemma {:induction false} ListsRead(env: Setup, mem: Memory, ids: seq<Entry>, k: Kernel)
    requires Describes(env.symbols, mem, k) && WordAt(mem, k.tasksNumber) != 0
    ensures var trace := Trace(env, Begin(env, ids), mem);
            && |trace| >= 2
            && trace[0] == Read(k.tasksNumber, 4, ThreadsCount) && trace[1] == Read(k.currentTcb, 4, CurrentThread)
            && CountsOf(trace) == NotNull(AllLists(k))
  {
    var o0 := Begin(env, ids);
    ReplyIsWord(mem, o0.read);
    TraceStep(env, o0, mem);
    var w0 := NO_WALK.(ids := ids, count := WordAt(mem, k.tasksNumber));
    var o1 := OnReply(env, o0, ReplyText(mem, o0.read));
    ReplyIsWord(mem, o1.read);
    TraceStep(env, o1, mem);
    TasksAsked(env, w0, WordAt(mem, k.currentTcb));
    var w1 := WithCurrent(env, w0, WordAt(mem, k.currentTcb));
    AskTrace(env, w1, mem);
    var rest := Trace(env, AskLists(env, w1), mem);
    CountsCons(o1.read, rest);
    CountsCons(o0.read, [o1.read] + rest);
    Empty(CountsOf(rest));
    ScannedAreLists(env.symbols, mem, k);
  }

  // ----------------------------------------------------------------- what table

  /** A list at `address`: the number of its elements, the first element at offset 16; each element with the
      next one at offset 8 and its task at offset 12. */
  predicate ListIn(mem: Memory, address: u64, elems: seq<u64>, tasks: seq<u64>) {
    && |tasks| == |elems| && WordAt(mem, address) == |elems|
    && (elems != [] ==> WordAt(mem, (address + 16) % TWO_64) == elems[0])
    && (forall i :: 0 <= i < |elems| ==> elems[i] != 0 && WordAt(mem, (elems[i] + 12) % TWO_64) == tasks[i])
    && (forall i :: 0 < i < |elems| ==>
          elems[i] != elems[i - 1] && WordAt(mem, (elems[i - 1] + 8) % TWO_64) == elems[i])
  }

  /** Each list of the RTOS has no address, or is in memory with its elements and tasks. */
  predicate KernelIn(mem: Memory, k: Kernel, elems: seq<seq<u64>>, tasks: seq<seq<u64>>) {
    && |elems| == |tasks| == k.priorities + 5
    && forall i :: 0 <= i < |elems| ==>
         if ListAt(k, i) == 0 then elems[i] == [] && tasks[i] == [] else ListIn(mem, ListAt(k, i), elems[i], tasks[i])
  }

  /** The row of a task: its name is the text at offset 52, ten bytes at most, and the running task says so. */
  predicate RowShows(row: ThreadInfo, mem: Memory, current: u64, tcb: u64) {
    && row.tcb == tcb && row.exists_
    && row.name == NameOf(BytesAt(mem, (tcb + 52) % TWO_64, 10))
    && row.extra == if tcb == current then "State: Running" else ""
  }

  /** The current execution, and the tasks in order. */
  predicate TableShows(w: Walk, mem: Memory, multiprocess: bool, current: u64, tasks: seq<u64>) {
    && |w.info| == 1 + |tasks| && w.count == |w.info|
    && w.info[0] == ThreadInfo(1, ThreadId(multiprocess, 1, 1), true, "Current Execution", "")
    && forall i :: 0 <= i < |tasks| ==> RowShows(w.info[i + 1], mem, current, tasks[i])
  }

  /** A task that has a name in memory, followed by a NUL unless it is ten bytes long, has it in its row. */
  lemma {:induction false} NameInMemory(row: ThreadInfo, mem: Memory, current: u64, tcb: u64, name: string)
    requires RowShows(row, mem, current, tcb) && tcb + 62 <= TWO_64
    requires 0 < |name| <= 10 && '\0' !in name
    requires forall i :: 0 <= i < |name| ==> mem(tcb + 52 + i) == name[i] as int
    requires |name| < 10 ==> mem(tcb + 52 + |name|) == 0
    ensures row.name == name
  {
    var bytes := BytesAt(mem, tcb + 52, 10);
    assert Chars(bytes)[..|name|] == name;
    NameMeaning(bytes, name);
  }

  lemma {:induction false} ListOwners(mem: Memory, elems: seq<u64>, tasks: seq<u64>)
    requires |tasks| == |elems|
    requires forall i :: 0 <= i < |elems| ==> WordAt(mem, (elems[i] + 12) % TWO_64) == tasks[i]
    ensures OwnersOf(mem, elems) == tasks
    decreases |elems|
  {
    if elems != [] {
      ListOwners(mem, elems[1..], tasks[1..]);
    }
  }

  lemma {:induction false} ListTasks(mem: Memory, address: u64, elems: seq<u64>, tasks: seq<u64>)
    requires address != 0 && ListIn(mem, address, elems, tasks)
    ensures ListHolds(mem, address, elems) && OwnersOf(mem, elems) == tasks
  {
    ListOwners(mem, elems, tasks);
  }

  lemma {:induction false} FlatTasks(mem: Memory, elems: seq<seq<u64>>, tasks: seq<seq<u64>>)
    requires |elems| == |tasks| && forall i :: 0 <= i < |elems| ==> OwnersOf(mem, elems[i]) == tasks[i]
    ensures OwnersOf(mem, Flat(elems)) == Flat(tasks)
    decreases |elems|
  {
    if elems != [] {
      FlatTasks(mem, elems[1..], tasks[1..]);
      OwnersAppend(mem, elems[0], Flat(elems[1..]));
    }
  }

  lemma {:induction false} KernelTasks(s: Symbols, mem: Memory, k: Kernel, elems: seq<seq<u64>>, tasks: seq<seq<u64>>)
    requires Describes(s, mem, k) && KernelIn(mem, k, elems, tasks) && WordAt(mem, k.tasksNumber) != 0
    ensures AllTasks(s, mem) == Flat(tasks)
  {
    ScannedAreLists(s, mem, k);
    forall i | 0 <= i < |elems|
      ensures if AllLists(k)[i] == 0 then elems[i] == [] else ListHolds(mem, AllLists(k)[i], elems[i])
      ensures OwnersOf(mem, elems[i]) == tasks[i]
    {
      if ListAt(k, i) != 0 {
        ListTasks(mem, ListAt(k, i), elems[i], tasks[i]);
      }
    }
    FlatOwners(mem, AllLists(k), elems);
    FlatTasks(mem, elems, tasks);
  }

  lemma {:induction false} RowsShow(env: Setup, mem: Memory, current: u64, ids: seq<Entry>, tcbs: seq<u64>, i: nat)
    requires i < |tcbs|
    ensures RowShows(Rows(env, mem, current, ids, tcbs)[i], mem, current, tcbs[i])
    decreases i
  {
    if i > 0 {
      RowsShow(env, mem, current, Assign(ids, tcbs[0]).0, tcbs[1..], i - 1);
    }
  }

  /** The running task's own id after an update: the one that the map gives it first of all. */
  lemma {:induction false} CurrentIdShown(env: Setup, mem: Memory, ids: seq<Entry>, k: Kernel)
    requires Describes(env.symbols, mem, k)
    ensures var w, current := Play(env, Begin(env, ids), mem), WordAt(mem, k.currentTcb);
            && w.currentTcb == current
            && w.currentId == if current == 0 then ThreadId(false, 0, 0)
                              else ThreadId(env.multiprocess, 1, ToSigned(Assign(ids, current).1))
  {
    WalkRefinesEnumeration(env, mem, ids);
  }

  lemma {:induction false} TabulatedKernel(env: Setup, mem: Memory, w: Walk, current: u64, tasks: seq<u64>)
    requires w.info == []
    ensures TableShows(Closed(Tabulated(env, mem, WithCurrent(env, w, current), tasks)), mem, env.multiprocess,
                       current, tasks)
  {
    var w' := WithCurrent(env, w, current);
    var rows := Rows(env, mem, current, w'.ids, tasks);
    Empty([CurrentExecution(env.multiprocess)]);
    Head(CurrentExecution(env.multiprocess), rows);
    forall i | 0 <= i < |tasks|
      ensures RowShows(([CurrentExecution(env.multiprocess)] + rows)[i + 1], mem, current, tasks[i])
    {
      RowsShow(env, mem, current, w'.ids, tasks, i);
    }
  }

  /** The table of a halted target: the current execution, and every task of every list, in the order of the
      lists and of the tasks on each, with name and state. */
  lemma {:induction false} TableOfKernel(env: Setup, mem: Memory, ids: seq<Entry>, k: Kernel,
                                         elems: seq<seq<u64>>, tasks: seq<seq<u64>>)
    requires Describes(env.symbols, mem, k) && KernelIn(mem, k, elems, tasks) && WordAt(mem, k.tasksNumber) != 0
    ensures TableShows(Play(env, Begin(env, ids), mem), mem, env.multiprocess, WordAt(mem, k.currentTcb), Flat(tasks))
  {
    WalkRefinesEnumeration(env, mem, ids);
    EnumerationOfKernel(env, mem, ids, k, elems, tasks);
    SameTableShown(Play(env, Begin(env, ids), mem), Enumeration(env, mem, ids), mem, env.multiprocess,
                   WordAt(mem, k.currentTcb), Flat(tasks));
  }

  lemma {:induction false} EnumerationOfKernel(env: Setup, mem: Memory, ids: seq<Entry>, k: Kernel,
                                               elems: seq<seq<u64>>, tasks: seq<seq<u64>>)
    requires Describes(env.symbols, mem, k) && KernelIn(mem, k, elems, tasks) && WordAt(mem, k.tasksNumber) != 0
    ensures TableShows(Enumeration(env, mem, ids), mem, env.multiprocess, WordAt(mem, k.currentTcb), Flat(tasks))
  {
    KernelTasks(env.symbols, mem, k, elems, tasks);
    var w0 := NO_WALK.(ids := ids, count := WordAt(mem, k.tasksNumber));
    TabulatedKernel(env, mem, w0, WordAt(mem, k.currentTcb), Flat(tasks));
  }

  lemma {:induction false} SameTableShown(a: Walk, b: Walk, mem: Memory, multiprocess: bool, current: u64,
                                          tasks: seq<u64>)
    requires SameTable(a, b) && TableShows(b, mem, multiprocess, current, tasks)
    ensures TableShows(a, mem, multiprocess, current, tasks)
  {
  }

  /** So every task on the list of every priority has a row, and also every task on the other lists. */
  lemma {:induction false} EveryTaskHasRow(w: Walk, mem: Memory, multiprocess: bool, current: u64,
                                           tasks: seq<seq<u64>>, i: nat, j: nat) returns (r: nat)
    requires TableShows(w, mem, multiprocess, current, Flat(tasks)) && i < |tasks| && j < |tasks[i]|
    ensures 1 <= r < |w.info| && RowShows(w.info[r], mem, current, tasks[i][j])
  {
    var p := PlaceInFlat(tasks, i, j);
    r := p + 1;
  }

  lemma {:induction false} PlaceInFlat(tasks: seq<seq<u64>>, i: nat, j: nat) returns (p: nat)
    requires i < |tasks| && j < |tasks[i]|
    ensures p < |Flat(tasks)| && Flat(tasks)[p] == tasks[i][j]
    decreases i
  {
    if i == 0 {
      p := j;
    } else {
      p := PlaceInFlat(tasks[1..], i - 1, j);
      p := p + |tasks[0]|;
    }
  }
}
