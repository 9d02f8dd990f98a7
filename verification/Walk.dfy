/** The FreeRTOS task walk: a chain of memory reads in which each reply decides the next read. */
module Walks {
  import opened Text
  import opened Hex
  import opened ThreadIds
  import opened IdMaps
  import opened Memories

  // Layout of the RTOS structures.
  const POINTER_SIZE: u64 := 4
  const THREAD_COUNTER_SIZE: u64 := 4
  const LIST_NEXT_OFFSET: u64 := 16
  const LIST_WIDTH: u64 := 20
  const LIST_ELEM_NEXT_OFFSET: u64 := 8
  const LIST_ELEM_CONTENT_OFFSET: u64 := 12
  const THREAD_STACK_OFFSET: u64 := 0
  const THREAD_NAME_OFFSET: u64 := 52
  const THREAD_NAME_SIZE: u64 := 10
  const MAX_PRIORITIES: nat := 8

  const CURRENT_EXECUTION: u64 := 1
  const NO_ELEM: u64 := 0xffff_ffff_ffff_ffff

  // Places in the symbol table.
  const SYM_CURRENT_TCB := 1
  const SYM_READY_LISTS := 2
  const SYM_DELAYED_1 := 3
  const SYM_DELAYED_2 := 4
  const SYM_PENDING_READY := 7
  const SYM_TERMINATION := 8
  const SYM_SUSPENDED := 9
  const SYM_TASKS_NUMBER := 10
  const SYM_TOP_USED_PRIORITY := 11
  const SYM_TOP_READY_PRIORITY := 12
  const SYM_COUNT := 13

  type Symbols = s: seq<u64> | |s| == 13 witness seq(13, _ => 0)

  /** What to do with the reply to a request: the callback stored with it. */
  datatype Continuation =
    | NoCallback
    | SupportedReply
    | StopReply
    | ThreadsCount
    | CurrentThread
    | TopPriority
    | ListCount
    | ListElemPtr
    | ElemOwner
    | ElemName
    | ElemNext
    | StackPtr
    | Registers(address: u64)

  datatype Read = Read(address: u64, size: u64, next: Continuation)

  datatype ThreadInfo = ThreadInfo(tcb: u64, id: ThreadId, exists_: bool, name: string, extra: string)
  datatype ThreadList = ThreadList(address: u64, count: u64, elem: u64, prev: u64)

  /** The table under construction: counters, rows, the lists to scan with the one being scanned,
      and the id map. */
  datatype Walk = Walk(
    count: nat,
    currentTcb: u64,
    currentId: ThreadId,
    info: seq<ThreadInfo>,
    lists: seq<ThreadList>,
    at: nat,
    ids: seq<Entry>)

  datatype Outcome = Ask(w: Walk, read: Read) | Finished(w: Walk)

  /** Settings that a walk does not change. */
  datatype Setup = Setup(symbols: Symbols, multiprocess: bool)

  function MakeThreadId(multiprocess: bool, tcb: int): ThreadId {
    ThreadId(multiprocess, 1, ToSigned(tcb))
  }

  function CurrentExecution(multiprocess: bool): ThreadInfo {
    ThreadInfo(CURRENT_EXECUTION, MakeThreadId(multiprocess, CURRENT_EXECUTION), true, "Current Execution", "")
  }

  function Chars(bytes: seq<byte>): (s: string)
    ensures |s| == |bytes| && forall i :: 0 <= i < |s| ==> s[i] == bytes[i] as char
  {
    seq(|bytes|, i requires 0 <= i < |bytes| => bytes[i] as char)
  }

  /** The C string at the start of the name field. */
  function NameOf(bytes: seq<byte>): string {
    var s := Before(Chars(bytes), '\0');
    if s == "" then "No Name" else s
  }

  /** The name field holds a name and, unless it is full, a NUL behind it. */
  lemma {:induction false} NameMeaning(bytes: seq<byte>, name: string)
    requires |name| <= |bytes| && Chars(bytes)[..|name|] == name && '\0' !in name
    requires |name| < |bytes| ==> bytes[|name|] == 0
    ensures NameOf(bytes) == if name == "" then "No Name" else name
  {
    var rest := Chars(bytes)[|name|..];
    assert Chars(bytes) == name + rest;
    BeforeUnique(name, '\0', rest);
  }

  function NewList(address: u64): ThreadList {
    ThreadList(address, 0, 0, NO_ELEM)
  }

  // --------------------------------------------------------------- the chain

  const NO_WALK := Walk(0, 0, ThreadId(false, 0, 0), [], [], 0, [])

  function Begin(env: Setup, ids: seq<Entry>): Outcome {
    Ask(NO_WALK.(ids := ids), Read(env.symbols[SYM_TASKS_NUMBER], THREAD_COUNTER_SIZE, ThreadsCount))
  }

  predicate OnList(c: Continuation) {
    c == ListCount || c == ListElemPtr || c == ElemOwner || c == ElemName || c == ElemNext
  }

  predicate IsWalk(c: Continuation) {
    c == ThreadsCount || c == CurrentThread || c == TopPriority || OnList(c)
  }

  /** What holds between a request and its reply. In particular the list count is not zero when it
      is about to be decremented. */
  predicate Ready(o: Outcome) {
    o.Ask? ==>
      && IsWalk(o.read.next)
      && (OnList(o.read.next) || o.read.next == TopPriority ==> o.w.info != [])
      && (OnList(o.read.next) ==> o.w.at < |o.w.lists|)
      && (o.read.next == ElemOwner || o.read.next == ElemName ==> o.w.lists[o.w.at].count > 0)
  }

  function Tcbs(info: seq<ThreadInfo>): set<u64> {
    set i | 0 <= i < |info| :: info[i].tcb
  }

  function Done(w: Walk): Outcome {
    Finished(w.(lists := [], count := |w.info|, ids := Keep(w.ids, Tcbs(w.info))))
  }

  function NextAddress(lists: seq<ThreadList>, k: nat): (n: nat)
    requires k <= |lists|
    ensures k <= n <= |lists|
    ensures forall i :: k <= i < n ==> lists[i].address == 0
    ensures n < |lists| ==> lists[n].address != 0
    decreases |lists| - k
  {
    if k == |lists| || lists[k].address != 0 then k else NextAddress(lists, k + 1)
  }

  function NextList(w: Walk): Outcome
    requires w.at <= |w.lists|
  {
    var at := NextAddress(w.lists, w.at);
    if at == |w.lists| then Done(w.(at := at))
    else Ask(w.(at := at), Read(w.lists[at].address, THREAD_COUNTER_SIZE, ListCount))
  }

  /** The addresses of the lists to scan when the target reports `ready` ready lists. */
  function Addresses(s: Symbols, ready: nat): (r: seq<u64>)
    ensures |r| == ready + 5
  {
    seq(ready, i requires 0 <= i < ready => (s[SYM_READY_LISTS] + i * LIST_WIDTH) % TWO_64)
    + [s[SYM_DELAYED_1], s[SYM_DELAYED_2], s[SYM_PENDING_READY], s[SYM_TERMINATION], s[SYM_SUSPENDED]]
  }

  function NewLists(addresses: seq<u64>): (r: seq<ThreadList>)
    ensures |r| == |addresses| && forall i :: 0 <= i < |r| ==> r[i] == NewList(addresses[i])
  {
    seq(|addresses|, i requires 0 <= i < |addresses| => NewList(addresses[i]))
  }

  function ScanLists(env: Setup, w: Walk, ready: nat): Outcome {
    NextList(w.(lists := NewLists(Addresses(env.symbols, ready)), at := 0))
  }

  function AskLists(env: Setup, w: Walk): Outcome {
    var s := env.symbols;
    if s[SYM_TOP_USED_PRIORITY] != 0 then
      Ask(w, Read(s[SYM_TOP_USED_PRIORITY], THREAD_COUNTER_SIZE, TopPriority))
    else if s[SYM_TOP_READY_PRIORITY] != 0 then
      Ask(w, Read(s[SYM_TOP_READY_PRIORITY], THREAD_COUNTER_SIZE, TopPriority))
    else ScanLists(env, w, MAX_PRIORITIES)
  }

  /** The running task is known, and the current execution is the first row. */
  function WithCurrent(env: Setup, w: Walk, val: u64): Walk {
    var (ids, id) := if val == 0 then (w.ids, 0) else Assign(w.ids, val);
    w.(currentTcb := val,
       currentId := if val == 0 then w.currentId else MakeThreadId(env.multiprocess, id),
       ids := ids,
       count := (w.count + 1) % TWO_64,
       info := w.info + [CurrentExecution(env.multiprocess)])
  }

  function OnCurrentThread(env: Setup, w: Walk, val: u64): Outcome {
    var w' := WithCurrent(env, w, val);
    if w'.count == 1 then Done(w') else AskLists(env, w')
  }

  function SetList(w: Walk, list: ThreadList): (r: Walk)
    requires w.at < |w.lists|
    ensures r.at == w.at < |r.lists| == |w.lists| && r.lists[r.at] == list
    ensures r.info == w.info && r.ids == w.ids
  {
    w.(lists := w.lists[w.at := list])
  }

  lemma SetListTwice(w: Walk, a: ThreadList, b: ThreadList)
    requires w.at < |w.lists|
    ensures SetList(SetList(w, a), b) == SetList(w, b)
  {
    assert w.lists[w.at := a][w.at := b] == w.lists[w.at := b];
  }

  function Leave(w: Walk): Outcome
    requires w.at < |w.lists|
  {
    NextList(w.(at := w.at + 1))
  }

  /** At a list element: leave the list or ask for the element's owner. */
  function AtElem(w: Walk): Outcome
    requires w.at < |w.lists|
  {
    var l := w.lists[w.at];
    if l.count == 0 || l.elem == 0 || l.elem == l.prev then Leave(w)
    else Ask(w, Read(Add64(l.elem, LIST_ELEM_CONTENT_OFFSET), POINTER_SIZE, ElemOwner))
  }

  function OnOwner(env: Setup, w: Walk, val: u64): Outcome {
    var (ids, id) := Assign(w.ids, val);
    Ask(w.(info := w.info + [ThreadInfo(val, MakeThreadId(env.multiprocess, id), false, "", "")], ids := ids),
        Read(Add64(val, THREAD_NAME_OFFSET), THREAD_NAME_SIZE, ElemName))
  }

  /** The finished row of a task. */
  function Named(row: ThreadInfo, current: u64, bytes: seq<byte>): ThreadInfo {
    row.(name := NameOf(bytes), extra := if current == row.tcb then "State: Running" else row.extra, exists_ := true)
  }

  function OnName(w: Walk, bytes: seq<byte>): Outcome
    requires w.info != [] && w.at < |w.lists| && w.lists[w.at].count > 0
  {
    var last, l := |w.info| - 1, w.lists[w.at];
    Ask(SetList(w.(info := w.info[last := Named(w.info[last], w.currentTcb, bytes)]), l.(count := l.count - 1)),
        Read(Add64(l.elem, LIST_ELEM_NEXT_OFFSET), POINTER_SIZE, ElemNext))
  }

  /** The bytes of a name reply. */
  function ReplyBytes(data: string): seq<byte> {
    BytesOf(data, |data| / 2)
  }

  function OnListCount(w: Walk, val: u64): Outcome
    requires w.at < |w.lists|
  {
    var l := w.lists[w.at].(count := val);
    if val == 0 then Leave(SetList(w, l))
    else Ask(SetList(w, l), Read(Add64(l.address, LIST_NEXT_OFFSET), POINTER_SIZE, ListElemPtr))
  }

  function OnElemPtr(w: Walk, val: u64): Outcome
    requires w.at < |w.lists|
  {
    AtElem(SetList(w, w.lists[w.at].(elem := val)))
  }

  function OnElemNext(w: Walk, val: u64): Outcome
    requires w.at < |w.lists|
  {
    var l := w.lists[w.at];
    AtElem(SetList(w, l.(prev := l.elem, elem := val)))
  }

  /** What the reply `data` to the pending read does. */
  function OnReply(env: Setup, o: Outcome, data: string): Outcome
    requires Ready(o) && o.Ask?
  {
    match o.read.next
    case ThreadsCount =>
      Ask(o.w.(count := ReplyWord(data)), Read(env.symbols[SYM_CURRENT_TCB], POINTER_SIZE, CurrentThread))
    case CurrentThread => OnCurrentThread(env, o.w, ReplyWord(data))
    case TopPriority => ScanLists(env, o.w, ReplyWord(data))
    case ListCount => OnListCount(o.w, ReplyWord(data))
    case ListElemPtr => OnElemPtr(o.w, ReplyWord(data))
    case ElemOwner => OnOwner(env, o.w, ReplyWord(data))
    case ElemName => OnName(o.w, ReplyBytes(data))
    case ElemNext => OnElemNext(o.w, ReplyWord(data))
    case _ => o
  }

  // ------------------------------------------------------ the chain goes on

  predicate Sound(w: Walk) {
    w.info != []
  }

  /** The walk moved on to a later list, or is over; the rows are the same. */
  predicate MovedOn(w: Walk, o: Outcome) {
    && Ready(o) && o.w.info == w.info
    && (o.Ask? ==> o.read.next == ListCount && |o.w.lists| == |w.lists| && w.at <= o.w.at)
  }

  lemma NextListMovesOn(w: Walk)
    requires w.at <= |w.lists| && Sound(w)
    ensures MovedOn(w, NextList(w))
  {
  }

  lemma LeaveMovesOn(w: Walk)
    requires w.at < |w.lists| && Sound(w)
    ensures MovedOn(w.(at := w.at + 1), Leave(w))
  {
    NextListMovesOn(w.(at := w.at + 1));
  }

  lemma AtElemMovesOn(w: Walk)
    requires w.at < |w.lists| && Sound(w)
    ensures MovedOn(w.(at := w.at + 1), AtElem(w))
         || (Ready(AtElem(w)) && AtElem(w).Ask? && AtElem(w).w == w && AtElem(w).read.next == ElemOwner)
  {
    LeaveMovesOn(w);
  }

  lemma ListCountMovesOn(w: Walk, val: u64)
    requires w.at < |w.lists| && Sound(w)
    ensures var o := OnListCount(w, val);
            || MovedOn(w.(at := w.at + 1), o)
            || (Ready(o) && o.Ask? && o.read.next == ListElemPtr && o.w == SetList(w, w.lists[w.at].(count := val)))
  {
    LeaveMovesOn(SetList(w, w.lists[w.at].(count := val)));
  }

  lemma ScanListsMovesOn(env: Setup, w: Walk, ready: nat)
    requires Sound(w)
    ensures Ready(ScanLists(env, w, ready)) && ScanLists(env, w, ready).w.info == w.info
    ensures ScanLists(env, w, ready).Ask? ==> ScanLists(env, w, ready).read.next == ListCount
  {
    NextListMovesOn(w.(lists := NewLists(Addresses(env.symbols, ready)), at := 0));
  }

  lemma AskListsMovesOn(env: Setup, w: Walk)
    requires Sound(w)
    ensures Ready(AskLists(env, w)) && AskLists(env, w).w.info == w.info
    ensures AskLists(env, w).Ask? ==>
      AskLists(env, w).read.next == ListCount || AskLists(env, w).read.next == TopPriority
  {
    ScanListsMovesOn(env, w, MAX_PRIORITIES);
  }

  lemma CurrentThreadMovesOn(env: Setup, w: Walk, val: u64)
    ensures var o := OnCurrentThread(env, w, val);
            && Ready(o) && o.w.info == w.info + [CurrentExecution(env.multiprocess)]
            && (o.Ask? ==> o.read.next == ListCount || o.read.next == TopPriority)
  {
    var w' := WithCurrent(env, w, val);
    AskListsMovesOn(env, w');
  }

  lemma OwnerReady(env: Setup, w: Walk, val: u64)
    requires Sound(w) && w.at < |w.lists| && w.lists[w.at].count > 0
    ensures Ready(OnOwner(env, w, val))
  {
  }

  /** Every reply, whatever it says, leaves the chain able to handle the next one. */
  lemma StepReady(env: Setup, o: Outcome, data: string)
    requires Ready(o) && o.Ask?
    ensures Ready(OnReply(env, o, data))
  {
    var w, val := o.w, ReplyWord(data);
    match o.read.next
    case ThreadsCount =>
    case CurrentThread => CurrentThreadMovesOn(env, w, val);
    case TopPriority => ScanListsMovesOn(env, w, val);
    case ListCount => ListCountMovesOn(w, val);
    case ListElemPtr => AtElemMovesOn(SetList(w, w.lists[w.at].(elem := val)));
    case ElemOwner => OwnerReady(env, w, val);
    case ElemName =>
    case ElemNext => AtElemMovesOn(SetList(w, w.lists[w.at].(prev := w.lists[w.at].elem, elem := val)));
  }
}
