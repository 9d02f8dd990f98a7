/** The walk against the memory of a halted target: it computes a plain recursive enumeration. */
module WalkRefines {
  import opened Text
  import opened Hex
  import opened IdMaps
  import opened Memories
  import opened Walks
  import opened WalkRuns

  /** The payload of the reply to a read. */
  function ReplyText(mem: Memory, r: Read): string {
    HexOf(BytesAt(mem, r.address, r.size))
  }

  /** It is what comes back through both packets, the request decoded by the server and the server's
      packet, exactly if the request fits the buffer. */
  lemma {:induction false} ReplyThroughPackets(mem: Memory, r: Read)
    ensures Packet.DataOf(Answer(mem, ReadRequest(r.address, r.size))) == ReplyText(mem, r)
            <==> Fits(r.address, r.size)
  {
    AnswerCarries(mem, r.address, r.size);
  }

  lemma {:induction false} ReplyIsWord(mem: Memory, r: Read)
    requires r.size == 4
    ensures ReplyWord(ReplyText(mem, r)) == WordAt(mem, r.address)
  {
    AnswerWord(mem, r.address);
  }

  lemma {:induction false} ReplyIsBytes(mem: Memory, r: Read)
    ensures ReplyBytes(ReplyText(mem, r)) == BytesAt(mem, r.address, r.size)
  {
    HexRoundTrip(BytesAt(mem, r.address, r.size), r.size);
  }

  /** The whole chain, each read answered from memory. */
  function Play(env: Setup, o: Outcome, mem: Memory): (w: Walk)
    requires Ready(o)
    decreases if o.Ask? then Stage(o.read.next) + 1 else 0, ListsLeft(o), Unread(o), Remaining(o), Turn(o)
  {
    if o.Finished? then o.w
    else
      StepLater(env, o, ReplyText(mem, o.read));
      Play(env, OnReply(env, o, ReplyText(mem, o.read)), mem)
  }

  /** The number of reads until the walk ends. */
  function Reads(env: Setup, o: Outcome, mem: Memory): nat
    requires Ready(o)
    decreases if o.Ask? then Stage(o.read.next) + 1 else 0, ListsLeft(o), Unread(o), Remaining(o), Turn(o)
  {
    if o.Finished? then 0
    else
      StepLater(env, o, ReplyText(mem, o.read));
      1 + Reads(env, OnReply(env, o, ReplyText(mem, o.read)), mem)
  }

  /** The reads of a walk, in order. */
  function Trace(env: Setup, o: Outcome, mem: Memory): seq<Read>
    requires Ready(o)
    decreases if o.Ask? then Stage(o.read.next) + 1 else 0, ListsLeft(o), Unread(o), Remaining(o), Turn(o)
  {
    if o.Finished? then []
    else
      StepLater(env, o, ReplyText(mem, o.read));
      [o.read] + Trace(env, OnReply(env, o, ReplyText(mem, o.read)), mem)
  }

  lemma {:induction false} TraceStep(env: Setup, o: Outcome, mem: Memory)
    requires Ready(o) && o.Ask?
    ensures var o' := OnReply(env, o, ReplyText(mem, o.read));
            Ready(o') && Trace(env, o, mem) == [o.read] + Trace(env, o', mem)
  {
    StepLater(env, o, ReplyText(mem, o.read));
  }

  // ------------------------------------------------------ the plain enumeration

  /** The elements visited from `elem` on, at most `count` of them. */
  function Items(mem: Memory, elem: u64, prev: u64, count: nat): seq<u64>
    decreases count
  {
    if count == 0 || elem == 0 || elem == prev then []
    else [elem] + Items(mem, WordAt(mem, Add64(elem, LIST_ELEM_NEXT_OFFSET)), elem, count - 1)
  }

  function OwnerAt(mem: Memory, elem: u64): u64 {
    WordAt(mem, Add64(elem, LIST_ELEM_CONTENT_OFFSET))
  }

  /** The owners of the elements, in order. */
  function OwnersOf(mem: Memory, items: seq<u64>): (r: seq<u64>)
    ensures |r| == |items|
    decreases |items|
  {
    if items == [] then [] else [OwnerAt(mem, items[0])] + OwnersOf(mem, items[1..])
  }

  /** The tasks on one list. A list without an address is skipped. */
  function OnOneList(mem: Memory, address: u64): seq<u64> {
    if address == 0 then []
    else OwnersOf(mem, Items(mem, WordAt(mem, Add64(address, LIST_NEXT_OFFSET)), NO_ELEM, WordAt(mem, address)))
  }

  function OnLists(mem: Memory, addresses: seq<u64>): seq<u64> {
    if addresses == [] then [] else OnOneList(mem, addresses[0]) + OnLists(mem, addresses[1..])
  }

  function Row(env: Setup, mem: Memory, current: u64, tcb: u64, id: int): ThreadInfo {
    Named(ThreadInfo(tcb, MakeThreadId(env.multiprocess, id), false, "", ""), current,
          BytesAt(mem, Add64(tcb, THREAD_NAME_OFFSET), THREAD_NAME_SIZE))
  }

  /** One row for each task, in order, each with the id that the map gives it then. */
  function Rows(env: Setup, mem: Memory, current: u64, ids: seq<Entry>, tcbs: seq<u64>): (r: seq<ThreadInfo>)
    ensures |r| == |tcbs|
    decreases |tcbs|
  {
    if tcbs == [] then []
    else
      var (ids', id) := Assign(ids, tcbs[0]);
      [Row(env, mem, current, tcbs[0], id)] + Rows(env, mem, current, ids', tcbs[1..])
  }

  /** The result of tabulating `tcbs` after what the table already holds. */
  function Tabulated(env: Setup, mem: Memory, w: Walk, tcbs: seq<u64>): Walk
  {
    w.(info := w.info + Rows(env, mem, w.currentTcb, w.ids, tcbs), ids := AssignAll(w.ids, tcbs))
  }

  /** The closing step applied to a table, whatever list it stands on. */
  function Closed(w: Walk): Walk {
    Done(w.(at := 0)).w
  }

  /** The scanned lists: as many ready lists as the target reports, or eight, and five more. */
  function Scanned(s: Symbols, mem: Memory): seq<u64> {
    Addresses(s,
      if s[SYM_TOP_USED_PRIORITY] != 0 then WordAt(mem, s[SYM_TOP_USED_PRIORITY])
      else if s[SYM_TOP_READY_PRIORITY] != 0 then WordAt(mem, s[SYM_TOP_READY_PRIORITY])
      else MAX_PRIORITIES)
  }

  /** All tasks in walk order; none when the target counts no tasks. */
  function AllTasks(s: Symbols, mem: Memory): seq<u64> {
    if WordAt(mem, s[SYM_TASKS_NUMBER]) == 0 then [] else OnLists(mem, Scanned(s, mem))
  }

  /** What an update should compute. */
  function Enumeration(env: Setup, mem: Memory, ids: seq<Entry>): Walk
  {
    var s := env.symbols;
    var w0 := NO_WALK.(ids := ids, count := WordAt(mem, s[SYM_TASKS_NUMBER]));
    Closed(Tabulated(env, mem, WithCurrent(env, w0, WordAt(mem, s[SYM_CURRENT_TCB])), AllTasks(s, mem)))
  }

  // -------------------------------------------------------------- refinement

  /** Lists from `k` on have not been scanned. */
  predicate Pristine(lists: seq<ThreadList>, k: nat) {
    forall i :: k <= i < |lists| ==> lists[i].prev == NO_ELEM
  }

  function AddressesFrom(lists: seq<ThreadList>, k: nat): (r: seq<u64>)
    requires k <= |lists|
    ensures |r| == |lists| - k
    decreases |lists| - k
  {
    if k == |lists| then [] else [lists[k].address] + AddressesFrom(lists, k + 1)
  }

  /** The states compared below agree on everything that the final table shows. */
  predicate SameTable(a: Walk, b: Walk) {
    a == b.(at := a.at)
  }

  lemma TabulateMore(env: Setup, mem: Memory, w: Walk, a: seq<u64>, b: seq<u64>)
    ensures Tabulated(env, mem, Tabulated(env, mem, w, a), b) == Tabulated(env, mem, w, a + b)
  {
    RowsAppend(env, mem, w.currentTcb, w.ids, a, b);
    var ra, rb := Rows(env, mem, w.currentTcb, w.ids, a), Rows(env, mem, w.currentTcb, AssignAll(w.ids, a), b);
    Assoc(w.info, ra, rb);
  }

  lemma {:induction false} RowsAppend(env: Setup, mem: Memory, current: u64, ids: seq<Entry>, a: seq<u64>, b: seq<u64>)
    ensures Rows(env, mem, current, ids, a + b)
            == Rows(env, mem, current, ids, a) + Rows(env, mem, current, AssignAll(ids, a), b)
    ensures AssignAll(ids, a + b) == AssignAll(AssignAll(ids, a), b)
    decreases |a|
  {
    if a == [] {
      Empty(b);
      Empty(Rows(env, mem, current, ids, b));
    } else {
      var (ids', id) := Assign(ids, a[0]);
      TailOfSum(a, b);
      RowsAppend(env, mem, current, ids', a[1..], b);
      Assoc([Row(env, mem, current, a[0], id)], Rows(env, mem, current, ids', a[1..]),
            Rows(env, mem, current, AssignAll(ids', a[1..]), b));
    }
  }

  // One step of `Play` for each kind of reply.

  lemma PlayStep(env: Setup, o: Outcome, mem: Memory)
    requires Ready(o) && o.Ask?
    ensures Ready(OnReply(env, o, ReplyText(mem, o.read)))
    ensures Play(env, o, mem) == Play(env, OnReply(env, o, ReplyText(mem, o.read)), mem)
    ensures Reads(env, o, mem) == 1 + Reads(env, OnReply(env, o, ReplyText(mem, o.read)), mem)
  {
    StepLater(env, o, ReplyText(mem, o.read));
  }

  lemma PlayOwner(env: Setup, o: Outcome, mem: Memory)
    requires Ready(o) && o.Ask? && o.read.next == ElemOwner && o.read.size == POINTER_SIZE
    ensures var o' := OnOwner(env, o.w, WordAt(mem, o.read.address));
            Ready(o') && Play(env, o, mem) == Play(env, o', mem)
  {
    OwnerReply(env, o, ReplyText(mem, o.read));
    ReplyIsWord(mem, o.read);
    PlayStep(env, o, mem);
  }

  lemma OwnerReply(env: Setup, o: Outcome, data: string)
    requires Ready(o) && o.Ask? && o.read.next == ElemOwner
    ensures OnReply(env, o, data) == OnOwner(env, o.w, ReplyWord(data))
  {
  }

  lemma {:induction false} PlayName(env: Setup, o: Outcome, mem: Memory)
    requires Ready(o) && o.Ask? && o.read.next == ElemName && o.read.size == THREAD_NAME_SIZE
    ensures var o' := OnName(o.w, BytesAt(mem, o.read.address, THREAD_NAME_SIZE));
            Ready(o') && Play(env, o, mem) == Play(env, o', mem)
  {
    ReplyIsBytes(mem, o.read);
    PlayStep(env, o, mem);
  }

  lemma PlayNext(env: Setup, o: Outcome, mem: Memory)
    requires Ready(o) && o.Ask? && o.read.next == ElemNext && o.read.size == POINTER_SIZE
    ensures var o' := OnElemNext(o.w, WordAt(mem, o.read.address));
            Ready(o') && Play(env, o, mem) == Play(env, o', mem)
  {
    ReplyIsWord(mem, o.read);
    PlayStep(env, o, mem);
  }

  lemma PlayCount(env: Setup, o: Outcome, mem: Memory)
    requires Ready(o) && o.Ask? && o.read.next == ListCount && o.read.size == THREAD_COUNTER_SIZE
    ensures var o' := OnListCount(o.w, WordAt(mem, o.read.address));
            Ready(o') && Play(env, o, mem) == Play(env, o', mem)
  {
    ReplyIsWord(mem, o.read);
    PlayStep(env, o, mem);
  }

  lemma PlayElemPtr(env: Setup, o: Outcome, mem: Memory)
    requires Ready(o) && o.Ask? && o.read.next == ListElemPtr && o.read.size == POINTER_SIZE
    ensures var o' := OnElemPtr(o.w, WordAt(mem, o.read.address));
            Ready(o') && Play(env, o, mem) == Play(env, o', mem)
  {
    ReplyIsWord(mem, o.read);
    PlayStep(env, o, mem);
  }

  lemma PlayTopPriority(env: Setup, o: Outcome, mem: Memory)
    requires Ready(o) && o.Ask? && o.read.next == TopPriority && o.read.size == THREAD_COUNTER_SIZE
    ensures var o' := ScanLists(env, o.w, WordAt(mem, o.read.address));
            Ready(o') && Play(env, o, mem) == Play(env, o', mem)
  {
    ReplyIsWord(mem, o.read);
    PlayStep(env, o, mem);
  }

  /** The list after one element of it: one less to go, and its successor is next. */
  function NextElem(mem: Memory, l: ThreadList): ThreadList
    requires l.count > 0
  {
    l.(count := l.count - 1, prev := l.elem, elem := WordAt(mem, Add64(l.elem, LIST_ELEM_NEXT_OFFSET)))
  }

  /** The walk after one element: its owner tabulated, and its list moved on. */
  function ElemDone(env: Setup, mem: Memory, w: Walk): (r: Walk)
    requires Sound(w) && w.at < |w.lists| && w.lists[w.at].count > 0
    ensures Sound(r) && r.at == w.at < |r.lists| == |w.lists|
    ensures r.lists[r.at] == NextElem(mem, w.lists[w.at])
  {
    SetList(Tabulated(env, mem, w, [OwnerAt(mem, w.lists[w.at].elem)]), NextElem(mem, w.lists[w.at]))
  }

  /** The reads for one element: owner, name, next element. */
  lemma ElemPlayed(env: Setup, mem: Memory, w: Walk)
    requires Sound(w) && w.at < |w.lists|
    requires var l := w.lists[w.at]; l.count > 0 && l.elem != 0 && l.elem != l.prev
    ensures Ready(AtElem(w)) && Ready(AtElem(ElemDone(env, mem, w)))
    ensures Play(env, AtElem(w), mem) == Play(env, AtElem(ElemDone(env, mem, w)), mem)
  {
    AtElemMovesOn(w);
    PlayOwner(env, AtElem(w), mem);
    PlayName(env, OwnerSeen(env, mem, w), mem);
    PlayNext(env, NameSeen(env, mem, w), mem);
    ElemOutcome(env, mem, w);
    AtElemMovesOn(ElemDone(env, mem, w));
  }

  function OwnerSeen(env: Setup, mem: Memory, w: Walk): Outcome
    requires w.at < |w.lists|
  {
    OnOwner(env, w, OwnerAt(mem, w.lists[w.at].elem))
  }

  function NameSeen(env: Setup, mem: Memory, w: Walk): Outcome
    requires w.at < |w.lists| && w.lists[w.at].count > 0
  {
    OnName(OwnerSeen(env, mem, w).w,
           BytesAt(mem, Add64(OwnerAt(mem, w.lists[w.at].elem), THREAD_NAME_OFFSET), THREAD_NAME_SIZE))
  }

  lemma ElemOutcome(env: Setup, mem: Memory, w: Walk)
    requires Sound(w) && w.at < |w.lists| && w.lists[w.at].count > 0
    ensures var l := w.lists[w.at];
            OnElemNext(NameSeen(env, mem, w).w, WordAt(mem, Add64(l.elem, LIST_ELEM_NEXT_OFFSET)))
            == AtElem(ElemDone(env, mem, w))
  {
    var l := w.lists[w.at];
    var owner := OwnerAt(mem, l.elem);
    RowAdded(env, mem, w, owner);
    SetListTwice(Tabulated(env, mem, w, [owner]), l.(count := l.count - 1), NextElem(mem, l));
  }

  /** Appending an unnamed row and naming it is tabulating its task. */
  lemma RowAdded(env: Setup, mem: Memory, w: Walk, owner: u64)
    requires Sound(w) && w.at < |w.lists| && w.lists[w.at].count > 0
    ensures var l := w.lists[w.at];
            OnName(OnOwner(env, w, owner).w, BytesAt(mem, Add64(owner, THREAD_NAME_OFFSET), THREAD_NAME_SIZE)).w
            == SetList(Tabulated(env, mem, w, [owner]), l.(count := l.count - 1))
  {
    var (ids', id) := Assign(w.ids, owner);
    var one, row := [owner], Row(env, mem, w.currentTcb, owner, id);
    assert one[1..] == [];
    assert Rows(env, mem, w.currentTcb, w.ids, one) == [row] + Rows(env, mem, w.currentTcb, ids', []);
    assert AssignAll(w.ids, one) == AssignAll(ids', []);
    ReplaceLast(w.info, OnOwner(env, w, owner).w.info[|w.info|], row);
  }

  /** The elements still to visit on a list. */
  function ItemsAt(mem: Memory, l: ThreadList): seq<u64> {
    Items(mem, l.elem, l.prev, l.count)
  }

  /** The tasks still to come when the walk stands at an element. */
  function Coming(mem: Memory, w: Walk): seq<u64>
    requires w.at < |w.lists|
  {
    OwnersOf(mem, ItemsAt(mem, w.lists[w.at])) + OnLists(mem, AddressesFrom(w.lists, w.at + 1))
  }

  lemma LeaveIsNextList(w: Walk)
    requires Sound(w) && w.at < |w.lists|
    requires var l := w.lists[w.at]; l.count == 0 || l.elem == 0 || l.elem == l.prev
    ensures AtElem(w) == NextList(w.(at := w.at + 1)) && Ready(AtElem(w))
  {
    LeaveMovesOn(w);
  }

  lemma NothingComing(mem: Memory, w: Walk)
    requires w.at < |w.lists|
    requires var l := w.lists[w.at]; l.count == 0 || l.elem == 0 || l.elem == l.prev
    ensures Coming(mem, w) == OnLists(mem, AddressesFrom(w.lists, w.at + 1))
  {
    ItemsEnd(mem, w.lists[w.at]);
    Empty(OnLists(mem, AddressesFrom(w.lists, w.at + 1)));
  }

  lemma ItemsEnd(mem: Memory, l: ThreadList)
    requires l.count == 0 || l.elem == 0 || l.elem == l.prev
    ensures OwnersOf(mem, ItemsAt(mem, l)) == []
  {
  }

  lemma ComingAfterElem(env: Setup, mem: Memory, w: Walk)
    requires Sound(w) && w.at < |w.lists|
    requires var l := w.lists[w.at]; l.count > 0 && l.elem != 0 && l.elem != l.prev
    ensures Coming(mem, w) == [OwnerAt(mem, w.lists[w.at].elem)] + Coming(mem, ElemDone(env, mem, w))
  {
    var l, w' := w.lists[w.at], ElemDone(env, mem, w);
    var rest := ItemsAt(mem, NextElem(mem, l));
    SameAddresses(w.lists, w'.lists, w.at + 1);
    ItemsCons(mem, l);
    OwnersCons(mem, l.elem, rest);
    Assoc([OwnerAt(mem, l.elem)], OwnersOf(mem, rest), OnLists(mem, AddressesFrom(w.lists, w.at + 1)));
  }

  lemma ItemsCons(mem: Memory, l: ThreadList)
    requires l.count > 0 && l.elem != 0 && l.elem != l.prev
    ensures ItemsAt(mem, l) == [l.elem] + ItemsAt(mem, NextElem(mem, l))
  {
  }

  lemma OwnersCons(mem: Memory, elem: u64, rest: seq<u64>)
    ensures OwnersOf(mem, [elem] + rest) == [OwnerAt(mem, elem)] + OwnersOf(mem, rest)
  {
    Head(elem, rest);
  }

  lemma TabulateElem(env: Setup, mem: Memory, w: Walk)
    requires Sound(w) && w.at < |w.lists|
    requires var l := w.lists[w.at]; l.count > 0 && l.elem != 0 && l.elem != l.prev
    ensures var w' := ElemDone(env, mem, w);
            Closed(Tabulated(env, mem, w', Coming(mem, w'))) == Closed(Tabulated(env, mem, w, Coming(mem, w)))
  {
    var w', l := ElemDone(env, mem, w), w.lists[w.at];
    ComingAfterElem(env, mem, w);
    TabulateMore(env, mem, w, [OwnerAt(mem, l.elem)], Coming(mem, w'));
  }

  lemma ReplaceLast<T>(s: seq<T>, x: T, y: T)
    ensures (s + [x])[|s| := y] == s + [y]
  {
  }

  /** The tasks on the lists from `k` on. */
  function Later(mem: Memory, w: Walk, k: nat): seq<u64>
    requires k <= |w.lists|
  {
    OnLists(mem, AddressesFrom(w.lists, k))
  }

  /** The final table when the walk stands at the beginning of a list. */
  function Expected(env: Setup, mem: Memory, w: Walk): Walk
    requires w.at <= |w.lists|
  {
    Closed(Tabulated(env, mem, w, Later(mem, w, w.at)))
  }

  /** One list is enumerated element by element, then the walk leaves it. */
  lemma {:induction false} ElemsPlayed(env: Setup, mem: Memory, w: Walk)
    requires Sound(w) && w.at < |w.lists| && Pristine(w.lists, w.at + 1)
    ensures Ready(AtElem(w))
    ensures SameTable(Play(env, AtElem(w), mem), Closed(Tabulated(env, mem, w, Coming(mem, w))))
    decreases |w.lists| - w.at, 0, w.lists[w.at].count
  {
    var l := w.lists[w.at];
    if l.count == 0 || l.elem == 0 || l.elem == l.prev {
      LeaveIsNextList(w);
      NothingComing(mem, w);
      ListsPlayed(env, mem, w.(at := w.at + 1));
      ClosedTable(env, mem, w, w.(at := w.at + 1), Coming(mem, w));
    } else {
      ElemPlayed(env, mem, w);
      ElemsPlayed(env, mem, ElemDone(env, mem, w));
      TabulateElem(env, mem, w);
    }
  }

  lemma {:induction false} SameAddresses(a: seq<ThreadList>, b: seq<ThreadList>, k: nat)
    requires |a| == |b| && k <= |a|
    requires forall i :: k <= i < |a| ==> a[i].address == b[i].address
    ensures AddressesFrom(a, k) == AddressesFrom(b, k)
    decreases |a| - k
  {
    if k < |a| {
      SameAddresses(a, b, k + 1);
    }
  }

  /** The remaining lists are enumerated in order. */
  lemma {:induction false} ListsPlayed(env: Setup, mem: Memory, w: Walk)
    requires Sound(w) && w.at <= |w.lists| && Pristine(w.lists, w.at)
    ensures Ready(NextList(w)) && SameTable(Play(env, NextList(w), mem), Expected(env, mem, w))
    decreases |w.lists| - w.at, 1, 0
  {
    if w.at == |w.lists| {
      NoListsLeft(env, mem, w);
    } else if w.lists[w.at].address == 0 {
      NextListSkips(w);
      NothingHere(env, mem, w);
      ListsPlayed(env, mem, w.(at := w.at + 1));
    } else {
      ListPlayed(env, mem, w);
    }
  }

  lemma {:induction false} NoListsLeft(env: Setup, mem: Memory, w: Walk)
    requires w.at == |w.lists|
    ensures Ready(NextList(w)) && SameTable(Play(env, NextList(w), mem), Expected(env, mem, w))
  {
    TabulateNothing(env, mem, w);
  }

  lemma {:induction false} NextListSkips(w: Walk)
    requires w.at < |w.lists| && w.lists[w.at].address == 0
    ensures NextList(w) == NextList(w.(at := w.at + 1))
  {
  }

  /** A list with an address: its count is read first. */
  lemma {:induction false} ListPlayed(env: Setup, mem: Memory, w: Walk)
    requires Sound(w) && w.at < |w.lists| && Pristine(w.lists, w.at) && w.lists[w.at].address != 0
    ensures Ready(NextList(w)) && SameTable(Play(env, NextList(w), mem), Expected(env, mem, w))
    decreases |w.lists| - w.at, 0, TWO_64 + 2
  {
    var w1 := Counted(w, WordAt(mem, w.lists[w.at].address));
    CountRead(env, mem, w);
    CountedPlayed(env, mem, w1);
    SameExpected(env, mem, w, w1);
  }

  /** The list whose count is known is passed over when that is zero, and enumerated otherwise. */
  lemma {:induction false} CountedPlayed(env: Setup, mem: Memory, w: Walk)
    requires Sound(w) && w.at < |w.lists| && Pristine(w.lists, w.at)
    requires var l := w.lists[w.at]; l.address != 0 && l.count == WordAt(mem, l.address)
    ensures Ready(AfterCount(w)) && SameTable(Play(env, AfterCount(w), mem), Expected(env, mem, w))
    decreases |w.lists| - w.at, 0, TWO_64 + 1
  {
    if w.lists[w.at].count == 0 {
      NothingHere(env, mem, w);
      ListsPlayed(env, mem, w.(at := w.at + 1));
    } else {
      OpenListPlayed(env, mem, w);
    }
  }

  function Counted(w: Walk, count: u64): (r: Walk)
    requires w.at < |w.lists|
    ensures r.at == w.at < |r.lists| == |w.lists|
  {
    SetList(w, w.lists[w.at].(count := count))
  }

  /** The count is read first. */
  lemma {:induction false} CountRead(env: Setup, mem: Memory, w: Walk)
    requires Sound(w) && w.at < |w.lists| && w.lists[w.at].address != 0
    ensures var o := AfterCount(Counted(w, WordAt(mem, w.lists[w.at].address)));
            Ready(NextList(w)) && Ready(o) && Play(env, NextList(w), mem) == Play(env, o, mem)
  {
    NextListMovesOn(w);
    CountIsSet(w, WordAt(mem, w.lists[w.at].address));
    PlayCount(env, NextList(w), mem);
  }

  lemma {:induction false} CountIsSet(w: Walk, count: u64)
    requires w.at < |w.lists|
    ensures OnListCount(w, count) == AfterCount(Counted(w, count))
    ensures w.lists[w.at].address != 0 ==>
              NextList(w) == Ask(w, Read(w.lists[w.at].address, THREAD_COUNTER_SIZE, ListCount))
  {
  }

  /** A list with count zero is left at once. */
  function AfterCount(w: Walk): Outcome
    requires w.at < |w.lists|
  {
    if w.lists[w.at].count == 0 then NextList(w.(at := w.at + 1)) else OpenList(w)
  }

  /** The read of the first element of a list. */
  function OpenList(w: Walk): Outcome
    requires w.at < |w.lists|
  {
    Ask(w, Read(Add64(w.lists[w.at].address, LIST_NEXT_OFFSET), POINTER_SIZE, ListElemPtr))
  }

  lemma {:induction false} OpenListPlayed(env: Setup, mem: Memory, w: Walk)
    requires Sound(w) && w.at < |w.lists| && Pristine(w.lists, w.at)
    requires var l := w.lists[w.at]; l.address != 0 && l.count == WordAt(mem, l.address) > 0
    ensures Ready(OpenList(w)) && SameTable(Play(env, OpenList(w), mem), Expected(env, mem, w))
    decreases |w.lists| - w.at, 0, TWO_64
  {
    PlayElemPtr(env, OpenList(w), mem);
    var w' := Opened(mem, w);
    ElemsPlayed(env, mem, w');
    ComingIsLater(mem, w);
    ClosedTable(env, mem, w, w', Coming(mem, w'));
  }

  function Opened(mem: Memory, w: Walk): (r: Walk)
    requires w.at < |w.lists|
    ensures r.at == w.at < |r.lists| == |w.lists|
  {
    var l := w.lists[w.at];
    SetList(w, l.(elem := WordAt(mem, Add64(l.address, LIST_NEXT_OFFSET))))
  }

  lemma {:induction false} ComingIsLater(mem: Memory, w: Walk)
    requires w.at < |w.lists|
    requires var l := w.lists[w.at]; l.address != 0 && l.count == WordAt(mem, l.address) && l.prev == NO_ELEM
    ensures Coming(mem, Opened(mem, w)) == Later(mem, w, w.at)
  {
    SameAddresses(w.lists, Opened(mem, w).lists, w.at + 1);
    LaterFirst(mem, w);
  }

  lemma {:induction false} LaterFirst(mem: Memory, w: Walk)
    requires w.at < |w.lists|
    ensures Later(mem, w, w.at) == OnOneList(mem, w.lists[w.at].address) + Later(mem, w, w.at + 1)
  {
    Head(w.lists[w.at].address, AddressesFrom(w.lists, w.at + 1));
  }

  /** A list without tasks is passed over. */
  lemma {:induction false} NothingHere(env: Setup, mem: Memory, w: Walk)
    requires w.at < |w.lists| && OnOneList(mem, w.lists[w.at].address) == []
    ensures Expected(env, mem, w) == Expected(env, mem, w.(at := w.at + 1))
  {
    LaterFirst(mem, w);
    Empty(Later(mem, w, w.at + 1));
    ClosedTable(env, mem, w, w.(at := w.at + 1), Later(mem, w, w.at + 1));
  }

  /** Only the addresses of the lists matter for the tasks to come. */
  lemma {:induction false} SameExpected(env: Setup, mem: Memory, a: Walk, b: Walk)
    requires b == a.(lists := b.lists) && a.at <= |a.lists| == |b.lists|
    requires forall i :: a.at <= i < |a.lists| ==> a.lists[i].address == b.lists[i].address
    ensures Expected(env, mem, a) == Expected(env, mem, b)
  {
    SameAddresses(a.lists, b.lists, a.at);
    ClosedTable(env, mem, a, b, Later(mem, a, a.at));
  }

  /** Closing forgets the lists. */
  lemma {:induction false} ClosedTable(env: Setup, mem: Memory, a: Walk, b: Walk, tcbs: seq<u64>)
    requires b == a.(lists := b.lists, at := b.at)
    ensures Closed(Tabulated(env, mem, a, tcbs)) == Closed(Tabulated(env, mem, b, tcbs))
  {
  }

  lemma {:induction false} NewListAddresses(addresses: seq<u64>, k: nat)
    requires k <= |addresses|
    ensures AddressesFrom(NewLists(addresses), k) == addresses[k..]
    decreases |addresses| - k
  {
    if k < |addresses| {
      NewListAddresses(addresses, k + 1);
    }
  }

  lemma {:induction false} ScanPlayed(env: Setup, mem: Memory, w: Walk, ready: nat)
    requires Sound(w)
    ensures Ready(ScanLists(env, w, ready))
    ensures SameTable(Play(env, ScanLists(env, w, ready), mem),
                      Closed(Tabulated(env, mem, w, OnLists(mem, Addresses(env.symbols, ready)))))
  {
    var addresses := Addresses(env.symbols, ready);
    var w' := w.(lists := NewLists(addresses), at := 0);
    ListsPlayed(env, mem, w');
    NewListAddresses(addresses, 0);
    assert addresses[0..] == addresses;
  }

  /** The update against memory computes the enumeration: the same rows in the same order, the same
      ids, the same counters. */
  lemma {:induction false} WalkRefinesEnumeration(env: Setup, mem: Memory, ids: seq<Entry>)
    ensures SameTable(Play(env, Begin(env, ids), mem), Enumeration(env, mem, ids))
  {
    var s := env.symbols;
    var o0 := Begin(env, ids);
    ReplyIsWord(mem, o0.read);
    PlayStep(env, o0, mem);
    var w0 := NO_WALK.(ids := ids, count := WordAt(mem, s[SYM_TASKS_NUMBER]));
    var o1 := OnReply(env, o0, ReplyText(mem, o0.read));
    ReplyIsWord(mem, o1.read);
    PlayStep(env, o1, mem);
    CurrentThreadPlayed(env, mem, w0, WordAt(mem, s[SYM_CURRENT_TCB]));
  }

  lemma {:induction false} CurrentThreadPlayed(env: Setup, mem: Memory, w: Walk, current: u64)
    requires w.info == [] && w.count == WordAt(mem, env.symbols[SYM_TASKS_NUMBER])
    ensures Ready(OnCurrentThread(env, w, current))
    ensures SameTable(Play(env, OnCurrentThread(env, w, current), mem),
                      Closed(Tabulated(env, mem, WithCurrent(env, w, current), AllTasks(env.symbols, mem))))
  {
    if w.count == 0 {
      NoTasksPlayed(env, mem, w, current);
    } else {
      TasksAsked(env, w, current);
      AskListsPlayed(env, mem, WithCurrent(env, w, current));
    }
  }

  lemma TasksAsked(env: Setup, w: Walk, current: u64)
    requires 0 < w.count < TWO_64 - 1
    ensures OnCurrentThread(env, w, current) == AskLists(env, WithCurrent(env, w, current))
    ensures Sound(WithCurrent(env, w, current))
  {
  }

  lemma NoTasksPlayed(env: Setup, mem: Memory, w: Walk, current: u64)
    requires w.count == 0
    ensures OnCurrentThread(env, w, current).Finished?
    ensures SameTable(OnCurrentThread(env, w, current).w, Closed(Tabulated(env, mem, WithCurrent(env, w, current), [])))
  {
    TabulateNothing(env, mem, WithCurrent(env, w, current));
  }

  lemma TabulateNothing(env: Setup, mem: Memory, w: Walk)
    ensures Tabulated(env, mem, w, []) == w
  {
    Empty(w.info);
  }

  lemma AskListsPlayed(env: Setup, mem: Memory, w: Walk)
    requires Sound(w)
    ensures Ready(AskLists(env, w))
    ensures SameTable(Play(env, AskLists(env, w), mem),
                      Closed(Tabulated(env, mem, w, OnLists(mem, Scanned(env.symbols, mem)))))
  {
    var s := env.symbols;
    if s[SYM_TOP_USED_PRIORITY] == 0 && s[SYM_TOP_READY_PRIORITY] == 0 {
      ScanPlayed(env, mem, w, MAX_PRIORITIES);
    } else {
      var o := AskLists(env, w);
      AskListsMovesOn(env, w);
      PlayTopPriority(env, o, mem);
      ScanPlayed(env, mem, w, WordAt(mem, o.read.address));
    }
  }

  // ------------------------------------------------------------------- rings

  /** The elements of a well-formed list in memory: linked in order, not null, and no element
      directly follows itself. */
  predicate Ring(mem: Memory, items: seq<u64>) {
    && (forall i :: 0 <= i < |items| ==> items[i] != 0)
    && (forall i :: 0 < i < |items| ==>
          items[i] != items[i - 1] && items[i] == WordAt(mem, Add64(items[i - 1], LIST_ELEM_NEXT_OFFSET)))
  }

  lemma {:induction false} RingItems(mem: Memory, items: seq<u64>, prev: u64)
    requires items != [] && Ring(mem, items) && items[0] != prev
    ensures Items(mem, items[0], prev, |items|) == items
  {
    if |items| > 1 {
      RingItems(mem, items[1..], items[0]);
    } else {
      assert Items(mem, WordAt(mem, Add64(items[0], LIST_ELEM_NEXT_OFFSET)), items[0], 0) == [];
      assert items == [items[0]];
    }
  }

  /** A list in memory: a count, and a ring of that many elements reached from the head. */
  predicate ListHolds(mem: Memory, address: u64, items: seq<u64>) {
    && address != 0 && WordAt(mem, address) == |items|
    && Ring(mem, items)
    && (items != [] ==> items[0] == WordAt(mem, Add64(address, LIST_NEXT_OFFSET)))
  }

  /** On well-formed lists nothing is skipped and nothing is seen twice over. */
  lemma {:induction false} ListEnumerated(mem: Memory, address: u64, items: seq<u64>)
    requires ListHolds(mem, address, items)
    ensures OnOneList(mem, address) == OwnersOf(mem, items)
  {
    if items != [] {
      RingItems(mem, items, NO_ELEM);
    }
  }

  /** The table shows the current execution and then the given tasks, as many threads as rows. */
  predicate Shows(env: Setup, w: Walk, tasks: seq<u64>) {
    && |w.info| == 1 + |tasks| && w.count == |w.info|
    && w.info[0] == CurrentExecution(env.multiprocess)
    && forall i :: 0 <= i < |tasks| ==> w.info[i + 1].tcb == tasks[i] && w.info[i + 1].exists_
  }

  /** Each list to scan has no address or is well formed; `rings` are the elements. */
  predicate ListsHold(mem: Memory, lists: seq<u64>, rings: seq<seq<u64>>) {
    |rings| == |lists| && forall i :: 0 <= i < |lists| ==>
      if lists[i] == 0 then rings[i] == [] else ListHolds(mem, lists[i], rings[i])
  }

  /** The table of a target whose scanned lists are well formed: the current execution and then the
      owner of every element of every list, in order. */
  lemma {:induction false} TableOfHaltedTarget(env: Setup, mem: Memory, ids: seq<Entry>, rings: seq<seq<u64>>)
    requires WordAt(mem, env.symbols[SYM_TASKS_NUMBER]) != 0
    requires ListsHold(mem, Scanned(env.symbols, mem), rings)
    ensures Shows(env, Play(env, Begin(env, ids), mem), OwnersOf(mem, Flat(rings)))
  {
    WalkRefinesEnumeration(env, mem, ids);
    FlatOwners(mem, Scanned(env.symbols, mem), rings);
    EnumerationShows(env, mem, ids);
    SameTableShows(env, Play(env, Begin(env, ids), mem), Enumeration(env, mem, ids), OwnersOf(mem, Flat(rings)));
  }

  lemma SameTableShows(env: Setup, a: Walk, b: Walk, tasks: seq<u64>)
    requires SameTable(a, b) && Shows(env, b, tasks)
    ensures Shows(env, a, tasks)
  {
  }

  lemma EnumerationShows(env: Setup, mem: Memory, ids: seq<Entry>)
    ensures Shows(env, Enumeration(env, mem, ids), AllTasks(env.symbols, mem))
  {
    var s := env.symbols;
    var w0 := NO_WALK.(ids := ids, count := WordAt(mem, s[SYM_TASKS_NUMBER]));
    TabulatedShows(env, mem, w0, WordAt(mem, s[SYM_CURRENT_TCB]), AllTasks(s, mem));
  }

  lemma TabulatedShows(env: Setup, mem: Memory, w: Walk, current: u64, tasks: seq<u64>)
    requires w.info == []
    ensures Shows(env, Closed(Tabulated(env, mem, WithCurrent(env, w, current), tasks)), tasks)
  {
    var w' := WithCurrent(env, w, current);
    RowsTcbs(env, mem, w'.currentTcb, w'.ids, tasks);
    Empty([CurrentExecution(env.multiprocess)]);
    Head(CurrentExecution(env.multiprocess), Rows(env, mem, w'.currentTcb, w'.ids, tasks));
  }

  lemma {:induction false} RowsTcbs(env: Setup, mem: Memory, current: u64, ids: seq<Entry>, tcbs: seq<u64>)
    ensures var r := Rows(env, mem, current, ids, tcbs);
            forall i :: 0 <= i < |tcbs| ==> r[i].tcb == tcbs[i] && r[i].exists_
    decreases |tcbs|
  {
    if tcbs != [] {
      RowsTcbs(env, mem, current, Assign(ids, tcbs[0]).0, tcbs[1..]);
    }
  }

  function Flat(rings: seq<seq<u64>>): seq<u64> {
    if rings == [] then [] else rings[0] + Flat(rings[1..])
  }

  lemma {:induction false} FlatOwners(mem: Memory, lists: seq<u64>, rings: seq<seq<u64>>)
    requires ListsHold(mem, lists, rings)
    ensures OnLists(mem, lists) == OwnersOf(mem, Flat(rings))
    decreases |lists|
  {
    if lists != [] {
      FlatOwners(mem, lists[1..], rings[1..]);
      if lists[0] != 0 {
        ListEnumerated(mem, lists[0], rings[0]);
      }
      OwnersAppend(mem, rings[0], Flat(rings[1..]));
    }
  }

  lemma {:induction false} OwnersAppend(mem: Memory, a: seq<u64>, b: seq<u64>)
    ensures OwnersOf(mem, a + b) == OwnersOf(mem, a) + OwnersOf(mem, b)
    decreases |a|
  {
    if a == [] {
      Empty(b);
      Empty(OwnersOf(mem, b));
    } else {
      TailOfSum(a, b);
      OwnersAppend(mem, a[1..], b);
      Assoc([OwnerAt(mem, a[0])], OwnersOf(mem, a[1..]), OwnersOf(mem, b));
    }
  }
}
