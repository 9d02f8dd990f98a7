/** The walk against any replies at all, also corrupt or cyclic ones. */
module WalkRuns {
  import opened Text
  import opened IdMaps
  import opened Memories
  import opened Walks

  /** The state of the walk after the given replies; replies after the end are not used. */
  function After(env: Setup, o: Outcome, replies: seq<string>): (r: Outcome)
    requires Ready(o)
    ensures Ready(r)
    decreases |replies|
  {
    if replies == [] || o.Finished? then o
    else
      StepReady(env, o, replies[0]);
      After(env, OnReply(env, o, replies[0]), replies[1..])
  }

  // ------------------------------------------------------------- termination

  function Stage(c: Continuation): nat {
    match c case ThreadsCount => 3 case CurrentThread => 2 case TopPriority => 1 case _ => 0
  }

  function ListsLeft(o: Outcome): int {
    if o.Ask? && OnList(o.read.next) then |o.w.lists| - o.w.at else 0
  }

  function Unread(o: Outcome): nat {
    if o.Ask? && o.read.next == ListCount then 1 else 0
  }

  function Remaining(o: Outcome): nat
    requires Ready(o)
  {
    if o.Ask? && OnList(o.read.next) then o.w.lists[o.w.at].count else 0
  }

  function Turn(o: Outcome): nat {
    if o.Finished? then 0
    else match o.read.next case ElemName => 1 case ElemOwner => 2 case _ => 3
  }

  /** One state of the walk comes strictly later than another. */
  predicate Later(a: Outcome, b: Outcome)
    requires Ready(a) && Ready(b)
  {
    a.Ask? && (b.Finished? ||
      var (sa, sb) := (Stage(a.read.next), Stage(b.read.next));
      var (la, lb) := (ListsLeft(a), ListsLeft(b));
      sb < sa || (sb == sa && (lb < la || (lb == la && (Unread(b) < Unread(a) || (Unread(b) == Unread(a) &&
        (Remaining(b) < Remaining(a) || (Remaining(b) == Remaining(a) && Turn(b) < Turn(a)))))))))
  }

  /** Every reply, whatever it says, makes progress. */
  lemma StepLater(env: Setup, o: Outcome, data: string)
    requires Ready(o) && o.Ask?
    ensures Ready(OnReply(env, o, data)) && Later(o, OnReply(env, o, data))
  {
    var w, val := o.w, ReplyWord(data);
    match o.read.next
    case ThreadsCount =>
    case CurrentThread => CurrentThreadMovesOn(env, w, val);
    case TopPriority => ScanListsMovesOn(env, w, val);
    case ListCount => ListCountMovesOn(w, val);
    case ListElemPtr => AtElemMovesOn(SetList(w, w.lists[w.at].(elem := val)));
    case ElemOwner => OwnerReady(env, w, val);
    case ElemName =>
    case ElemNext => AtElemMovesOn(SetList(w, w.lists[w.at].(prev := w.lists[w.at].elem, elem := val)));
  }

  /** One reply, seen from outside. */
  lemma OneStep(env: Setup, o: Outcome, data: string) returns (o': Outcome)
    requires Ready(o) && o.Ask?
    ensures Ready(o') && Later(o, o')
    ensures forall rest :: After(env, o, [data] + rest) == After(env, o', rest)
  {
    StepLater(env, o, data);
    o' := OnReply(env, o, data);
    forall rest ensures After(env, o, [data] + rest) == After(env, o', rest) {
      Head(data, rest);
    }
  }

  /** The next `n` of the target's replies. */
  function Take(replies: nat -> string, from: nat, n: nat): seq<string>
    decreases n
  {
    if n == 0 then [] else [replies(from)] + Take(replies, from + 1, n - 1)
  }

  /** The walk ends after finitely many replies, whatever they are. */
  lemma {:induction false} WalkTerminates(env: Setup, o: Outcome, replies: nat -> string, from: nat) returns (n: nat)
    requires Ready(o)
    ensures After(env, o, Take(replies, from, n)).Finished?
    decreases if o.Ask? then Stage(o.read.next) + 1 else 0, ListsLeft(o), Unread(o), Remaining(o), Turn(o)
  {
    if o.Finished? {
      n := 0;
    } else {
      var o' := OneStep(env, o, replies(from));
      var m := WalkTerminates(env, o', replies, from + 1);
      n := m + 1;
      assert Take(replies, from, n) == [replies(from)] + Take(replies, from + 1, m);
    }
  }

  // ------------------------------------------------------- number of entries

  /** The sum of the list counts that were read. */
  function CountsRead(env: Setup, o: Outcome, replies: seq<string>): nat
    requires Ready(o)
    decreases |replies|
  {
    if replies == [] || o.Finished? then 0
    else
      StepReady(env, o, replies[0]);
      (if o.read.next == ListCount then ReplyWord(replies[0]) else 0)
      + CountsRead(env, OnReply(env, o, replies[0]), replies[1..])
  }

  /** Rows in the table and rows that the counts read so far still allow. */
  function Allowed(o: Outcome): nat
    requires Ready(o)
  {
    |o.w.info| +
    if o.Finished? then 0
    else match o.read.next
      case ThreadsCount => 1
      case CurrentThread => 1
      case ListElemPtr => Remaining(o)
      case ElemOwner => Remaining(o)
      case ElemName => Remaining(o) - 1
      case ElemNext => Remaining(o)
      case _ => 0
  }

  lemma StepAllowed(env: Setup, o: Outcome, data: string)
    requires Ready(o) && o.Ask?
    ensures Ready(OnReply(env, o, data))
    ensures Allowed(OnReply(env, o, data)) <= Allowed(o) + if o.read.next == ListCount then ReplyWord(data) else 0
  {
    var w, val := o.w, ReplyWord(data);
    match o.read.next
    case ThreadsCount =>
    case CurrentThread => CurrentThreadMovesOn(env, w, val);
    case TopPriority => ScanListsMovesOn(env, w, val);
    case ListCount => ListCountMovesOn(w, val);
    case ListElemPtr => AtElemMovesOn(SetList(w, w.lists[w.at].(elem := val)));
    case ElemOwner => OwnerReady(env, w, val);
    case ElemName =>
    case ElemNext => AtElemMovesOn(SetList(w, w.lists[w.at].(prev := w.lists[w.at].elem, elem := val)));
  }

  /** However the target answers, the table never has more rows than one plus the counts read. */
  lemma {:induction false} RowsBounded(env: Setup, o: Outcome, replies: seq<string>)
    requires Ready(o)
    ensures |After(env, o, replies).w.info| <= Allowed(o) + CountsRead(env, o, replies)
    decreases |replies|
  {
    if replies != [] && o.Ask? {
      StepAllowed(env, o, replies[0]);
      RowsBounded(env, OnReply(env, o, replies[0]), replies[1..]);
    }
  }

  lemma {:induction false} RowsBoundedFromStart(env: Setup, ids: seq<Entry>, replies: seq<string>)
    ensures |After(env, Begin(env, ids), replies).w.info| <= 1 + CountsRead(env, Begin(env, ids), replies)
  {
    RowsBounded(env, Begin(env, ids), replies);
  }

  // ---------------------------------------------------- the map follows the table

  /** The control blocks of the walked rows: all rows but the first, the current execution. */
  function Walked(info: seq<ThreadInfo>): set<u64> {
    set i | 1 <= i < |info| :: info[i].tcb
  }

  /** The key that stands for the running task, once that is known. */
  function Running(w: Walk): set<u64> {
    if w.currentTcb == 0 then {} else {w.currentTcb}
  }

  predicate FirstRow(env: Setup, w: Walk) {
    w.info != [] && w.info[0] == CurrentExecution(env.multiprocess)
  }

  /** While the walk goes on, the map holds the keys it began with, the running task and the walked
      tasks; at its end, of these, the ones that have a row. */
  predicate MapFollows(env: Setup, before: set<u64>, o: Outcome) {
    var all := before + Running(o.w) + Walked(o.w.info);
    if o.Ask? then
      && Keys(o.w.ids) == all && Sorted(o.w.ids) && AtLeastFirst(o.w.ids)
      && if Stage(o.read.next) >= 2 then o.w.info == [] && o.w.currentTcb == 0 else FirstRow(env, o.w)
    else
      && Keys(o.w.ids) == all * Tcbs(o.w.info) && Sorted(o.w.ids) && AtLeastFirst(o.w.ids)
      && FirstRow(env, o.w) && o.w.lists == [] && o.w.count == |o.w.info|
  }

  /** The same before `Done` or another request decides between the two cases. */
  predicate Following(env: Setup, before: set<u64>, w: Walk) {
    && Sorted(w.ids) && AtLeastFirst(w.ids) && FirstRow(env, w)
    && Keys(w.ids) == before + Running(w) + Walked(w.info)
  }

  lemma DoneFollows(env: Setup, before: set<u64>, w: Walk)
    requires Following(env, before, w)
    ensures MapFollows(env, before, Done(w))
  {
    KeepMeaning(w.ids, Tcbs(w.info));
  }

  lemma NextListFollows(env: Setup, before: set<u64>, w: Walk)
    requires Following(env, before, w) && w.at <= |w.lists|
    ensures MapFollows(env, before, NextList(w))
  {
    var at := NextAddress(w.lists, w.at);
    DoneFollows(env, before, w.(at := at));
  }

  lemma AtElemFollows(env: Setup, before: set<u64>, w: Walk)
    requires Following(env, before, w) && w.at < |w.lists|
    ensures MapFollows(env, before, AtElem(w))
  {
    NextListFollows(env, before, w.(at := w.at + 1));
  }

  lemma AskListsFollows(env: Setup, before: set<u64>, w: Walk)
    requires Following(env, before, w)
    ensures MapFollows(env, before, AskLists(env, w))
  {
    NextListFollows(env, before, w.(lists := NewLists(Addresses(env.symbols, MAX_PRIORITIES)), at := 0));
  }

  lemma CurrentThreadFollows(env: Setup, before: set<u64>, w: Walk, val: u64)
    requires Sorted(w.ids) && AtLeastFirst(w.ids) && Keys(w.ids) == before && w.info == []
    ensures MapFollows(env, before, OnCurrentThread(env, w, val))
  {
    WithCurrentFollows(env, before, w, val);
    var w' := WithCurrent(env, w, val);
    DoneFollows(env, before, w');
    AskListsFollows(env, before, w');
  }

  lemma WithCurrentFollows(env: Setup, before: set<u64>, w: Walk, val: u64)
    requires Sorted(w.ids) && AtLeastFirst(w.ids) && Keys(w.ids) == before && w.info == []
    ensures Following(env, before, WithCurrent(env, w, val))
  {
    var w' := WithCurrent(env, w, val);
    assert w'.info == [CurrentExecution(env.multiprocess)];
    assert Walked(w'.info) == {};
    if val == 0 {
      assert before + {} + {} == before;
    } else {
      AssignKeys(w.ids, val);
      assert before + {val} + {} == before + {val};
    }
  }

  lemma OwnerFollows(env: Setup, before: set<u64>, w: Walk, val: u64)
    requires Following(env, before, w)
    ensures MapFollows(env, before, OnOwner(env, w, val)) && RowNamed(OnOwner(env, w, val))
  {
    AssignKeys(w.ids, val);
    WalkedSnoc(w.info, ThreadInfo(val, MakeThreadId(env.multiprocess, Assign(w.ids, val).1), false, "", ""));
    UnionOnce(Keys(w.ids), before + Running(w), Walked(w.info), val);
  }

  lemma UnionOnce(all: set<u64>, a: set<u64>, b: set<u64>, x: u64)
    requires all == a + b
    ensures all + {x} == a + (b + {x})
  {
  }

  lemma WalkedSnoc(info: seq<ThreadInfo>, row: ThreadInfo)
    requires info != []
    ensures Walked(info + [row]) == Walked(info) + {row.tcb}
  {
    var all := info + [row];
    assert forall i :: 1 <= i < |info| ==> all[i] == info[i];
    assert all[|info|] == row;
    assert row.tcb in Walked(all);
    forall i | 1 <= i < |info| ensures info[i].tcb in Walked(all) {
      assert all[i] == info[i];
    }
  }

  lemma NameFollows(env: Setup, before: set<u64>, w: Walk, bytes: seq<byte>)
    requires Following(env, before, w) && |w.info| > 1 && w.at < |w.lists| && w.lists[w.at].count > 0
    ensures MapFollows(env, before, OnName(w, bytes)) && RowNamed(OnName(w, bytes))
  {
    var info := OnName(w, bytes).w.info;
    assert forall i :: 1 <= i < |w.info| ==> info[i].tcb == w.info[i].tcb;
    assert Walked(info) == Walked(w.info);
  }

  /** A name is only asked for once its row exists. */
  predicate RowNamed(o: Outcome) {
    o.Ask? && o.read.next == ElemName ==> |o.w.info| > 1
  }

  lemma StepFollows(env: Setup, before: set<u64>, o: Outcome, data: string)
    requires Ready(o) && o.Ask? && MapFollows(env, before, o) && RowNamed(o)
    ensures MapFollows(env, before, OnReply(env, o, data)) && RowNamed(OnReply(env, o, data))
  {
    if Stage(o.read.next) >= 2 {
      assert before + {} + Walked([]) == before;
      EarlyStepFollows(env, before, o, data);
    } else if o.read.next == ElemOwner {
      OwnerStepFollows(env, before, o, data);
    } else if o.read.next == ElemName {
      NameStepFollows(env, before, o, data);
    } else {
      ListStepFollows(env, before, o, data);
    }
  }

  lemma EarlyStepFollows(env: Setup, before: set<u64>, o: Outcome, data: string)
    requires Ready(o) && o.Ask? && Stage(o.read.next) >= 2 && MapFollows(env, before, o)
    requires Keys(o.w.ids) == before
    ensures MapFollows(env, before, OnReply(env, o, data)) && RowNamed(OnReply(env, o, data))
  {
    if o.read.next == CurrentThread {
      CurrentThreadFollows(env, before, o.w, ReplyWord(data));
      CurrentThreadMovesOn(env, o.w, ReplyWord(data));
    }
  }

  lemma OwnerStepFollows(env: Setup, before: set<u64>, o: Outcome, data: string)
    requires Ready(o) && o.Ask? && Following(env, before, o.w) && o.read.next == ElemOwner
    ensures MapFollows(env, before, OnReply(env, o, data)) && RowNamed(OnReply(env, o, data))
  {
    assert OnReply(env, o, data) == OnOwner(env, o.w, ReplyWord(data));
    OwnerFollows(env, before, o.w, ReplyWord(data));
  }

  lemma NameStepFollows(env: Setup, before: set<u64>, o: Outcome, data: string)
    requires Ready(o) && o.Ask? && Following(env, before, o.w) && o.read.next == ElemName && |o.w.info| > 1
    ensures MapFollows(env, before, OnReply(env, o, data)) && RowNamed(OnReply(env, o, data))
  {
    assert OnReply(env, o, data) == OnName(o.w, ReplyBytes(data));
    NameFollows(env, before, o.w, ReplyBytes(data));
  }

  lemma ListStepFollows(env: Setup, before: set<u64>, o: Outcome, data: string)
    requires Ready(o) && o.Ask? && Following(env, before, o.w)
    requires Stage(o.read.next) < 2 && o.read.next != ElemOwner && o.read.next != ElemName
    ensures MapFollows(env, before, OnReply(env, o, data)) && RowNamed(OnReply(env, o, data))
  {
    var w, val := o.w, ReplyWord(data);
    match o.read.next
    case TopPriority =>
      NextListFollows(env, before, w.(lists := NewLists(Addresses(env.symbols, val)), at := 0));
    case ListCount => ListCountFollows(env, before, w, val);
    case ListElemPtr => AtElemFollows(env, before, SetList(w, w.lists[w.at].(elem := val)));
    case ElemNext => AtElemFollows(env, before, SetList(w, w.lists[w.at].(prev := w.lists[w.at].elem, elem := val)));
  }

  lemma ListCountFollows(env: Setup, before: set<u64>, w: Walk, val: u64)
    requires Following(env, before, w) && w.at < |w.lists|
    ensures MapFollows(env, before, OnListCount(w, val))
  {
    var w' := SetList(w, w.lists[w.at].(count := val));
    FollowingStays(env, before, w, w');
    if val == 0 {
      NextListFollows(env, before, w'.(at := w'.at + 1));
    }
  }

  lemma FollowingStays(env: Setup, before: set<u64>, w: Walk, w': Walk)
    requires Following(env, before, w) && w' == w.(lists := w'.lists, at := w'.at)
    ensures Following(env, before, w')
  {
  }

  lemma {:induction false} RunFollows(env: Setup, before: set<u64>, o: Outcome, replies: seq<string>)
    requires Ready(o) && MapFollows(env, before, o) && RowNamed(o)
    ensures MapFollows(env, before, After(env, o, replies))
    decreases |replies|
  {
    if replies != [] && o.Ask? {
      StepReady(env, o, replies[0]);
      StepFollows(env, before, o, replies[0]);
      RunFollows(env, before, OnReply(env, o, replies[0]), replies[1..]);
    }
  }

  /** After any completed update, whatever the map held before and whatever the target answered,
      the map's keys are exactly the walked tasks (and 1, the key of the current execution, if it
      was mapped before or reported as running), every id is at least 2, the first row is the
      current execution, and the thread count is the number of rows. */
  lemma {:induction false} CompletedUpdate(env: Setup, ids: seq<Entry>, replies: seq<string>)
    requires Sorted(ids) && AtLeastFirst(ids)
    ensures var o := After(env, Begin(env, ids), replies);
            o.Finished? ==>
            && Keys(o.w.ids) == Walked(o.w.info) +
                 (if CURRENT_EXECUTION in Keys(ids) || o.w.currentTcb == CURRENT_EXECUTION
                  then {CURRENT_EXECUTION} else {})
            && Sorted(o.w.ids) && AtLeastFirst(o.w.ids)
            && o.w.count == |o.w.info| && o.w.lists == []
            && o.w.info != [] && o.w.info[0] == CurrentExecution(env.multiprocess)
  {
    assert Keys(ids) + {} + Walked([]) == Keys(ids);
    RunFollows(env, Keys(ids), Begin(env, ids), replies);
    var o := After(env, Begin(env, ids), replies);
    if o.Finished? {
      assert Tcbs(o.w.info) == {CURRENT_EXECUTION} + Walked(o.w.info) by {
        assert o.w.info[0].tcb == CURRENT_EXECUTION;
        assert forall i :: 1 <= i < |o.w.info| ==> o.w.info[i].tcb in Tcbs(o.w.info);
      }
    }
  }

  // ---------------------------------------------------------------- requests fit

  const TWO_32: nat := 0x1_0000_0000
  const TWO_40: nat := 0x100_0000_0000

  predicate NarrowSymbols(s: Symbols) {
    forall i :: 0 <= i < SYM_COUNT ==> s[i] < TWO_32
  }

  predicate NarrowLists(w: Walk) {
    forall i :: 0 <= i < |w.lists| ==> w.lists[i].address < TWO_40 && w.lists[i].elem < TWO_32
  }

  /** Everything the walk has learnt comes from 32-bit symbols and words, and so does its next read. */
  predicate Narrow(o: Outcome) {
    && NarrowLists(o.w)
    && (o.Ask? ==> o.read.address < TWO_40 + 64 && o.read.size < 16 && (o.read.next != ElemName ==> o.read.size <= 4))
  }

  lemma NarrowFits(o: Outcome)
    requires Narrow(o) && o.Ask?
    ensures Fits(o.read.address, o.read.size)
  {
    RequestFits(o.read.address, o.read.size);
  }

  lemma NextListNarrow(w: Walk)
    requires w.at <= |w.lists| && NarrowLists(w)
    ensures Narrow(NextList(w))
  {
  }

  lemma AtElemNarrow(w: Walk)
    requires w.at < |w.lists| && NarrowLists(w)
    ensures Narrow(AtElem(w))
  {
    NextListNarrow(w.(at := w.at + 1));
  }

  lemma ScanListsNarrow(env: Setup, w: Walk, ready: nat)
    requires NarrowSymbols(env.symbols) && ready < TWO_32
    ensures Narrow(ScanLists(env, w, ready))
  {
    var addresses := Addresses(env.symbols, ready);
    forall i | 0 <= i < |addresses| ensures addresses[i] < TWO_40 {
      if i < ready {
        assert addresses[i] == (env.symbols[SYM_READY_LISTS] + i * LIST_WIDTH) % TWO_64;
      }
    }
    NextListNarrow(w.(lists := NewLists(addresses), at := 0));
  }

  lemma CurrentThreadNarrow(env: Setup, w: Walk, val: u64)
    requires NarrowSymbols(env.symbols) && NarrowLists(w)
    ensures Narrow(OnCurrentThread(env, w, val))
  {
    ScanListsNarrow(env, WithCurrent(env, w, val), MAX_PRIORITIES);
  }

  lemma {:induction false} StepNarrow(env: Setup, o: Outcome, data: string)
    requires Ready(o) && o.Ask? && Narrow(o) && NarrowSymbols(env.symbols)
    requires o.read.next != ElemName ==> ReplyWord(data) < TWO_32
    ensures Narrow(OnReply(env, o, data))
  {
    var w, val := o.w, ReplyWord(data);
    match o.read.next {
      case ThreadsCount =>
      case CurrentThread => CurrentThreadNarrow(env, w, val);
      case TopPriority => ScanListsNarrow(env, w, val);
      case ListCount => ListCountNarrow(w, val);
      case ListElemPtr => AtElemNarrow(SetList(w, w.lists[w.at].(elem := val)));
      case ElemOwner =>
      case ElemName =>
      case ElemNext => AtElemNarrow(SetList(w, w.lists[w.at].(prev := w.lists[w.at].elem, elem := val)));
    }
  }

  /** Replies to reads of a word carry 32 bits; a name may be anything. */
  predicate NarrowReplies(env: Setup, o: Outcome, replies: seq<string>)
    requires Ready(o)
    decreases |replies|
  {
    replies == [] || o.Finished? ||
    ((o.read.next != ElemName ==> ReplyWord(replies[0]) < TWO_32) &&
     (StepReady(env, o, replies[0]); NarrowReplies(env, OnReply(env, o, replies[0]), replies[1..])))
  }

  lemma {:induction false} RunNarrow(env: Setup, o: Outcome, replies: seq<string>)
    requires Ready(o) && Narrow(o) && NarrowSymbols(env.symbols) && NarrowReplies(env, o, replies)
    ensures Narrow(After(env, o, replies))
    decreases |replies|
  {
    if replies != [] && o.Ask? {
      StepReady(env, o, replies[0]);
      StepNarrow(env, o, replies[0]);
      RunNarrow(env, OnReply(env, o, replies[0]), replies[1..]);
    }
  }

  lemma BeginNarrow(env: Setup, ids: seq<Entry>)
    requires NarrowSymbols(env.symbols)
    ensures Narrow(Begin(env, ids))
  {
  }

  /** With 32-bit symbols and 32-bit words in the replies, every read request of every walk fits the
      19-byte buffer that it is printed into. */
  lemma {:induction false} EveryReadFits(env: Setup, ids: seq<Entry>, replies: seq<string>)
    requires NarrowSymbols(env.symbols) && NarrowReplies(env, Begin(env, ids), replies)
    ensures var o := After(env, Begin(env, ids), replies); o.Ask? ==> Fits(o.read.address, o.read.size)
  {
    BeginNarrow(env, ids);
    RunNarrow(env, Begin(env, ids), replies);
    var o := After(env, Begin(env, ids), replies);
    if o.Ask? {
      NarrowFits(o);
    }
  }

  lemma ListCountNarrow(w: Walk, val: u64)
    requires w.at < |w.lists| && NarrowLists(w)
    ensures Narrow(OnListCount(w, val))
  {
    NextListNarrow(SetList(w, w.lists[w.at].(count := val)).(at := w.at + 1));
  }

  // ------------------------------------------------------------ ids in all runs

  /** The id map is in order and holds no id below 2; so no task has the id of the current execution. */
  predicate MapSound(w: Walk) {
    Sorted(w.ids) && AtLeastFirst(w.ids)
  }

  lemma DoneMapSound(w: Walk)
    requires MapSound(w)
    ensures MapSound(Done(w).w)
  {
    KeepMeaning(w.ids, Tcbs(w.info));
  }

  lemma NextListMapSound(w: Walk)
    requires w.at <= |w.lists| && MapSound(w)
    ensures MapSound(NextList(w).w)
  {
    DoneMapSound(w.(at := NextAddress(w.lists, w.at)));
  }

  lemma CurrentThreadMapSound(env: Setup, w: Walk, val: u64)
    requires MapSound(w)
    ensures MapSound(OnCurrentThread(env, w, val).w)
  {
    if val != 0 {
      AssignKeys(w.ids, val);
    }
    var w' := WithCurrent(env, w, val);
    DoneMapSound(w');
    NextListMapSound(w'.(lists := NewLists(Addresses(env.symbols, MAX_PRIORITIES)), at := 0));
  }

  /** Every reply keeps the map sound. */
  lemma StepMapSound(env: Setup, o: Outcome, data: string)
    requires Ready(o) && o.Ask? && MapSound(o.w)
    ensures MapSound(OnReply(env, o, data).w)
  {
    var w, val := o.w, ReplyWord(data);
    match o.read.next {
      case ThreadsCount =>
      case CurrentThread => CurrentThreadMapSound(env, w, val);
      case TopPriority => NextListMapSound(w.(lists := NewLists(Addresses(env.symbols, val)), at := 0));
      case ListCount => NextListMapSound(SetList(w, w.lists[w.at].(count := val)).(at := w.at + 1));
      case ListElemPtr => NextListMapSound(SetList(w, w.lists[w.at].(elem := val)).(at := w.at + 1));
      case ElemOwner => AssignKeys(w.ids, val);
      case ElemName =>
      case ElemNext =>
        NextListMapSound(SetList(w, w.lists[w.at].(prev := w.lists[w.at].elem, elem := val)).(at := w.at + 1));
    }
  }
}
