/** What the rows of the thread table and the ids of the map look like, whatever the replies say. */
module WalkTables {
  import opened Text
  import opened ThreadIds
  import opened IdMaps
  import opened Memories
  import opened Walks
  import opened WalkRuns

  /** Characters that are bytes. */
  predicate IsText(s: string) {
    forall i :: 0 <= i < |s| ==> s[i] as int < 256
  }

  /** A row with an id between 1 and `k + 2`, a name that is text, and one of the two states. */
  predicate GoodRow(row: ThreadInfo, k: nat) {
    && row.id.pid == 1 && 1 <= row.id.tid <= k + 2
    && IsText(row.name) && (row.extra == "" || row.extra == "State: Running")
  }

  /** Only the first row, the current execution, has an id below 2. */
  predicate GoodRows(info: seq<ThreadInfo>, k: nat) {
    forall i :: 0 <= i < |info| ==> GoodRow(info[i], k) && (i > 0 ==> info[i].id.tid >= FIRST_ID)
  }

  /** At most `k` entries, with ids between 2 and `k + 2`. */
  predicate SmallIds(m: seq<Entry>, k: nat) {
    |m| <= k && forall i :: 0 <= i < |m| ==> FIRST_ID <= m[i].id <= k + 2
  }

  /** The first `n` rows have got their names. */
  predicate Complete(info: seq<ThreadInfo>, n: int) {
    n <= |info| && forall i :: 0 <= i < n ==> info[i].exists_
  }

  /** The callback that waits, if one does. */
  function NextOf(o: Outcome): Continuation {
    if o.Ask? then o.read.next else NoCallback
  }

  predicate Starting(next: Continuation) {
    next == ThreadsCount || next == CurrentThread
  }

  /** Callbacks that find the table as they leave it. */
  predicate Steady(next: Continuation) {
    next != ElemName && !Starting(next)
  }

  /** While the callback `next` waits: small ids and good rows, none at the start of a walk, and all complete
      except the last one while its name is being read. */
  predicate Tame(w: Walk, k: nat, next: Continuation) {
    && SmallIds(w.ids, k) && GoodRows(w.info, k)
    && Complete(w.info, if next == ElemName then |w.info| - 1 else |w.info|)
    && (Starting(next) ==> w.info == [])
  }

  lemma {:induction false} TameMore(w: Walk, k: nat, next: Continuation)
    requires Tame(w, k, next) || (Tame(w, k, NoCallback) && Steady(next))
    ensures Tame(w, k + 1, next)
  {
  }

  lemma {:induction false} PutSmall(m: seq<Entry>, key: u64, id: int, k: nat)
    requires SmallIds(m, k) && FIRST_ID <= id <= k + 3
    ensures SmallIds(Put(m, key, id), k + 1)
  {
    var r, p := Put(m, key, id), Position(m, key);
    forall i | 0 <= i < |r| ensures FIRST_ID <= r[i].id <= k + 3 {
      if !Has(m, key) && i > p {
        assert r[i] == m[i - 1];
      }
    }
  }

  lemma {:induction false} FilledSmall(m: seq<Entry>, k: nat)
    requires SmallIds(m, k)
    ensures SmallIds(Filled(m), k)
  {
  }

  /** One more task makes the ids at most one larger. */
  lemma {:induction false} AssignSmall(m: seq<Entry>, tcb: u64, k: nat)
    requires SmallIds(m, k)
    ensures var (r, id) := Assign(m, tcb);
            SmallIds(r, k + 1) && FIRST_ID <= id <= k + 3
  {
    if !Has(m, tcb) {
      FilledSmall(m, k);
      PutSmall(Filled(m), tcb, FIRST_ID + Gap(m) + 1, k);
    }
  }

  lemma {:induction false} KeepSmall(m: seq<Entry>, keep: set<u64>, k: nat)
    requires SmallIds(m, k)
    ensures SmallIds(Keep(m, keep), k) && |Keep(m, keep)| <= |m|
    decreases |m|
  {
    if m != [] {
      KeepAtMost(m[1..], keep);
      KeepMembers(m, keep);
      KeepAtMost(m, keep);
    }
  }

  lemma {:induction false} KeepAtMost(m: seq<Entry>, keep: set<u64>)
    ensures |Keep(m, keep)| <= |m|
  {
    if m != [] {
      KeepAtMost(m[1..], keep);
    }
  }

  lemma {:induction false} SmallTid(multiprocess: bool, id: int, k: nat)
    requires 1 <= id <= k + 2 < TWO_63
    ensures MakeThreadId(multiprocess, id).tid == id && MakeThreadId(multiprocess, id).pid == 1
  {
  }

  lemma {:induction false} DoneTame(w: Walk, k: nat)
    requires Tame(w, k, NoCallback)
    ensures Tame(Done(w).w, k, NoCallback)
  {
    KeepSmall(w.ids, Tcbs(w.info), k);
  }

  lemma {:induction false} NextListTame(w: Walk, k: nat)
    requires w.at <= |w.lists| && Tame(w, k, NoCallback)
    ensures Tame(NextList(w).w, k, NoCallback) && Steady(NextOf(NextList(w)))
  {
    DoneTame(w.(at := NextAddress(w.lists, w.at)), k);
  }

  lemma {:induction false} AtElemTame(w: Walk, k: nat)
    requires w.at < |w.lists| && Tame(w, k, NoCallback)
    ensures Tame(AtElem(w).w, k, NoCallback) && Steady(NextOf(AtElem(w)))
  {
    NextListTame(w.(at := w.at + 1), k);
  }

  lemma {:induction false} ListCountTame(w: Walk, val: u64, k: nat)
    requires w.at < |w.lists| && Tame(w, k, NoCallback)
    ensures Tame(OnListCount(w, val).w, k, NoCallback) && Steady(NextOf(OnListCount(w, val)))
  {
    NextListTame(SetList(w, w.lists[w.at].(count := val)).(at := w.at + 1), k);
  }

  lemma {:induction false} ScanListsTame(env: Setup, w: Walk, ready: nat, k: nat)
    requires Tame(w, k, NoCallback)
    ensures Tame(ScanLists(env, w, ready).w, k, NoCallback) && Steady(NextOf(ScanLists(env, w, ready)))
  {
    NextListTame(w.(lists := NewLists(Addresses(env.symbols, ready)), at := 0), k);
  }

  lemma {:induction false} CurrentThreadTame(env: Setup, w: Walk, val: u64, k: nat)
    requires Tame(w, k, CurrentThread) && k + 3 < TWO_63
    ensures Tame(OnCurrentThread(env, w, val).w, k + 1, NoCallback) && Steady(NextOf(OnCurrentThread(env, w, val)))
  {
    var w' := WithCurrent(env, w, val);
    WithCurrentTame(env, w, val, k);
    DoneTame(w', k + 1);
    ScanListsTame(env, w', MAX_PRIORITIES, k + 1);
  }

  lemma {:induction false} WithCurrentTame(env: Setup, w: Walk, val: u64, k: nat)
    requires Tame(w, k, CurrentThread) && k + 3 < TWO_63
    ensures Tame(WithCurrent(env, w, val), k + 1, NoCallback)
  {
    AssignSmall(w.ids, val, k);
    SmallTid(env.multiprocess, CURRENT_EXECUTION, k);
    AddedRow(w.info, CurrentExecution(env.multiprocess), k);
  }

  lemma {:induction false} AddedRow(info: seq<ThreadInfo>, row: ThreadInfo, k: nat)
    requires GoodRows(info, k) && Complete(info, |info|)
    requires GoodRow(row, k + 1) && (info != [] ==> row.id.tid >= FIRST_ID)
    ensures GoodRows(info + [row], k + 1) && Complete(info + [row], if row.exists_ then |info| + 1 else |info|)
  {
  }

  lemma {:induction false} OwnerTame(env: Setup, w: Walk, val: u64, k: nat)
    requires Tame(w, k, NoCallback) && k + 3 < TWO_63
    ensures Tame(OnOwner(env, w, val).w, k + 1, ElemName)
  {
    AssignSmall(w.ids, val, k);
    var id := Assign(w.ids, val).1;
    SmallTid(env.multiprocess, id, k + 1);
    AddedRow(w.info, ThreadInfo(val, MakeThreadId(env.multiprocess, id), false, "", ""), k);
  }

  lemma {:induction false} NameTame(w: Walk, bytes: seq<byte>, k: nat)
    requires w.info != [] && w.at < |w.lists| && w.lists[w.at].count > 0 && Tame(w, k, ElemName)
    ensures Tame(OnName(w, bytes).w, k, NoCallback)
  {
    NameIsText(bytes);
  }

  lemma {:induction false} NameIsText(bytes: seq<byte>)
    ensures IsText(NameOf(bytes))
  {
    BeforeMeaning(Chars(bytes), '\0');
  }

  /** Every reply keeps the table tame, with ids at most one larger. */
  lemma {:induction false} StepTame(env: Setup, o: Outcome, data: string, k: nat)
    requires Ready(o) && o.Ask? && Tame(o.w, k, NextOf(o)) && k + 3 < TWO_63
    ensures Tame(OnReply(env, o, data).w, k + 1, NextOf(OnReply(env, o, data)))
  {
    var w, val, o' := o.w, ReplyWord(data), OnReply(env, o, data);
    match o.read.next {
      case ThreadsCount =>
      case CurrentThread => CurrentThreadTame(env, w, val, k);
      case TopPriority => ScanListsTame(env, w, val, k);
      case ListCount => ListCountTame(w, val, k);
      case ListElemPtr => AtElemTame(SetList(w, w.lists[w.at].(elem := val)), k);
      case ElemOwner => OwnerTame(env, w, val, k);
      case ElemName => NameTame(w, ReplyBytes(data), k);
      case ElemNext => AtElemTame(SetList(w, w.lists[w.at].(prev := w.lists[w.at].elem, elem := val)), k);
    }
    if o.read.next != CurrentThread && o.read.next != ElemOwner {
      TameMore(o'.w, k, NextOf(o'));
    }
  }

  /** So every walk ends with good, complete rows whose ids are at most the replies used and two more. */
  lemma {:induction false} RunTame(env: Setup, o: Outcome, replies: seq<string>, k: nat)
    requires Ready(o) && Tame(o.w, k, NextOf(o)) && k + |replies| + 3 < TWO_63
    ensures var o' := After(env, o, replies); Tame(o'.w, k + |replies|, NextOf(o'))
    decreases |replies|
  {
    if replies != [] {
      if o.Ask? {
        StepReady(env, o, replies[0]);
        StepTame(env, o, replies[0], k);
        RunTame(env, OnReply(env, o, replies[0]), replies[1..], k + 1);
      } else {
        assert After(env, o, replies) == o;
      }
    }
  }

  /** The table that a completed update leaves. */
  lemma {:induction false} CompletedTable(env: Setup, ids: seq<Entry>, replies: seq<string>, k: nat)
    requires SmallIds(ids, k) && k + |replies| + 3 < TWO_63
    ensures var o := After(env, Begin(env, ids), replies);
            o.Finished? ==> Tame(o.w, k + |replies|, NoCallback)
  {
    RunTame(env, Begin(env, ids), replies, k);
  }
}
