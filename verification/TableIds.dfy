/** The ids in the table that an update leaves: whether they agree with the map and tell the rows apart. */
module TableIds {
  import opened Text
  import opened ThreadIds
  import opened IdMaps
  import opened ListedIds
  import opened Memories
  import opened Walks
  import opened WalkTables
  import opened WalkRefines

  /** Each task's row has the id that the map gives the task. */
  predicate RowsAgree(w: Walk) {
    forall i :: 1 <= i < |w.info| ==> Has(w.ids, w.info[i].tcb) && Lookup(w.ids, w.info[i].tcb) == w.info[i].id.tid
  }

  predicate RowsDiffer(info: seq<ThreadInfo>) {
    forall i, j :: 0 <= i < j < |info| ==> info[i].id.tid != info[j].id.tid
  }

  /** The map once the running task has its id. */
  function StartIds(ids: seq<Entry>, current: u64): seq<Entry> {
    if current == 0 then ids else Assign(ids, current).0
  }

  /** The table of `tasks`, made with the ids that the map `m` returns. */
  predicate TableOf(w: Walk, m: seq<Entry>, tasks: seq<u64>) {
    && |w.info| == 1 + |tasks| && w.info[0].id.tid == 1
    && (forall i :: 0 <= i < |tasks| ==>
          w.info[i + 1].tcb == tasks[i] && w.info[i + 1].id.tid == AssignIds(m, tasks)[i] >= FIRST_ID)
    && w.ids == Keep(AssignAll(m, tasks), Tcbs(w.info))
  }

  lemma {:induction false} AssignAllSorted(m: seq<Entry>, tcbs: seq<u64>)
    requires Sorted(m)
    ensures Sorted(AssignAll(m, tcbs))
    decreases |tcbs|
  {
    if tcbs != [] {
      AssignSorted(m, tcbs[0]);
      AssignAllSorted(Assign(m, tcbs[0]).0, tcbs[1..]);
    }
  }

  /** Erasing the tasks without a row does not touch the others. */
  lemma {:induction false} KeptLookup(m: seq<Entry>, keep: set<u64>, key: u64, id: int)
    requires Sorted(m) && key in keep
    ensures (Has(Keep(m, keep), key) && Lookup(Keep(m, keep), key) == id) <==> (Has(m, key) && Lookup(m, key) == id)
  {
    KeepMeaning(m, keep);
    HasIffKey(m, key);
    HasIffKey(Keep(m, keep), key);
  }

  lemma {:induction false} RowsAgreeMeaning(w: Walk, m: seq<Entry>, tasks: seq<u64>)
    requires Sorted(m) && TableOf(w, m, tasks)
    ensures RowsAgree(w) <==> Agrees(AssignAll(m, tasks), tasks, AssignIds(m, tasks))
  {
    AssignAllSorted(m, tasks);
    forall i | 0 <= i < |tasks|
      ensures (Has(w.ids, tasks[i]) && Lookup(w.ids, tasks[i]) == w.info[i + 1].id.tid)
              <==> (Has(AssignAll(m, tasks), tasks[i])
                    && Lookup(AssignAll(m, tasks), tasks[i]) == AssignIds(m, tasks)[i])
    {
      assert w.info[i + 1].tcb == tasks[i];
      KeptLookup(AssignAll(m, tasks), Tcbs(w.info), tasks[i], AssignIds(m, tasks)[i]);
    }
    if RowsAgree(w) {
      forall i | 0 <= i < |tasks| ensures Has(w.ids, tasks[i]) && Lookup(w.ids, tasks[i]) == w.info[i + 1].id.tid {
        assert w.info[i + 1].tcb == tasks[i];
      }
    } else {
      var i :| 1 <= i < |w.info| &&
        !(Has(w.ids, w.info[i].tcb) && Lookup(w.ids, w.info[i].tcb) == w.info[i].id.tid);
      assert w.info[i - 1 + 1].tcb == tasks[i - 1];
    }
  }

  lemma {:induction false} RowsDifferMeaning(w: Walk, m: seq<Entry>, tasks: seq<u64>)
    requires TableOf(w, m, tasks)
    ensures RowsDiffer(w.info) <==> Different(AssignIds(m, tasks))
  {
    var ids := AssignIds(m, tasks);
    if RowsDiffer(w.info) {
      forall i, j | 0 <= i < j < |ids| ensures ids[i] != ids[j] {
        assert w.info[i + 1].id.tid == ids[i] && w.info[j + 1].id.tid == ids[j];
      }
    }
    if Different(ids) {
      forall i, j | 0 <= i < j < |w.info| ensures w.info[i].id.tid != w.info[j].id.tid {
        assert w.info[j - 1 + 1].id.tid == ids[j - 1];
        if i > 0 {
          assert w.info[i - 1 + 1].id.tid == ids[i - 1];
        }
      }
    }
  }

  lemma {:induction false} TableIdsIff(w: Walk, m: seq<Entry>, tasks: seq<u64>)
    requires Sorted(m) && TableOf(w, m, tasks)
    ensures RowsAgree(w) <==> AllSpare(m, [], tasks)
    ensures RowsAgree(w) && RowsDiffer(w.info) <==> AllClean(m, [], tasks)
  {
    var none: seq<int> := [];
    AgreesIff(m, [], none, tasks);
    SoundIff(m, [], none, tasks);
    Empty(tasks);
    Empty(AssignIds(m, tasks));
    RowsAgreeMeaning(w, m, tasks);
    RowsDifferMeaning(w, m, tasks);
  }

  // -------------------------------------------------------------- of an update

  lemma {:induction false} RowIds(env: Setup, mem: Memory, current: u64, m: seq<Entry>, tcbs: seq<u64>, k: nat)
    requires SmallIds(m, k) && k + |tcbs| + 3 < TWO_63
    ensures var r := Rows(env, mem, current, m, tcbs);
            forall i :: 0 <= i < |tcbs| ==> r[i].tcb == tcbs[i] && r[i].id.tid == AssignIds(m, tcbs)[i] >= FIRST_ID
    decreases |tcbs|
  {
    if tcbs != [] {
      AssignSmall(m, tcbs[0], k);
      SmallTid(env.multiprocess, Assign(m, tcbs[0]).1, k + 1);
      RowIds(env, mem, current, Assign(m, tcbs[0]).0, tcbs[1..], k + 1);
    }
  }

  lemma {:induction false} TabulatedTable(env: Setup, mem: Memory, w: Walk, current: u64, tasks: seq<u64>, k: nat)
    requires w.info == [] && SmallIds(StartIds(w.ids, current), k) && k + |tasks| + 3 < TWO_63
    ensures TableOf(Closed(Tabulated(env, mem, WithCurrent(env, w, current), tasks)), StartIds(w.ids, current), tasks)
  {
    var w' := WithCurrent(env, w, current);
    RowIds(env, mem, current, w'.ids, tasks, k);
    SmallTid(env.multiprocess, CURRENT_EXECUTION, k);
    Empty([CurrentExecution(env.multiprocess)]);
    Head(CurrentExecution(env.multiprocess), Rows(env, mem, current, w'.ids, tasks));
  }

  lemma {:induction false} StartSmall(ids: seq<Entry>, current: u64, k: nat)
    requires Sorted(ids) && SmallIds(ids, k)
    ensures Sorted(StartIds(ids, current)) && SmallIds(StartIds(ids, current), k + 1)
  {
    AssignSorted(ids, current);
    AssignSmall(ids, current, k);
  }

  /** The map with which the tasks are listed. */
  function ListingIds(env: Setup, mem: Memory, ids: seq<Entry>): seq<Entry> {
    StartIds(ids, WordAt(mem, env.symbols[SYM_CURRENT_TCB]))
  }

  lemma {:induction false} EnumerationTable(env: Setup, mem: Memory, ids: seq<Entry>, k: nat)
    requires Sorted(ids) && SmallIds(ids, k) && k + |AllTasks(env.symbols, mem)| + 4 < TWO_63
    ensures Sorted(ListingIds(env, mem, ids))
    ensures TableOf(Enumeration(env, mem, ids), ListingIds(env, mem, ids), AllTasks(env.symbols, mem))
  {
    var s := env.symbols;
    var w0 := NO_WALK.(ids := ids, count := WordAt(mem, s[SYM_TASKS_NUMBER]));
    StartSmall(ids, WordAt(mem, s[SYM_CURRENT_TCB]), k);
    TabulatedTable(env, mem, w0, WordAt(mem, s[SYM_CURRENT_TCB]), AllTasks(s, mem), k + 1);
  }

  /** After an update the rows agree with the map if and only if no new task found its gap at a task listed
      before it, and they also differ if and only if no task was returned the id of one listed before it,
      and none is listed twice. */
  lemma {:induction false} UpdateIdsIff(env: Setup, mem: Memory, ids: seq<Entry>, k: nat)
    requires Sorted(ids) && SmallIds(ids, k) && k + |AllTasks(env.symbols, mem)| + 4 < TWO_63
    ensures var w, m := Enumeration(env, mem, ids), ListingIds(env, mem, ids);
            && (RowsAgree(w) <==> AllSpare(m, [], AllTasks(env.symbols, mem)))
            && (RowsAgree(w) && RowsDiffer(w.info) <==> AllClean(m, [], AllTasks(env.symbols, mem)))
  {
    EnumerationTable(env, mem, ids, k);
    TableIdsIff(Enumeration(env, mem, ids), ListingIds(env, mem, ids), AllTasks(env.symbols, mem));
  }

  /** A stop that shows no new task: every task keeps the id it had, in the map and in its row, and the rows
      differ exactly if those ids do. */
  lemma {:induction false} KnownTasksKept(env: Setup, mem: Memory, ids: seq<Entry>, k: nat)
    requires Sorted(ids) && SmallIds(ids, k) && k + |AllTasks(env.symbols, mem)| + 4 < TWO_63
    requires var current := WordAt(mem, env.symbols[SYM_CURRENT_TCB]); current == 0 || Has(ids, current)
    requires forall i :: 0 <= i < |AllTasks(env.symbols, mem)| ==> Has(ids, AllTasks(env.symbols, mem)[i])
    ensures var w, tasks := Enumeration(env, mem, ids), AllTasks(env.symbols, mem);
            && w.ids == Keep(ids, Tcbs(w.info)) && RowsAgree(w) && |w.info| == 1 + |tasks|
            && (forall i :: 0 <= i < |tasks| ==> w.info[i + 1].id.tid == Lookup(ids, tasks[i]))
            && (RowsDiffer(w.info) <==>
                  forall i, j :: 0 <= i < j < |tasks| ==> Lookup(ids, tasks[i]) != Lookup(ids, tasks[j]))
  {
    var tasks := AllTasks(env.symbols, mem);
    KnownTasks(ids, tasks);
    EnumerationTable(env, mem, ids, k);
    RowsAgreeMeaning(Enumeration(env, mem, ids), ids, tasks);
    RowsDifferMeaning(Enumeration(env, mem, ids), ids, tasks);
  }

  /** The failing input: a first update in which the running task and then another one are listed. The rows
      have the ids 1, 3 and 3, and the map says 2 for the running task. */
  lemma {:induction false} FirstTableCollides(env: Setup, mem: Memory, a: u64, b: u64)
    requires a != 0 && a != b && WordAt(mem, env.symbols[SYM_CURRENT_TCB]) == a
    requires AllTasks(env.symbols, mem) == [a, b]
    ensures var w := Enumeration(env, mem, []);
            && |w.info| == 3
            && w.info[0].id.tid == 1 && w.info[1].id.tid == 3 && w.info[2].id.tid == 3
            && w.info[1].tcb == a && Has(w.ids, a) && Lookup(w.ids, a) == 2
  {
    var w, m := Enumeration(env, mem, []), ListingIds(env, mem, []);
    FirstTask(a);
    FirstTasksCollide(a, b);
    EnumerationTable(env, mem, [], 0);
    assert w.info[0 + 1].tcb == a && w.info[0 + 1].id.tid == 3;
    assert w.info[1 + 1].id.tid == 3;
    AssignAllSorted(m, [a, b]);
    KeptLookup(AssignAll(m, [a, b]), Tcbs(w.info), a, 2);
  }
}
