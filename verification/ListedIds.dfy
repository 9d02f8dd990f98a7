/** The ids that allocation returns, which are the ones a client gets to see: when they agree with the map
    and when they are distinct. */
module ListedIds {
  import opened Text
  import opened IdMaps

  /** The ids returned for tasks that arrive one after the other. */
  function AssignIds(m: seq<Entry>, tcbs: seq<u64>): (r: seq<int>)
    ensures |r| == |tcbs|
    decreases |tcbs|
  {
    if tcbs == [] then [] else [Assign(m, tcbs[0]).1] + AssignIds(Assign(m, tcbs[0]).0, tcbs[1..])
  }

  // ------------------------------------------------------------- a new task

  function Inserted(f: seq<Entry>, p: nat, e: Entry): (r: seq<Entry>)
    requires p <= |f|
    ensures |r| == |f| + 1
  {
    f[..p] + [e] + f[p..]
  }

  /** Where the entry at `i` is when one is inserted at `p`. */
  function Shifted(p: nat, i: nat): nat {
    if i < p then i else i + 1
  }

  lemma {:induction false} InsertedAt(f: seq<Entry>, p: nat, e: Entry, i: nat)
    requires p <= |f| && i < |f|
    ensures Inserted(f, p, e)[Shifted(p, i)] == f[i] && Inserted(f, p, e)[p] == e
  {
  }

  /** The entries after a new task `t` has arrived: those of the filled map and the new one in its place. */
  lemma {:induction false} NewEntry(m: seq<Entry>, t: u64)
    requires Sorted(m) && !Has(m, t)
    ensures Assign(m, t).0 == Inserted(Filled(m), Position(m, t), Entry(t, FIRST_ID + Gap(m) + 1))
    ensures Sorted(Assign(m, t).0)
  {
    var f, p := Filled(m), Position(m, t);
    FilledSorted(m);
    SamePosition(m, f, t);
    PutSorted(f, t, FIRST_ID + Gap(m) + 1);
  }

  lemma {:induction false} FilledSorted(m: seq<Entry>)
    requires Sorted(m)
    ensures Sorted(Filled(m)) && |Filled(m)| == |m| && forall i :: 0 <= i < |m| ==> Filled(m)[i].key == m[i].key
  {
  }

  lemma {:induction false} SamePosition(m: seq<Entry>, f: seq<Entry>, t: u64)
    requires Sorted(m) && Sorted(f) && |f| == |m| && forall i :: 0 <= i < |m| ==> f[i].key == m[i].key
    ensures Position(f, t) == Position(m, t) && (Has(f, t) <==> Has(m, t))
  {
    PositionMeaning(m, t);
    PositionIs(f, t, Position(m, t));
  }

  /** A listed entry of the filled map after a new task. */
  lemma {:induction false} OldEntry(m: seq<Entry>, t: u64, i: nat)
    requires Sorted(m) && !Has(m, t) && i < |m|
    ensures var r, p := Assign(m, t).0, Shifted(Position(m, t), i);
            && p < |r| && r[p] == Filled(m)[i] && r[p].key == m[i].key
            && Has(r, m[i].key) && Lookup(r, m[i].key) == Filled(m)[i].id
  {
    NewEntry(m, t);
    InsertedAt(Filled(m), Position(m, t), Entry(t, FIRST_ID + Gap(m) + 1), i);
    HasKey(Assign(m, t).0, Shifted(Position(m, t), i));
  }

  lemma {:induction false} OwnEntry(m: seq<Entry>, t: u64)
    requires Sorted(m) && !Has(m, t)
    ensures var r, p := Assign(m, t).0, Position(m, t);
            && p < |r| && r[p] == Entry(t, Assign(m, t).1) && Has(r, t) && Lookup(r, t) == Assign(m, t).1
  {
    NewEntry(m, t);
    HasKey(Assign(m, t).0, Position(m, t));
  }

  /** In order up to the gap, and after the rewriting up to the place behind it. */
  predicate InOrder(m: seq<Entry>, n: nat) {
    n <= |m| && forall i :: 0 <= i < n ==> m[i].id == FIRST_ID + i
  }

  lemma {:induction false} FilledInOrder(m: seq<Entry>)
    ensures InOrder(Filled(m), if Gap(m) < |m| then Gap(m) + 1 else Gap(m))
  {
    GapMeaning(m, 0);
  }

  lemma {:induction false} InsertedInOrder(f: seq<Entry>, p: nat, e: Entry, n: nat)
    requires p <= |f| && InOrder(f, n) && n <= p
    ensures InOrder(Inserted(f, p, e), n)
  {
  }

  lemma {:induction false} GapBehind(m: seq<Entry>, n: nat)
    requires InOrder(m, n)
    ensures Gap(m) >= n && (n < |m| && m[n].id != FIRST_ID + n ==> Gap(m) == n)
  {
    GapMeaning(m, 0);
  }

  lemma {:induction false} AssignSorted(m: seq<Entry>, t: u64)
    requires Sorted(m)
    ensures Sorted(Assign(m, t).0)
  {
    if !Has(m, t) {
      NewEntry(m, t);
    }
  }

  /** The id of a new task is held by no other task exactly when no entry from the gap on holds it. The
      entry at the gap counts, although it is about to be rewritten. */
  lemma {:induction false} FreshIff(m: seq<Entry>, t: u64)
    requires !Has(m, t)
    ensures (forall i :: 0 <= i < |m| ==> m[i].id != Assign(m, t).1)
            <==> (forall i :: Gap(m) <= i < |m| ==> m[i].id != FIRST_ID + Gap(m) + 1)
  {
    GapMeaning(m, 0);
  }

  /** A new task leaves the ids of all others alone exactly when there is no gap. */
  lemma {:induction false} KnownKeptIff(m: seq<Entry>, t: u64)
    requires Sorted(m) && !Has(m, t)
    ensures var r := Assign(m, t).0;
            (forall i :: 0 <= i < |m| ==> Has(r, m[i].key) && Lookup(r, m[i].key) == m[i].id)
            <==> Gap(m) == |m|
  {
    GapMeaning(m, 0);
    forall i | 0 <= i < |m|
      ensures Has(Assign(m, t).0, m[i].key) && Lookup(Assign(m, t).0, m[i].key) == Filled(m)[i].id
    {
      OldEntry(m, t, i);
    }
  }

  // --------------------------------------------------------- a whole list of tasks

  /** Each listed task has the id in the map that was returned for it. */
  predicate Agrees(m: seq<Entry>, seen: seq<u64>, ids: seq<int>) {
    |ids| == |seen| && forall i :: 0 <= i < |seen| ==> Has(m, seen[i]) && Lookup(m, seen[i]) == ids[i]
  }

  predicate Different(ids: seq<int>) {
    forall i, j :: 0 <= i < j < |ids| ==> ids[i] != ids[j]
  }

  /** The guard of the rewriting: a new task finds no gap at a task that is listed already. */
  predicate Spares(m: seq<Entry>, seen: seq<u64>, t: u64) {
    Has(m, t) || Gap(m) == |m| || m[Gap(m)].key !in seen
  }

  /** No listed task has the id that is about to be returned, and the task is not listed twice. */
  predicate Unused(m: seq<Entry>, seen: seq<u64>, t: u64) {
    t !in seen && forall i :: 0 <= i < |m| && m[i].key in seen ==> m[i].id != Assign(m, t).1
  }

  predicate AllSpare(m: seq<Entry>, seen: seq<u64>, tcbs: seq<u64>)
    decreases |tcbs|
  {
    tcbs == [] || (Spares(m, seen, tcbs[0]) && AllSpare(Assign(m, tcbs[0]).0, seen + [tcbs[0]], tcbs[1..]))
  }

  predicate AllClean(m: seq<Entry>, seen: seq<u64>, tcbs: seq<u64>)
    decreases |tcbs|
  {
    tcbs == [] ||
    (Spares(m, seen, tcbs[0]) && Unused(m, seen, tcbs[0])
     && AllClean(Assign(m, tcbs[0]).0, seen + [tcbs[0]], tcbs[1..]))
  }

  /** What a rewritten listed task leaves behind for good. The task at place `p` was returned the id
      `ids[i]`. `High`: too large an id, and the map is in order up to `p`. `Low`: too small an id, also
      for every later place. `AtGap`: too large an id at the gap, so the next new task makes it `High`;
      meanwhile the task at `q` is the wrong one. */
  datatype Blemish =
    | High(p: nat, i: nat)
    | Low(p: nat, i: nat)
    | AtGap(p: nat, i: nat, q: nat, j: nat)

  predicate Listed(m: seq<Entry>, seen: seq<u64>, ids: seq<int>, p: nat, i: nat) {
    p < |m| && i < |seen| == |ids| && m[p].key == seen[i]
  }

  predicate Blemished(m: seq<Entry>, seen: seq<u64>, ids: seq<int>, b: Blemish) {
    Listed(m, seen, ids, b.p, b.i) &&
    match b
    case High(p, i) => p < Gap(m) && ids[i] > FIRST_ID + p
    case Low(p, i) => ids[i] < m[p].id && ids[i] < FIRST_ID + p
    case AtGap(p, i, q, j) =>
      Gap(m) == p && ids[i] > FIRST_ID + p && Listed(m, seen, ids, q, j) && m[q].id != ids[j]
  }

  lemma {:induction false} BlemishedDisagrees(m: seq<Entry>, seen: seq<u64>, ids: seq<int>, b: Blemish)
    requires Sorted(m) && Blemished(m, seen, ids, b)
    ensures !Agrees(m, seen, ids)
  {
    GapMeaning(m, 0);
    HasKey(m, b.p);
    if b.AtGap? {
      HasKey(m, b.q);
    }
  }

  /** A listed task at or below the gap, with too large an id, keeps the list blemished. */
  lemma {:induction false} LargeStays(m: seq<Entry>, seen: seq<u64>, ids: seq<int>, t: u64, p: nat, i: nat)
      returns (b: Blemish)
    requires Sorted(m) && !Has(m, t) && Listed(m, seen, ids, p, i)
    requires p <= Gap(m) && ids[i] > FIRST_ID + p
    ensures Blemished(Assign(m, t).0, seen + [t], ids + [Assign(m, t).1], b)
  {
    var pos := Position(m, t);
    FilledInOrder(m);
    NewEntry(m, t);
    OldEntry(m, t, p);
    OwnEntry(m, t);
    if p < pos {
      InsertedInOrder(Filled(m), pos, Entry(t, Assign(m, t).1), p + 1);
      GapBehind(Assign(m, t).0, p + 1);
      b := High(p, i);
    } else {
      InsertedInOrder(Filled(m), pos, Entry(t, Assign(m, t).1), pos);
      GapBehind(Assign(m, t).0, pos);
      b := AtGap(pos, |seen|, p + 1, i);
    }
  }

  /** A listed task with too small an id keeps it. */
  lemma {:induction false} SmallStays(m: seq<Entry>, seen: seq<u64>, ids: seq<int>, t: u64, p: nat, i: nat)
    requires Sorted(m) && !Has(m, t) && Listed(m, seen, ids, p, i)
    requires ids[i] < FIRST_ID + p && (ids[i] < m[p].id || p == Gap(m))
    ensures Blemished(Assign(m, t).0, seen + [t], ids + [Assign(m, t).1], Low(Shifted(Position(m, t), p), i))
  {
    OldEntry(m, t, p);
  }

  lemma {:induction false} BlemishStays(m: seq<Entry>, seen: seq<u64>, ids: seq<int>, t: u64, b: Blemish)
      returns (b': Blemish)
    requires Sorted(m) && Blemished(m, seen, ids, b)
    ensures Blemished(Assign(m, t).0, seen + [t], ids + [Assign(m, t).1], b')
  {
    if Has(m, t) {
      b' := b;
    } else if b.Low? {
      SmallStays(m, seen, ids, t, b.p, b.i);
      b' := Low(Shifted(Position(m, t), b.p), b.i);
    } else {
      b' := LargeStays(m, seen, ids, t, b.p, b.i);
    }
  }

  /** Rewriting a task that is listed, with the id that the map has, is the first blemish. */
  lemma {:induction false} FirstBlemish(m: seq<Entry>, seen: seq<u64>, ids: seq<int>, t: u64) returns (b: Blemish)
    requires Sorted(m) && Agrees(m, seen, ids) && !Spares(m, seen, t)
    ensures Blemished(Assign(m, t).0, seen + [t], ids + [Assign(m, t).1], b)
  {
    var g := Gap(m);
    var i :| 0 <= i < |seen| && seen[i] == m[g].key;
    HasKey(m, g);
    GapMeaning(m, 0);
    if ids[i] > FIRST_ID + g {
      b := LargeStays(m, seen, ids, t, g, i);
    } else {
      SmallStays(m, seen, ids, t, g, i);
      b := Low(Shifted(Position(m, t), g), i);
    }
  }

  /** Once blemished, a list disagrees with the map to the end. */
  lemma {:induction false} BlemishedToTheEnd(m: seq<Entry>, seen: seq<u64>, ids: seq<int>, b: Blemish, tcbs: seq<u64>)
    requires Sorted(m) && Blemished(m, seen, ids, b)
    ensures !Agrees(AssignAll(m, tcbs), seen + tcbs, ids + AssignIds(m, tcbs))
    decreases |tcbs|
  {
    if tcbs == [] {
      Empty(seen);
      Empty(ids);
      BlemishedDisagrees(m, seen, ids, b);
    } else {
      var t := tcbs[0];
      var b' := BlemishStays(m, seen, ids, t, b);
      AssignSorted(m, t);
      BlemishedToTheEnd(Assign(m, t).0, seen + [t], ids + [Assign(m, t).1], b', tcbs[1..]);
      OneByOne(m, seen, ids, tcbs);
    }
  }

  lemma {:induction false} OneByOne(m: seq<Entry>, seen: seq<u64>, ids: seq<int>, tcbs: seq<u64>)
    requires tcbs != []
    ensures var t := tcbs[0];
            && seen + [t] + tcbs[1..] == seen + tcbs
            && ids + [Assign(m, t).1] + AssignIds(Assign(m, t).0, tcbs[1..]) == ids + AssignIds(m, tcbs)
  {
  }

  /** A spared arrival keeps the list in agreement. */
  lemma {:induction false} AgreesMore(m: seq<Entry>, seen: seq<u64>, ids: seq<int>, t: u64)
    requires Sorted(m) && Agrees(m, seen, ids) && Spares(m, seen, t)
    ensures Agrees(Assign(m, t).0, seen + [t], ids + [Assign(m, t).1])
  {
    if !Has(m, t) {
      OwnEntry(m, t);
      forall i | 0 <= i < |seen|
        ensures Has(Assign(m, t).0, seen[i]) && Lookup(Assign(m, t).0, seen[i]) == ids[i]
      {
        OldEntry(m, t, Position(m, seen[i]));
      }
    }
  }

  /** The returned ids agree with the map at the end if and only if no new task found its gap at a task
      that was listed before it. */
  lemma {:induction false} AgreesIff(m: seq<Entry>, seen: seq<u64>, ids: seq<int>, tcbs: seq<u64>)
    requires Sorted(m) && Agrees(m, seen, ids)
    ensures Agrees(AssignAll(m, tcbs), seen + tcbs, ids + AssignIds(m, tcbs)) <==> AllSpare(m, seen, tcbs)
    decreases |tcbs|
  {
    if tcbs == [] {
      Empty(seen);
      Empty(ids);
    } else {
      var t := tcbs[0];
      AssignSorted(m, t);
      OneByOne(m, seen, ids, tcbs);
      if Spares(m, seen, t) {
        AgreesMore(m, seen, ids, t);
        AgreesIff(Assign(m, t).0, seen + [t], ids + [Assign(m, t).1], tcbs[1..]);
      } else {
        var b := FirstBlemish(m, seen, ids, t);
        BlemishedToTheEnd(Assign(m, t).0, seen + [t], ids + [Assign(m, t).1], b, tcbs[1..]);
      }
    }
  }

  /** An arrival whose id is in use repeats it in the list. */
  lemma {:induction false} UnusedIff(m: seq<Entry>, seen: seq<u64>, ids: seq<int>, t: u64)
    requires Sorted(m) && Agrees(m, seen, ids) && Spares(m, seen, t) && Different(ids)
    ensures Different(ids + [Assign(m, t).1]) <==> Unused(m, seen, t)
  {
    var id := Assign(m, t).1;
    if Unused(m, seen, t) {
      forall i | 0 <= i < |ids| ensures ids[i] != id {
        assert m[Position(m, seen[i])].key == seen[i];
      }
    } else if t in seen {
      var i :| 0 <= i < |seen| && seen[i] == t;
      assert ids[i] == id;
      assert (ids + [id])[i] == (ids + [id])[|ids|];
    } else {
      var k :| 0 <= k < |m| && m[k].key in seen && m[k].id == id;
      var i :| 0 <= i < |seen| && seen[i] == m[k].key;
      HasKey(m, k);
      assert (ids + [id])[i] == (ids + [id])[|ids|];
    }
  }

  lemma {:induction false} RepeatStays(a: seq<int>, b: seq<int>)
    requires !Different(a)
    ensures !Different(a + b)
  {
    var i, j :| 0 <= i < j < |a| && a[i] == a[j];
    assert (a + b)[i] == a[i] && (a + b)[j] == a[j];
  }

  /** The returned ids are distinct and agree with the map at the end if and only if every arrival was
      clean: it spared the tasks listed before it, and none of them had the id that it was returned. */
  lemma {:induction false} SoundIff(m: seq<Entry>, seen: seq<u64>, ids: seq<int>, tcbs: seq<u64>)
    requires Sorted(m) && Agrees(m, seen, ids) && Different(ids)
    ensures (Agrees(AssignAll(m, tcbs), seen + tcbs, ids + AssignIds(m, tcbs)) && Different(ids + AssignIds(m, tcbs)))
            <==> AllClean(m, seen, tcbs)
    decreases |tcbs|
  {
    if tcbs == [] {
      Empty(seen);
      Empty(ids);
    } else {
      var t := tcbs[0];
      AssignSorted(m, t);
      OneByOne(m, seen, ids, tcbs);
      AgreesIff(m, seen, ids, tcbs);
      if Spares(m, seen, t) {
        AgreesMore(m, seen, ids, t);
        UnusedIff(m, seen, ids, t);
        if Unused(m, seen, t) {
          SoundIff(Assign(m, t).0, seen + [t], ids + [Assign(m, t).1], tcbs[1..]);
        } else {
          RepeatStays(ids + [Assign(m, t).1], AssignIds(Assign(m, t).0, tcbs[1..]));
        }
      }
    }
  }

  // -------------------------------------------------------------- particular lists

  /** Tasks that the map has already keep their ids, and so does the map: ids are stable across stops. */
  lemma {:induction false} KnownTasks(m: seq<Entry>, tcbs: seq<u64>)
    requires Sorted(m) && forall i :: 0 <= i < |tcbs| ==> Has(m, tcbs[i])
    ensures AssignAll(m, tcbs) == m
    ensures forall i :: 0 <= i < |tcbs| ==> AssignIds(m, tcbs)[i] == Lookup(m, tcbs[i])
    decreases |tcbs|
  {
    if tcbs != [] {
      KnownTasks(m, tcbs[1..]);
    }
  }

  lemma {:induction false} FirstTask(a: u64)
    ensures Assign([], a) == ([Entry(a, 3)], 3) && GapIsFree([])
  {
    assert Put([], a, 3) == [Entry(a, 3)];
  }

  lemma {:induction false} SecondTask(a: u64, b: u64)
    requires a != b
    ensures var m := [Entry(a, 3)];
            && Has(m, a) && Lookup(m, a) == 3 && !Has(m, b) && GapIsFree(m)
            && Assign(m, b).1 == 3 && Has(Assign(m, b).0, a) && Lookup(Assign(m, b).0, a) == 2
  {
    var m := [Entry(a, 3)];
    HasKey(m, 0);
    HasIffKey(m, b);
    OldEntry(m, b, 0);
  }

  /** Two different tasks on the lists of a first update, the running one first: both get the id 3, although
      the map's own ids never repeat. Afterwards the map says 2 for the running task. */
  lemma {:induction false} FirstTasksCollide(a: u64, b: u64)
    requires a != b
    ensures var m1 := Assign([], a).0;
            var m2 := AssignAll(m1, [a, b]);
            && AssignIds(m1, [a, b]) == [3, 3]
            && GapIsFree([]) && GapIsFree(m1) && Distinct(m2)
            && Has(m2, a) && Lookup(m2, a) == 2
  {
    var m1 := [Entry(a, 3)];
    FirstTask(a);
    SecondTask(a, b);
    DistinctIffGapFree(m1, b);
    assert [a, b][1..] == [b] && [b][1..] == [];
    assert AssignIds(m1, [b]) == [3] + AssignIds(Assign(m1, b).0, []);
    assert AssignIds(m1, [a, b]) == [3] + AssignIds(m1, [b]);
    assert AssignAll(m1, [b]) == AssignAll(Assign(m1, b).0, []);
  }

  /** Tasks that arrive in ascending order are returned 3, 3, 5, 5, 7, 7 and so on. */
  lemma {:induction false} AscendingIds(tcbs: seq<u64>)
    requires Ascending(tcbs)
    ensures forall i :: 0 <= i < |tcbs| ==> AssignIds([], tcbs)[i] == 3 + 2 * (i / 2)
    decreases |tcbs|
  {
    if tcbs != [] {
      var n := |tcbs| - 1;
      var first, last := tcbs[..n], tcbs[n];
      assert tcbs == first + [last];
      ArrivesLast(first, last);
      AscendingIds(first);
      AscendingArrivals(first);
      AssignIdsSnoc([], first, last);
      SettledGap(first);
      PositionIs(Settled(first), last, n);
    }
  }

  lemma {:induction false} AssignIdsSnoc(m: seq<Entry>, tcbs: seq<u64>, last: u64)
    ensures AssignIds(m, tcbs + [last]) == AssignIds(m, tcbs) + [Assign(AssignAll(m, tcbs), last).1]
    decreases |tcbs|
  {
    if tcbs == [] {
      assert [last][1..] == [];
      Empty([last]);
    } else {
      TailOfSum(tcbs, [last]);
      AssignIdsSnoc(Assign(m, tcbs[0]).0, tcbs[1..], last);
    }
  }
}
