/** The map from task control blocks to small thread ids: an ordered map, kept as its entries in key
    order, which is the order in which the allocation loop visits them. */
module IdMaps {
  import opened Text

  datatype Entry = Entry(key: u64, id: int)

  predicate Sorted(m: seq<Entry>) {
    forall i, j :: 0 <= i < j < |m| ==> m[i].key < m[j].key
  }

  function Keys(m: seq<Entry>): set<u64> {
    set i | 0 <= i < |m| :: m[i].key
  }

  /** The first entry, from `k` on, whose key is not smaller. */
  function PositionFrom(m: seq<Entry>, key: u64, k: nat): (p: nat)
    requires k <= |m|
    ensures k <= p <= |m|
    decreases |m| - k
  {
    if k == |m| || key <= m[k].key then k else PositionFrom(m, key, k + 1)
  }

  /** The number of entries with a smaller key. */
  function Position(m: seq<Entry>, key: u64): (p: nat)
    ensures p <= |m|
  {
    PositionFrom(m, key, 0)
  }

  lemma {:induction false} PositionFromMeaning(m: seq<Entry>, key: u64, k: nat)
    requires k <= |m|
    ensures var p := PositionFrom(m, key, k);
            && (forall i :: k <= i < p ==> m[i].key < key)
            && (p < |m| ==> key <= m[p].key)
    decreases |m| - k
  {
    if k < |m| && m[k].key < key {
      PositionFromMeaning(m, key, k + 1);
    }
  }

  lemma PositionMeaning(m: seq<Entry>, key: u64)
    requires Sorted(m)
    ensures forall i :: 0 <= i < Position(m, key) ==> m[i].key < key
    ensures forall i :: Position(m, key) <= i < |m| ==> key <= m[i].key
    ensures Has(m, key) || forall i :: Position(m, key) <= i < |m| ==> key < m[i].key
  {
    PositionFromMeaning(m, key, 0);
  }

  lemma PositionIs(m: seq<Entry>, key: u64, p: nat)
    requires Sorted(m) && p <= |m|
    requires forall i :: 0 <= i < p ==> m[i].key < key
    requires forall i :: p <= i < |m| ==> key <= m[i].key
    ensures Position(m, key) == p
  {
    PositionMeaning(m, key);
    var q := Position(m, key);
    assert q < |m| ==> key <= m[q].key;
    assert p < |m| ==> key <= m[p].key;
  }

  predicate Has(m: seq<Entry>, key: u64) {
    var p := Position(m, key);
    p < |m| && m[p].key == key
  }

  function Lookup(m: seq<Entry>, key: u64): int
    requires Has(m, key)
  {
    m[Position(m, key)].id
  }

  /** `m[key] = id`. */
  function Put(m: seq<Entry>, key: u64, id: int): seq<Entry> {
    var p := Position(m, key);
    if Has(m, key) then m[p := Entry(key, id)] else m[..p] + [Entry(key, id)] + m[p..]
  }

  lemma PutSorted(m: seq<Entry>, key: u64, id: int)
    requires Sorted(m)
    ensures Sorted(Put(m, key, id))
  {
    PositionMeaning(m, key);
  }

  lemma HasKey(m: seq<Entry>, i: nat)
    requires Sorted(m) && i < |m|
    ensures Position(m, m[i].key) == i && Has(m, m[i].key) && Lookup(m, m[i].key) == m[i].id
  {
    PositionIs(m, m[i].key, i);
  }

  lemma HasIffKey(m: seq<Entry>, key: u64)
    requires Sorted(m)
    ensures Has(m, key) <==> key in Keys(m)
  {
    if key in Keys(m) {
      var i :| 0 <= i < |m| && m[i].key == key;
      HasKey(m, i);
    }
  }

  /** The place in `Put(m, key, id)` of the entry at `i` in `m`. */
  function Moved(m: seq<Entry>, key: u64, i: nat): nat {
    if i < Position(m, key) || Has(m, key) then i else i + 1
  }

  lemma PutAtKey(m: seq<Entry>, key: u64, id: int)
    requires Sorted(m)
    ensures Position(m, key) < |Put(m, key, id)| && Put(m, key, id)[Position(m, key)] == Entry(key, id)
  {
  }

  lemma PutElsewhere(m: seq<Entry>, key: u64, id: int, i: nat)
    requires Sorted(m) && i < |m| && m[i].key != key
    ensures Moved(m, key, i) < |Put(m, key, id)| && Put(m, key, id)[Moved(m, key, i)] == m[i]
  {
    var p := Position(m, key);
    if Has(m, key) {
      assert i != p;
    }
    if !Has(m, key) {
      assert Put(m, key, id) == m[..p] + [Entry(key, id)] + m[p..];
    }
  }

  lemma PutFrom(m: seq<Entry>, key: u64, id: int, j: nat)
    requires Sorted(m) && j < |Put(m, key, id)| && j != Position(m, key)
    ensures Put(m, key, id)[j] in m
  {
    var p := Position(m, key);
    if Has(m, key) {
      assert Put(m, key, id)[j] == m[j];
    } else {
      assert Put(m, key, id)[j] == m[if j < p then j else j - 1];
    }
  }

  /** Storing changes one key and no other. */
  lemma PutMeaning(m: seq<Entry>, key: u64, id: int)
    requires Sorted(m)
    ensures var r := Put(m, key, id);
            && Keys(r) == Keys(m) + {key}
            && Has(r, key) && Lookup(r, key) == id
            && (forall i :: 0 <= i < |m| && m[i].key != key ==> Has(r, m[i].key) && Lookup(r, m[i].key) == m[i].id)
  {
    var r, p := Put(m, key, id), Position(m, key);
    PutAtKey(m, key, id);
    PutSorted(m, key, id);
    HasKey(r, p);
    forall i | 0 <= i < |m| && m[i].key != key
      ensures m[i].key in Keys(r) && Has(r, m[i].key) && Lookup(r, m[i].key) == m[i].id
    {
      PutElsewhere(m, key, id, i);
      HasKey(r, Moved(m, key, i));
    }
    assert key in Keys(r);
    assert Keys(m) + {key} <= Keys(r);
    forall k | k in Keys(r) ensures k in Keys(m) + {key} {
      var j :| 0 <= j < |r| && r[j].key == k;
      if j != p {
        PutFrom(m, key, id, j);
      }
    }
  }

  // -------------------------------------------------------------- allocation

  /** The smallest id in use. */
  const FIRST_ID := 2

  /** The first entry, from `k` on, that does not hold the id its place asks for. */
  function GapFrom(m: seq<Entry>, k: nat): (g: nat)
    requires k <= |m|
    ensures k <= g <= |m|
    decreases |m| - k
  {
    if k == |m| || m[k].id != FIRST_ID + k then k else GapFrom(m, k + 1)
  }

  lemma {:induction false} GapMeaning(m: seq<Entry>, k: nat)
    requires k <= |m|
    ensures var g := GapFrom(m, k);
            && (forall i :: k <= i < g ==> m[i].id == FIRST_ID + i)
            && (g < |m| ==> m[g].id != FIRST_ID + g)
    decreases |m| - k
  {
    if k < |m| && m[k].id == FIRST_ID + k {
      GapMeaning(m, k + 1);
    }
  }

  function Gap(m: seq<Entry>): (g: nat)
    ensures g <= |m|
  {
    GapFrom(m, 0)
  }

  /** The map after the search loop: the entry at the gap is given the id its place asks for. */
  function Filled(m: seq<Entry>): seq<Entry> {
    if Gap(m) < |m| then m[Gap(m) := Entry(m[Gap(m)].key, FIRST_ID + Gap(m))] else m
  }

  /** `get_threadid` with update: the map afterwards and the id returned. */
  function Assign(m: seq<Entry>, tcb: u64): (seq<Entry>, int) {
    if Has(m, tcb) then (m, Lookup(m, tcb))
    else (Put(Filled(m), tcb, FIRST_ID + Gap(m) + 1), FIRST_ID + Gap(m) + 1)
  }

  predicate AtLeastFirst(m: seq<Entry>) {
    forall i :: 0 <= i < |m| ==> m[i].id >= FIRST_ID
  }

  predicate Distinct(m: seq<Entry>) {
    forall i, j :: 0 <= i < j < |m| ==> m[i].id != m[j].id
  }

  /** The returned id is what the map holds afterwards; ids stay at least 2; a known task leaves the map
      as it is; and a new one changes the id of the entry at the gap, if there is a gap, and no other. */
  lemma AssignMeaning(m: seq<Entry>, tcb: u64)
    requires Sorted(m) && AtLeastFirst(m)
    ensures var (r, id) := Assign(m, tcb);
            && Keys(r) == Keys(m) + {tcb}
            && Sorted(r) && AtLeastFirst(r) && id >= FIRST_ID
            && Has(r, tcb) && Lookup(r, tcb) == id
            && (tcb in Keys(m) ==> r == m)
            && (tcb !in Keys(m) && Gap(m) < |m| ==> m[Gap(m)].id != FIRST_ID + Gap(m))
            && (forall i :: 0 <= i < |m| ==>
                  && Has(r, m[i].key)
                  && Lookup(r, m[i].key) == if tcb in Keys(m) || i != Gap(m) then m[i].id else FIRST_ID + Gap(m))
  {
    HasIffKey(m, tcb);
    GapMeaning(m, 0);
    if Has(m, tcb) {
      assert Keys(m) == Keys(m) + {tcb};
      forall i | 0 <= i < |m| ensures Has(m, m[i].key) && Lookup(m, m[i].key) == m[i].id {
        HasKey(m, i);
      }
    } else {
      AssignNew(m, tcb);
    }
  }

  /** The part of `AssignMeaning` that a caller who only follows the keys needs. */
  lemma AssignKeys(m: seq<Entry>, tcb: u64)
    requires Sorted(m) && AtLeastFirst(m)
    ensures var r := Assign(m, tcb).0;
            Keys(r) == Keys(m) + {tcb} && Sorted(r) && AtLeastFirst(r)
  {
    AssignMeaning(m, tcb);
  }

  lemma {:induction false} AssignNew(m: seq<Entry>, tcb: u64)
    requires Sorted(m) && AtLeastFirst(m) && !Has(m, tcb) && tcb !in Keys(m)
    ensures var (r, id) := Assign(m, tcb);
            && Keys(r) == Keys(m) + {tcb}
            && Sorted(r) && AtLeastFirst(r) && id >= FIRST_ID
            && Has(r, tcb) && Lookup(r, tcb) == id
            && (forall i :: 0 <= i < |m| ==>
                  Has(r, m[i].key) && Lookup(r, m[i].key) == if i != Gap(m) then m[i].id else FIRST_ID + Gap(m))
  {
    var f, id := Filled(m), FIRST_ID + Gap(m) + 1;
    FilledAs(m);
    PutSorted(f, tcb, id);
    PutMeaning(f, tcb, id);
    PutAtLeastFirst(f, tcb, id);
    OthersKept(f, tcb, id);
    forall i | 0 <= i < |m|
      ensures Has(Put(f, tcb, id), m[i].key) && Lookup(Put(f, tcb, id), m[i].key) == f[i].id
    {
      assert f[i].key == m[i].key;
    }
  }

  lemma {:induction false} FilledAs(m: seq<Entry>)
    requires Sorted(m) && AtLeastFirst(m)
    ensures var f := Filled(m);
            && |f| == |m| && Sorted(f) && AtLeastFirst(f) && Keys(f) == Keys(m)
            && forall i :: 0 <= i < |m| ==>
                 f[i].key == m[i].key && f[i].id == if i != Gap(m) then m[i].id else FIRST_ID + Gap(m)
  {
    SameKeys(m, Filled(m));
  }

  lemma {:induction false} OthersKept(m: seq<Entry>, key: u64, id: int)
    requires Sorted(m) && key !in Keys(m)
    ensures var r := Put(m, key, id);
            forall i :: 0 <= i < |m| ==> Has(r, m[i].key) && Lookup(r, m[i].key) == m[i].id
  {
    PutMeaning(m, key, id);
    forall i | 0 <= i < |m| ensures m[i].key != key {
      assert m[i].key in Keys(m);
    }
  }

  lemma PutAtLeastFirst(m: seq<Entry>, key: u64, id: int)
    requires AtLeastFirst(m) && id >= FIRST_ID
    ensures AtLeastFirst(Put(m, key, id))
  {
  }

  lemma SameKeys(m: seq<Entry>, f: seq<Entry>)
    requires |m| == |f| && forall i :: 0 <= i < |m| ==> m[i].key == f[i].key
    ensures Keys(m) == Keys(f)
  {
    forall k | k in Keys(m) ensures k in Keys(f) {
      var i :| 0 <= i < |m| && m[i].key == k;
      assert f[i].key == k;
    }
    forall k | k in Keys(f) ensures k in Keys(m) {
      var i :| 0 <= i < |f| && f[i].key == k;
      assert m[i].key == k;
    }
  }

  /** No later entry already holds the id that the gap receives, nor the id of the new task. */
  predicate GapIsFree(m: seq<Entry>) {
    forall i :: Gap(m) < i < |m| ==> m[i].id != FIRST_ID + Gap(m) && m[i].id != FIRST_ID + Gap(m) + 1
  }

  /** When the ids in the map were distinct, they stay distinct on a new task exactly when the gap is free.
      The ids that were returned, and are listed, are another matter. */
  lemma DistinctIffGapFree(m: seq<Entry>, tcb: u64)
    requires Sorted(m) && Distinct(m) && !Has(m, tcb)
    ensures Distinct(Assign(m, tcb).0) <==> GapIsFree(m)
  {
    var f, g := Filled(m), Gap(m);
    var p, e := Position(f, tcb), Entry(tcb, FIRST_ID + g + 1);
    GapMeaning(m, 0);
    assert Sorted(f);
    SameKeys(m, f);
    HasIffKey(m, tcb);
    HasIffKey(f, tcb);
    InsertDistinct(f, p, e);
    FilledDistinct(m);
  }

  lemma FilledDistinct(m: seq<Entry>)
    requires Distinct(m)
    ensures (Distinct(Filled(m)) && forall i :: 0 <= i < |m| ==> Filled(m)[i].id != FIRST_ID + Gap(m) + 1)
            <==> GapIsFree(m)
  {
    var f, g := Filled(m), Gap(m);
    GapMeaning(m, 0);
    if !GapIsFree(m) {
      var i :| g < i < |m| && (m[i].id == FIRST_ID + g || m[i].id == FIRST_ID + g + 1);
      assert f[i] == m[i] && f[g].id == FIRST_ID + g;
    }
  }

  lemma InsertDistinct(f: seq<Entry>, p: nat, e: Entry)
    requires p <= |f|
    ensures Distinct(f[..p] + [e] + f[p..]) <==> Distinct(f) && forall i :: 0 <= i < |f| ==> f[i].id != e.id
  {
    var r := f[..p] + [e] + f[p..];
    assert forall i :: 0 <= i < |f| ==> r[if i < p then i else i + 1] == f[i];
    if Distinct(r) {
      forall i, j | 0 <= i < j < |f| ensures f[i].id != f[j].id && f[i].id != e.id && f[j].id != e.id {
        var i', j' := if i < p then i else i + 1, if j < p then j else j + 1;
        assert r[i'] == f[i] && r[j'] == f[j] && r[p] == e;
      }
      forall i | 0 <= i < |f| ensures f[i].id != e.id {
        assert r[if i < p then i else i + 1] == f[i] && r[p] == e;
      }
    }
  }

  function AssignAll(m: seq<Entry>, tcbs: seq<u64>): seq<Entry>
    decreases |tcbs|
  {
    if tcbs == [] then m else AssignAll(Assign(m, tcbs[0]).0, tcbs[1..])
  }

  /** The distinctness that the allocation aims at fails: three tasks arriving as 20, 10, 30 are left
      with two equal ids. */
  lemma ArrivalOrderCanDuplicate()
    ensures AssignAll([], [20, 10, 30]) == [Entry(10, 2), Entry(20, 2), Entry(30, 3)]
  {
    var m0: seq<Entry> := [];
    assert Assign(m0, 20).0 == [Entry(20, 3)];
    SecondArrival();
    ThirdArrival();
    var s := [20, 10, 30];
    assert s[1..] == [10, 30];
    assert s[1..][1..] == [30];
    assert s[1..][1..][1..] == [];
  }

  lemma SecondArrival()
    ensures Assign([Entry(20, 3)], 10).0 == [Entry(10, 3), Entry(20, 2)]
  {
    var m, f := [Entry(20, 3)], [Entry(20, 2)];
    PositionIs(m, 10, 0);
    PositionIs(f, 10, 0);
    assert Filled(m) == f;
    assert f[..0] + [Entry(10, 3)] + f[0..] == [Entry(10, 3), Entry(20, 2)];
  }

  lemma ThirdArrival()
    ensures Assign([Entry(10, 3), Entry(20, 2)], 30).0 == [Entry(10, 2), Entry(20, 2), Entry(30, 3)]
  {
    var m, f := [Entry(10, 3), Entry(20, 2)], [Entry(10, 2), Entry(20, 2)];
    PositionIs(m, 30, 2);
    PositionIs(f, 30, 2);
    assert Filled(m) == f;
    assert f[..2] + [Entry(30, 3)] + f[2..] == [Entry(10, 2), Entry(20, 2), Entry(30, 3)];
  }

  predicate Ascending(tcbs: seq<u64>) {
    forall i, j :: 0 <= i < j < |tcbs| ==> tcbs[i] < tcbs[j]
  }

  /** The ids that `n` tasks hold in key order: 2, 3, ..., n and then n+1 or n+2. */
  function SettledId(n: nat, i: nat): int {
    if i + 1 < n then i + 2 else if n % 2 == 0 then n + 1 else n + 2
  }

  function Settled(tcbs: seq<u64>): (r: seq<Entry>)
    ensures |r| == |tcbs| && forall i :: 0 <= i < |r| ==> r[i] == Entry(tcbs[i], SettledId(|tcbs|, i))
  {
    seq(|tcbs|, i requires 0 <= i < |tcbs| => Entry(tcbs[i], SettledId(|tcbs|, i)))
  }

  /** From an empty map, tasks that arrive in ascending order get the settled ids, all distinct. */
  lemma {:induction false} AscendingArrivals(tcbs: seq<u64>)
    requires Ascending(tcbs)
    ensures AssignAll([], tcbs) == Settled(tcbs) && Distinct(Settled(tcbs))
    decreases |tcbs|
  {
    SettledDistinct(tcbs);
    if tcbs == [] {
      assert Settled(tcbs) == [];
    } else {
      var n := |tcbs| - 1;
      AscendingArrivals(tcbs[..n]);
      AssignAllSnoc([], tcbs[..n], tcbs[n]);
      assert tcbs == tcbs[..n] + [tcbs[n]];
      OneMoreArrival(tcbs[..n], tcbs[n]);
    }
  }

  lemma SettledDistinct(tcbs: seq<u64>)
    ensures Distinct(Settled(tcbs))
  {
  }

  lemma {:induction false} AssignAllSnoc(m: seq<Entry>, tcbs: seq<u64>, last: u64)
    ensures AssignAll(m, tcbs + [last]) == Assign(AssignAll(m, tcbs), last).0
    decreases |tcbs|
  {
    var all := tcbs + [last];
    if tcbs == [] {
      assert all[1..] == [];
      assert AssignAll(m, all) == AssignAll(Assign(m, all[0]).0, []);
    } else {
      assert all[1..] == tcbs[1..] + [last];
      AssignAllSnoc(Assign(m, tcbs[0]).0, tcbs[1..], last);
    }
  }

  lemma {:induction false} ArrivesLast(tcbs: seq<u64>, last: u64)
    requires Ascending(tcbs + [last])
    ensures Ascending(tcbs) && forall i :: 0 <= i < |tcbs| ==> tcbs[i] < last
  {
    var all, n := tcbs + [last], |tcbs|;
    forall i | 0 <= i < n ensures tcbs[i] < last {
      assert all[i] == tcbs[i] && all[n] == last;
    }
    forall i, j | 0 <= i < j < n ensures tcbs[i] < tcbs[j] {
      assert all[i] == tcbs[i] && all[j] == tcbs[j];
    }
  }

  lemma {:induction false} OneMoreArrival(tcbs: seq<u64>, last: u64)
    requires Ascending(tcbs + [last])
    ensures Assign(Settled(tcbs), last).0 == Settled(tcbs + [last])
  {
    var m, n := Settled(tcbs), |tcbs|;
    ArrivesLast(tcbs, last);
    PositionIs(m, last, n);
    PositionIs(Filled(m), last, n);
    SettledGap(tcbs);
    assert Assign(m, last).0 == Filled(m) + [Entry(last, FIRST_ID + Gap(m) + 1)];
  }

  lemma {:induction false} SettledGap(tcbs: seq<u64>)
    ensures Gap(Settled(tcbs)) == if |tcbs| % 2 == 0 then |tcbs| else |tcbs| - 1
  {
    var m, n := Settled(tcbs), |tcbs|;
    var g := Gap(m);
    GapMeaning(m, 0);
    assert n > 0 ==> m[n - 1].id == SettledId(n, n - 1);
    assert g < n ==> m[g].id == SettledId(n, g);
  }

  // ----------------------------------------------------------------- erasing

  /** Erases every entry whose key is not in `keep`. */
  function Keep(m: seq<Entry>, keep: set<u64>): (r: seq<Entry>)
  {
    if m == [] then [] else (if m[0].key in keep then [m[0]] else []) + Keep(m[1..], keep)
  }

  lemma {:induction false} KeepMembers(m: seq<Entry>, keep: set<u64>)
    ensures forall e :: e in Keep(m, keep) <==> e in m && e.key in keep
  {
    if m != [] {
      KeepMembers(m[1..], keep);
    }
  }

  /** Erasing keeps order, ids and exactly the wanted keys. */
  lemma {:induction false} KeepMeaning(m: seq<Entry>, keep: set<u64>)
    requires Sorted(m)
    ensures var r := Keep(m, keep);
            && Sorted(r) && Keys(r) == Keys(m) * keep
            && (AtLeastFirst(m) ==> AtLeastFirst(r))
            && (forall k :: k in Keys(r) ==> Has(m, k) && Has(r, k) && Lookup(r, k) == Lookup(m, k))
  {
    KeepSorted(m, keep);
    KeepMembers(m, keep);
    var r := Keep(m, keep);
    forall i | 0 <= i < |r|
      ensures r[i].key in Keys(m) && r[i].key in keep && (AtLeastFirst(m) ==> r[i].id >= FIRST_ID)
      ensures Has(m, r[i].key) && Has(r, r[i].key) && Lookup(r, r[i].key) == Lookup(m, r[i].key)
    {
      assert r[i] in r;
      var j :| 0 <= j < |m| && m[j] == r[i];
      HasKey(m, j);
      HasKey(r, i);
    }
    forall k | k in Keys(m) * keep ensures k in Keys(r) {
      var j :| 0 <= j < |m| && m[j].key == k;
      assert m[j] in r;
    }
  }

  lemma {:induction false} KeepSorted(m: seq<Entry>, keep: set<u64>)
    requires Sorted(m)
    ensures Sorted(Keep(m, keep))
  {
    if m != [] {
      KeepSorted(m[1..], keep);
      KeepMembers(m[1..], keep);
      var t := Keep(m[1..], keep);
      forall i | 0 <= i < |t| ensures m[0].key < t[i].key {
        assert t[i] in m[1..];
      }
    }
  }
}
