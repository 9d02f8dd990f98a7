/** Thread ids and their text ("thread-id syntax" in the "Packets" section of the protocol). */
module ThreadIds {
  import opened Text
  import opened Hex

  const TWO_63: int := 0x8000_0000_0000_0000
  type i64 = x: int | -0x8000_0000_0000_0000 <= x < 0x8000_0000_0000_0000

  datatype ThreadId = ThreadId(multiprocess: bool, pid: i64, tid: i64)

  const ALL: i64 := -1
  /** All ones in the address space, here 32 bits. */
  const MASK: u64 := 0xffff_ffff

  /** A number taken modulo 2^64 and read as a signed 64-bit value. */
  function ToSigned(v: int): i64 {
    var u := v % TWO_64;
    if u < TWO_63 then u else u - TWO_64
  }

  /** `stoull(s, nullptr, 16)` on plain digits; nothing when it throws. */
  function Stoull(s: string): Option<u64> {
    var digits := HexPrefix(s);
    if digits == "" || HexValue(digits) >= TWO_64 then None else Some(HexValue(digits))
  }

  function ParseId(view: string): i64 {
    if view == "" then 0
    else
      var sign := view[0] == '-';
      var rest := if sign then view[1..] else view;
      if sign && rest != "" && rest[0] == '1' then ALL
      else match Stoull(rest)
        case None => 0
        case Some(v) => if sign then ToSigned(MASK - v) else ToSigned(v)
  }

  function Magnitude(id: int): nat {
    if id < 0 then -id else id
  }

  function MakeId(id: i64): (s: string)
    ensures s != ""
  {
    if id < 0 then "-" + HexText(Magnitude(id)) else HexText(id)
  }

  lemma MakeIdChars(id: i64)
    ensures Plain(MakeId(id))
    ensures ',' !in MakeId(id) && '.' !in MakeId(id) && ';' !in MakeId(id) && 'p' !in MakeId(id)
  {
    HexTextLower(Magnitude(id));
    LowerHexIsPlain(HexText(Magnitude(id)));
  }

  /** A thread id from text; without a thread part it means every thread of the process. */
  function Parse(id: string): ThreadId {
    if id != "" && id[0] == 'p' then
      var view := id[1..];
      var process := Before(view, '.');
      if |process| == |view| then ThreadId(true, ParseId(process), ALL)
      else ThreadId(true, ParseId(process), ParseId(view[|process| + 1..]))
    else ThreadId(false, 0, ParseId(id))
  }

  function ToText(t: ThreadId): (s: string)
    ensures s != ""
  {
    if t.multiprocess then "p" + MakeId(t.pid) + "." + MakeId(t.tid) else MakeId(t.tid)
  }

  lemma ToTextChars(t: ThreadId)
    ensures Plain(ToText(t)) && ',' !in ToText(t) && ';' !in ToText(t)
  {
    MakeIdChars(t.pid);
    MakeIdChars(t.tid);
  }

  /** The library's `operator==`: only the left side decides whether processes are compared. */
  predicate Equal(a: ThreadId, b: ThreadId) {
    a.tid == b.tid && (a.multiprocess ==> a.pid == b.pid)
  }

  /** The comparison depends on the order of its operands exactly when one side has a process part,
      the other has not, and only the processes differ. */
  lemma EqualSymmetry(a: ThreadId, b: ThreadId)
    ensures (Equal(a, b) <==> Equal(b, a)) <==>
            !(a.tid == b.tid && a.pid != b.pid && a.multiprocess != b.multiprocess)
    ensures Equal(ThreadId(false, 0, 5), ThreadId(true, 1, 5)) && !Equal(ThreadId(true, 1, 5), ThreadId(false, 0, 5))
  {
  }

  lemma {:induction false} IdText(id: int)
    requires 0 <= id < TWO_64
    ensures HexPrefix(HexText(id)) == HexText(id) && Stoull(HexText(id)) == Some(id)
    ensures HexText(id)[0] != '-' && HexText(id)[0] != 'p'
  {
    HexTextLower(id);
    HexPrefixOf(HexText(id), "");
    assert HexText(id) + "" == HexText(id);
    HexTextValue(id);
  }

  /** A number survives printing and parsing exactly when it is at least -1. */
  lemma {:induction false} IdRoundTrip(id: i64)
    ensures ParseId(MakeId(id)) == id <==> id >= ALL
  {
    if id >= 0 {
      IdText(id);
    } else {
      NegativeIdText(Magnitude(id));
    }
  }

  /** A minus sign is read as -1 when a 1 follows it, and otherwise as a distance from the mask. */
  lemma {:induction false} NegativeIdText(n: int)
    requires 0 < n <= TWO_63
    ensures ParseId("-" + HexText(n)) == if HexText(n)[0] == '1' then ALL else ToSigned(MASK - n)
    ensures HexText(1) == "1"
  {
    IdText(n);
    assert ("-" + HexText(n))[1..] == HexText(n);
  }

  /** A thread id survives printing and parsing exactly when none of its parts is below -1. The
      plain form carries no process. */
  lemma {:induction false} TextRoundTrip(t: ThreadId)
    ensures var r := Parse(ToText(t));
            && r.multiprocess == t.multiprocess
            && (Equal(r, t) <==> t.tid >= ALL && (t.multiprocess ==> t.pid >= ALL))
            && (Equal(t, r) <==> Equal(r, t))
            && (t.multiprocess && Equal(r, t) ==> r == t)
            && (!t.multiprocess && Equal(r, t) ==> r == ThreadId(false, 0, t.tid))
  {
    IdRoundTrip(t.tid);
    MakeIdChars(t.tid);
    if t.multiprocess {
      IdRoundTrip(t.pid);
      MakeIdChars(t.pid);
      ParseParts(MakeId(t.pid), MakeId(t.tid));
    } else {
      assert MakeId(t.tid)[0] in MakeId(t.tid);
    }
  }

  lemma ParseParts(pid: string, tid: string)
    requires '.' !in pid
    ensures Parse("p" + pid + "." + tid) == ThreadId(true, ParseId(pid), ParseId(tid))
  {
    var view := pid + ("." + tid);
    Assoc("p", pid, "." + tid);
    Assoc("p" + pid, ".", tid);
    Head('p', view);
    BeforeUnique(pid, '.', "." + tid);
    Assoc(pid, ".", tid);
    Parts(pid + ".", tid);
  }

  /** What ids look like: the thread in hexadecimal, `-1` for all, and a process with `p` and a dot. */
  lemma {:induction false} TextForms(pid: i64, tid: i64)
    ensures ToText(ThreadId(true, pid, tid))
            == "p" + ToText(ThreadId(false, 0, pid)) + "." + ToText(ThreadId(false, 0, tid))
    ensures tid >= 0 ==> ToText(ThreadId(false, pid, tid)) == HexText(tid)
    ensures ToText(ThreadId(false, 0, -1)) == "-1" && ToText(ThreadId(true, 1, 0x2f)) == "p1.2f"
  {
    assert HexText(0x2f) == HexText(2) + "f" && HexText(2) == "2" && HexText(1) == "1";
  }

  /** A number in an id is taken as signed 64 bits; what does not fit, or is no number, is zero. */
  lemma {:induction false} NumberRead(v: nat)
    ensures ParseId(HexText(v)) == if v < TWO_63 then v else if v < TWO_64 then v - TWO_64 else 0
  {
    HexTextLower(v);
    HexPrefixOf(HexText(v), "");
    assert HexText(v) + "" == HexText(v);
    HexTextValue(v);
  }

  lemma {:induction false} NoNumberRead()
    ensures ParseId("") == 0 && ParseId("-") == 0 && ParseId("x") == 0
  {
  }

  /** A process without a thread means all its threads. */
  lemma {:induction false} ProcessOnly(pid: string)
    requires '.' !in pid
    ensures Parse("p" + pid) == ThreadId(true, ParseId(pid), -1)
  {
    Head('p', pid);
    BeforeUnique(pid, '.', "");
    Empty(pid);
  }

  function Texts(ids: seq<ThreadId>): (r: seq<string>)
    ensures |r| == |ids| && forall i :: 0 <= i < |r| ==> r[i] == ToText(ids[i])
  {
    seq(|ids|, i requires 0 <= i < |ids| => ToText(ids[i]))
  }

  /** A comma-separated list of ids is read back completely and in order. */
  lemma {:induction false} ListRoundTrip(ids: seq<ThreadId>)
    requires ids != []
    requires forall i :: 0 <= i < |ids| ==> ids[i].tid >= ALL && ids[i].pid >= ALL
    ensures var parts := Split(Join(Texts(ids), ','), ',');
            |parts| == |ids| && forall i :: 0 <= i < |ids| ==> Equal(Parse(parts[i]), ids[i])
  {
    forall i | 0 <= i < |ids| ensures ',' !in Texts(ids)[i] {
      ToTextChars(ids[i]);
    }
    SplitJoin(Texts(ids), ',');
    forall i | 0 <= i < |ids|
      ensures Equal(Parse(Texts(ids)[i]), ids[i])
    {
      TextRoundTrip(ids[i]);
    }
  }
}
