/** Reads from a socket, cut anywhere, turned into packets. */
module Stream {
  import opened Text
  import opened Packet
  import opened GdbPackets
  import opened Wire

  /** Where a channel stands: the packet being read, the packets handed to the handler so far, and
      whether the `consumed` assertion has stopped it. */
  datatype Progress = Progress(packet: Packet, delivered: seq<Packet>, aborted: bool)

  const START := Progress(FRESH, [], false)

  predicate Reading(st: Progress) {
    Valid(st.packet) && st.packet.phase != Complete
  }

  /** The effect of the bytes `s` on a channel. */
  function Deliver(st: Progress, s: string): (r: Progress)
    requires Reading(st)
    ensures Reading(r)
    decreases |s|
  {
    if s == "" || st.aborted then st
    else
      var (q, n) := Feed(st.packet, s);
      if n == 0 then st.(aborted := true)
      else if q.phase == Complete then Deliver(Progress(FRESH, st.delivered + [q], false), s[n..])
      else st.(packet := q)
  }

  function DeliverAll(st: Progress, cuts: seq<string>): (r: Progress)
    requires Reading(st)
    ensures Reading(r)
    decreases |cuts|
  {
    if cuts == [] then st else DeliverAll(Deliver(st, cuts[0]), cuts[1..])
  }

  lemma {:induction false} DeliverSplit(st: Progress, a: string, b: string)
    requires Reading(st)
    ensures Deliver(st, a + b) == Deliver(Deliver(st, a), b)
    decreases |a|
  {
    if a == "" {
      assert a + b == b;
    } else if !st.aborted {
      var (q, n) := Feed(st.packet, a);
      FeedSplit(st.packet, a, b);
      FeedStops(st.packet, a);
      if n == 0 {
      } else if q.phase == Complete {
        assert Feed(q, b) == (q, 0);
        assert (a + b)[n..] == a[n..] + b;
        DeliverSplit(Progress(FRESH, st.delivered + [q], false), a[n..], b);
      } else {
        DeliverOpen(st, a, b);
      }
    }
  }

  /** The case of a read that ends inside a packet. */
  lemma DeliverOpen(st: Progress, a: string, b: string)
    requires Reading(st) && !st.aborted && a != ""
    requires Feed(st.packet, a).1 > 0 && Feed(st.packet, a).0.phase != Complete
    ensures Deliver(st, a + b) == Deliver(Deliver(st, a), b)
  {
    var (q, n) := Feed(st.packet, a);
    FeedSplit(st.packet, a, b);
    FeedStops(st.packet, a);
    assert n == |a|;
    if b == "" {
      Empty(a);
    } else {
      FeedStops(q, b);
      DropSum(a, b, Feed(q, b).1);
    }
  }

  /** Fragmentation independence: however the bytes are cut into reads, the same packets reach the
      handler, the same partial packet is left over, and the assertion fails in the same cases. */
  lemma {:induction false} FragmentationIndependence(st: Progress, cuts: seq<string>)
    requires Reading(st)
    ensures DeliverAll(st, cuts) == Deliver(st, Concat(cuts))
    decreases |cuts|
  {
    if cuts != [] {
      DeliverSplit(st, cuts[0], Concat(cuts[1..]));
      FragmentationIndependence(Deliver(st, cuts[0]), cuts[1..]);
    }
  }

  function FramesText(frames: seq<Frame>): string {
    if frames == [] then "" else FrameText(frames[0]) + FramesText(frames[1..])
  }

  function Meanings(frames: seq<Frame>): seq<Packet> {
    if frames == [] then [] else [Meaning(frames[0])] + Meanings(frames[1..])
  }

  lemma {:induction false} DeliverFrames(done: seq<Packet>, frames: seq<Frame>)
    requires forall i :: 0 <= i < |frames| ==> ProperFrame(frames[i])
    ensures Deliver(Progress(FRESH, done, false), FramesText(frames))
            == Progress(FRESH, done + Meanings(frames), false)
    decreases |frames|
  {
    if frames == [] {
      Empty(done);
    } else {
      DeliverFrame(done, frames[0], FramesText(frames[1..]));
      DeliverFrames(done + [Meaning(frames[0])], frames[1..]);
      Assoc(done, [Meaning(frames[0])], Meanings(frames[1..]));
    }
  }

  /** End to end: frames sent back to back and received in any pieces arrive as exactly the packets
      they mean, in order, with nothing left over. */
  lemma {:induction false} FramesArrive(frames: seq<Frame>, cuts: seq<string>)
    requires forall i :: 0 <= i < |frames| ==> ProperFrame(frames[i])
    requires Concat(cuts) == FramesText(frames)
    ensures DeliverAll(START, cuts) == Progress(FRESH, Meanings(frames), false)
  {
    FragmentationIndependence(START, cuts);
    DeliverFrames([], frames);
    assert [] + Meanings(frames) == Meanings(frames);
  }

  /** A packet built here, written to a socket and received in any pieces arrives as the same packet. */
  lemma {:induction false} BuiltPacketArrives(payload: string, cuts: seq<string>)
    requires Plain(payload) && Concat(cuts) == RawOf(Built(payload))
    ensures DeliverAll(START, cuts) == Progress(FRESH, [Built(payload)], false)
  {
    var p, raw := Built(payload), RawOf(Built(payload));
    BuiltPlain(payload);
    Reparse(p);
    FragmentationIndependence(START, cuts);
    assert Feed(FRESH, raw) == (p, |raw|);
    assert raw[|raw|..] == "";
  }

  /** A channel that had delivered `done` and now stands at `r` accounts for the bytes `s`: they are
      proper frames, all of them delivered, and a remainder that is either the packet in progress or
      begins with a byte that stops the channel. */
  predicate Accounts(done: seq<Packet>, r: Progress, s: string, frames: seq<Frame>, rest: string) {
    && (forall i :: 0 <= i < |frames| ==> ProperFrame(frames[i]))
    && s == FramesText(frames) + rest
    && r.delivered == done + Meanings(frames)
    && if r.aborted then rest != "" && !IsStart(rest[0]) && r.packet == FRESH
       else Feed(FRESH, rest) == (r.packet, |rest|)
  }

  /** Whatever the stream, nothing else is delivered and nothing is lost. */
  lemma {:induction false} NothingElseArrives(done: seq<Packet>, s: string) returns (frames: seq<Frame>, rest: string)
    ensures Accounts(done, Deliver(Progress(FRESH, done, false), s), s, frames, rest)
    decreases |s|
  {
    if Feed(FRESH, s).0.phase != Complete {
      frames, rest := [], s;
      NoFrameAhead(done, s);
    } else {
      var f, tail := FirstFrame(s);
      var fs;
      fs, rest := NothingElseArrives(done + [Meaning(f)], tail);
      frames := [f] + fs;
      DeliverFrame(done, f, tail);
      FrameAhead(done, Deliver(Progress(FRESH, done, false), s), f, tail, fs, rest);
    }
  }

  lemma NoFrameAhead(done: seq<Packet>, s: string)
    requires Feed(FRESH, s).0.phase != Complete
    ensures Accounts(done, Deliver(Progress(FRESH, done, false), s), s, [], s)
  {
    FeedStops(FRESH, s);
    assert done + Meanings([]) == done;
    assert FramesText([]) + s == s;
  }

  lemma FrameAhead(done: seq<Packet>, r: Progress, f: Frame, tail: string, fs: seq<Frame>, rest: string)
    requires ProperFrame(f) && Accounts(done + [Meaning(f)], r, tail, fs, rest)
    ensures Accounts(done, r, FrameText(f) + tail, [f] + fs, rest)
  {
    FramesCons(f, fs);
    Assoc(FrameText(f), FramesText(fs), rest);
    Assoc(done, [Meaning(f)], Meanings(fs));
  }

  lemma DeliverFrame(done: seq<Packet>, f: Frame, tail: string)
    requires ProperFrame(f)
    ensures Deliver(Progress(FRESH, done, false), FrameText(f) + tail)
            == Deliver(Progress(FRESH, done + [Meaning(f)], false), tail)
  {
    FrameUnderstood(f, tail);
    Parts(FrameText(f), tail);
  }

  lemma FramesCons(f: Frame, fs: seq<Frame>)
    ensures FramesText([f] + fs) == FrameText(f) + FramesText(fs)
    ensures Meanings([f] + fs) == [Meaning(f)] + Meanings(fs)
  {
    Head(f, fs);
  }

  lemma FirstFrame(s: string) returns (f: Frame, tail: string)
    requires Feed(FRESH, s).0.phase == Complete
    ensures ProperFrame(f) && s == FrameText(f) + tail && |tail| < |s|
  {
    ParserMeetsFormat(s);
    f, tail :| ProperFrame(f) && s == FrameText(f) + tail;
    assert Feed(FRESH, s) == (Meaning(f), |FrameText(f)|);
  }

  // ---------------------------------------------------------------- channel

  const CAPACITY := 8192

  /** The reading half of a channel: the fixed read buffer, the packet in progress and the packets
      passed to the handler. */
  class Channel {
    const buffer: array<char>
    var size: nat
    var consumed: nat
    const packet: GdbPacket
    var delivered: seq<Packet>
    var aborted: bool

    ghost predicate Ok()
      reads this, packet
    {
      && buffer.Length == CAPACITY && consumed <= size <= CAPACITY
      && Reading(Now())
    }

    function Now(): Progress
      reads this, packet
    {
      Progress(packet.Value(), delivered, aborted)
    }

    constructor ()
      ensures Ok() && Now() == START && fresh(buffer) && fresh(packet)
    {
      buffer := new char[CAPACITY];
      size, consumed := 0, 0;
      packet := new GdbPacket();
      delivered, aborted := [], false;
    }

    /** Completion of a read: stores the bytes and processes them. A read that fills the whole
        buffer would make the terminating NUL overrun it. */
    method ReadDone(bytes: string)
      requires Ok() && !aborted
      requires 0 < |bytes| < CAPACITY
      modifies this, buffer, packet
      ensures Ok()
      ensures Now() == Deliver(old(Now()), bytes)
    {
      forall i | 0 <= i < |bytes| {
        buffer[i] := bytes[i];
      }
      buffer[|bytes|] := '\0';
      size := |bytes|;
      consumed := 0;
      assert buffer[consumed..size] == bytes;
      ProcessData();
    }

    method ProcessData()
      requires Ok() && !aborted && consumed < size
      modifies this, packet
      ensures Ok()
      ensures Now() == Deliver(old(Now()), old(buffer[consumed..size]))
    {
      ghost var all := buffer[consumed..size];
      var more := true;
      while more
        invariant Ok() && !aborted && consumed <= size
        invariant more <==> consumed < size
        invariant Deliver(Now(), buffer[consumed..size]) == Deliver(old(Now()), all)
        decreases size - consumed, more
      {
        ghost var before, rest := Now(), buffer[consumed..size];
        FeedStops(packet.Value(), rest);
        var n := packet.Parse(buffer[consumed..size]);
        consumed := consumed + n;
        if n == 0 {
          aborted := true;
          return;
        }
        if packet.state == Complete {
          delivered := delivered + [packet.Value()];
          packet.Reset();
        }
        assert rest[n..] == buffer[consumed..size];
        more := consumed != size;
      }
    }
  }
}
