/** Both byte streams of a connection and the session they drive. */
module Links {
  import opened Text
  import opened Packet
  import opened Wire
  import opened Stream
  import opened Sessions

  datatype Side = Client | Target

  /** The two reading channels, and the session, which is gone once a packet or completion came that the
      environment of `Possible` does not send. */
  datatype Link = Link(client: Progress, target: Progress, session: Option<Session>)

  /** Packets are handed to the session as soon as they are complete. */
  predicate Handed(p: Progress) {
    Reading(p) && p.delivered == []
  }

  predicate Ok(l: Link) {
    Handed(l.client) && Handed(l.target)
  }

  function ProgressOf(l: Link, side: Side): Progress {
    match side case Client => l.client case Target => l.target
  }

  /** The effect of events on a session. */
  function Absorb(session: Option<Session>, events: seq<Event>): Option<Session>
    decreases |events|
  {
    if events == [] || session.None? then session
    else if Good(session.value) && Possible(session.value, events[0])
    then Absorb(Some(Happen(session.value, events[0])), events[1..])
    else None
  }

  lemma {:induction false} AbsorbAppend(session: Option<Session>, a: seq<Event>, b: seq<Event>)
    ensures Absorb(session, a + b) == Absorb(Absorb(session, a), b)
    decreases |a|
  {
    if a == [] {
      Empty(b);
    } else if session.Some? {
      TailOfSum(a, b);
      if Good(session.value) && Possible(session.value, a[0]) {
        AbsorbAppend(Some(Happen(session.value, a[0])), a[1..], b);
      }
    }
  }

  /** A possible run is absorbed as it is. */
  lemma {:induction false} AbsorbIsRun(s: Session, events: seq<Event>)
    requires Good(s) && PossibleRun(s, events)
    ensures Absorb(Some(s), events) == Some(Sessions.Run(s, events))
    decreases |events|
  {
    if events != [] {
      EventKeepsGood(s, events[0]);
      AbsorbIsRun(Happen(s, events[0]), events[1..]);
    }
  }

  function Arrival(side: Side, p: Packet): Event {
    match side case Client => FromClient(p) case Target => FromTarget(p)
  }

  function Arrivals(side: Side, packets: seq<Packet>): seq<Event> {
    if packets == [] then [] else [Arrival(side, packets[0])] + Arrivals(side, packets[1..])
  }

  lemma {:induction false} ArrivalsAppend(side: Side, a: seq<Packet>, b: seq<Packet>)
    ensures Arrivals(side, a + b) == Arrivals(side, a) + Arrivals(side, b)
    decreases |a|
  {
    if a == [] {
      Empty(b);
      Empty(Arrivals(side, b));
    } else {
      TailOfSum(a, b);
      ArrivalsAppend(side, a[1..], b);
      Assoc([Arrival(side, a[0])], Arrivals(side, a[1..]), Arrivals(side, b));
    }
  }

  // ------------------------------------------------------------------- reads

  function WithProgress(l: Link, side: Side, p: Progress): Link {
    match side case Client => l.(client := p.(delivered := [])) case Target => l.(target := p.(delivered := []))
  }

  /** One completed read on a side: its channel goes on, and the session handles the packets completed. */
  function Read(l: Link, side: Side, bytes: string): (r: Link)
    requires Ok(l)
    ensures Ok(r)
  {
    var p := Deliver(ProgressOf(l, side), bytes);
    WithProgress(l, side, p).(session := Absorb(l.session, Arrivals(side, p.delivered)))
  }

  /** What was delivered before only stands in front. */
  lemma {:induction false} DeliverBehind(st: Progress, s: string)
    requires Reading(st)
    ensures Deliver(st, s)
            == var r := Deliver(st.(delivered := []), s); r.(delivered := st.delivered + r.delivered)
    decreases |s|
  {
    var done := st.delivered;
    Empty(done);
    if s != "" && !st.aborted {
      var (q, n) := Feed(st.packet, s);
      if n > 0 && q.phase == Complete {
        DeliverBehind(Progress(FRESH, done + [q], false), s[n..]);
        DeliverBehind(Progress(FRESH, [q], false), s[n..]);
        Assoc(done, [q], Deliver(Progress(FRESH, [], false), s[n..]).delivered);
        Empty([q]);
      }
    }
  }

  lemma {:induction false} ReadSplit(l: Link, side: Side, a: string, b: string)
    requires Ok(l)
    ensures Read(l, side, a + b) == Read(Read(l, side, a), side, b)
  {
    var st := ProgressOf(l, side);
    var p := Deliver(st, a);
    DeliverSplit(st, a, b);
    DeliverBehind(p, b);
    var more := Deliver(p.(delivered := []), b).delivered;
    ArrivalsAppend(side, p.delivered, more);
    AbsorbAppend(l.session, Arrivals(side, p.delivered), Arrivals(side, more));
  }

  /** Several reads on one side, one after the other. */
  function ReadAll(l: Link, side: Side, cuts: seq<string>): (r: Link)
    requires Ok(l)
    ensures Ok(r)
    decreases |cuts|
  {
    if cuts == [] then l else ReadAll(Read(l, side, cuts[0]), side, cuts[1..])
  }

  lemma {:induction false} ReadNothing(l: Link, side: Side)
    requires Ok(l)
    ensures Read(l, side, "") == l
  {
  }

  lemma {:induction false} ReadAllIsRead(l: Link, side: Side, cuts: seq<string>)
    requires Ok(l)
    ensures ReadAll(l, side, cuts) == Read(l, side, Concat(cuts))
    decreases |cuts|
  {
    if cuts == [] {
      ReadNothing(l, side);
    } else {
      ReadSplit(l, side, cuts[0], Concat(cuts[1..]));
      ReadAllIsRead(Read(l, side, cuts[0]), side, cuts[1..]);
    }
  }

  // -------------------------------------------------------------- both streams

  /** What happens to a connection: bytes of one side, in as many reads as it took, or the completion of a
      write. */
  datatype Happening = Bytes(side: Side, cuts: seq<string>) | Completion(request: bool)

  function Go(l: Link, h: Happening): (r: Link)
    requires Ok(l)
    ensures Ok(r)
  {
    match h
    case Bytes(side, cuts) => ReadAll(l, side, cuts)
    case Completion(request) => l.(session := Absorb(l.session, [if request then RequestDone else ResponseDone]))
  }

  function GoAll(l: Link, hs: seq<Happening>): (r: Link)
    requires Ok(l)
    ensures Ok(r)
    decreases |hs|
  {
    if hs == [] then l else GoAll(Go(l, hs[0]), hs[1..])
  }

  /** The same bytes, however they were cut. */
  predicate SameBytes(a: Happening, b: Happening) {
    match a
    case Bytes(side, cuts) => b.Bytes? && b.side == side && Concat(b.cuts) == Concat(cuts)
    case Completion(_) => a == b
  }

  /** For a given order of the two sides' bytes and the write completions, cutting either stream into other
      reads makes no difference: the parsers end in the same states, and the session handles the same events. */
  lemma {:induction false} CutsDoNotMatter(l: Link, hs: seq<Happening>, other: seq<Happening>)
    requires Ok(l) && |hs| == |other|
    requires forall i :: 0 <= i < |hs| ==> SameBytes(hs[i], other[i])
    ensures GoAll(l, hs) == GoAll(l, other)
    decreases |hs|
  {
    if hs != [] {
      assert SameBytes(hs[0], other[0]);
      if hs[0].Bytes? {
        ReadAllIsRead(l, hs[0].side, hs[0].cuts);
        ReadAllIsRead(l, hs[0].side, other[0].cuts);
      }
      CutsDoNotMatter(Go(l, hs[0]), hs[1..], other[1..]);
    }
  }

  /** Frames sent back to back by one side, received in any pieces, are to the session a run of exactly the
      packets they mean, in order. */
  lemma {:induction false} FramesDriveSession(l: Link, s: Session, side: Side, frames: seq<Frame>, cuts: seq<string>)
    requires Ok(l) && ProgressOf(l, side) == START && l.session == Some(s) && Good(s)
    requires forall i :: 0 <= i < |frames| ==> ProperFrame(frames[i])
    requires Concat(cuts) == FramesText(frames)
    requires PossibleRun(s, Arrivals(side, Meanings(frames)))
    ensures ReadAll(l, side, cuts) == l.(session := Some(Sessions.Run(s, Arrivals(side, Meanings(frames)))))
  {
    ReadAllIsRead(l, side, cuts);
    FragmentationIndependence(START, cuts);
    FramesArrive(frames, cuts);
    AbsorbIsRun(s, Arrivals(side, Meanings(frames)));
  }
}
