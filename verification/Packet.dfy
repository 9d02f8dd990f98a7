/** One GDB packet as a value, and what a single byte does to it. */
module Packet {
  import opened Text
  import opened Hex

  datatype Kind = Unknown | Ack | Nak | Break | Dat

  datatype Phase = Invalid | Data | RunLength | Crc | Complete

  datatype Packet = Packet(buf: string, phase: Phase, csum: byte)

  const FRESH := Packet("", Invalid, 0)
  const BREAK: char := '\U{0003}'

  predicate IsStart(c: char) {
    c == '$' || c == '+' || c == '-' || c == BREAK
  }

  /** How often a run count repeats the previous byte: `count - ' ' + 3`, none when that is negative.
      `char` is signed, so bytes from 128 up are negative counts. */
  function Repeats(count: char): nat {
    if 29 <= count as int < 128 then count as int - 29 else 0
  }

  function AddSum(csum: byte, c: char): byte {
    (csum + c as int) % 256
  }

  /** Buffer shape in each state; the parser keeps it (see `StepValid`). */
  predicate Valid(p: Packet) {
    match p.phase
    case Invalid => p == FRESH
    case Data => Opened(p.buf)
    case RunLength => Opened(p.buf)
    case Crc => Closing(p.buf, 0) || Closing(p.buf, 1)
    case Complete => IsControl(p.buf) || Closing(p.buf, 2)
  }

  /** `$` and text without `#` and `*`. */
  predicate Opened(buf: string) {
    buf != "" && buf[0] == '$' && Plain(buf)
  }

  /** `$`, text without `#` and `*`, then `#` and `n` more bytes. */
  predicate Closing(buf: string, n: nat) {
    |buf| > n + 1 && buf[|buf| - n - 1] == '#' && Opened(buf[..|buf| - n - 1])
  }

  predicate IsControl(buf: string) {
    |buf| == 1 && IsStart(buf[0]) && buf[0] != '$'
  }

  function KindOf(p: Packet): Kind {
    if p.buf == "" then Unknown
    else if p.buf[0] == '$' then Dat
    else if p.buf[0] == '+' then Ack
    else if p.buf[0] == '-' then Nak
    else if p.buf[0] == BREAK then Break
    else Unknown
  }

  /** The payload: without `$` in front and without `#` and the digits behind. */
  function DataOf(p: Packet): string
    requires Valid(p)
  {
    if p.phase != Complete || KindOf(p) != Dat then "" else p.buf[1..|p.buf| - 3]
  }

  /** All bytes kept so far; this is what is written to a socket. */
  function RawOf(p: Packet): string {
    if p.phase == Invalid then "" else p.buf
  }

  /** The checksum that the two closing characters spell. */
  function CrcOf(p: Packet): byte
    requires Valid(p) && p.phase == Complete && KindOf(p) == Dat
  {
    Pair(p.buf[|p.buf| - 2], p.buf[|p.buf| - 1])
  }

  predicate Accepts(p: Packet, c: char) {
    p.phase != Complete && (p.phase == Invalid ==> IsStart(c))
  }

  /** The parser's reaction to one byte. */
  function Step(p: Packet, c: char): (q: Packet)
    requires Valid(p) && Accepts(p, c)
    ensures q.phase != Invalid
  {
    match p.phase
    case Invalid => Packet([c], if c == '$' then Data else Complete, p.csum)
    case Data =>
      if c == '#' then Packet(p.buf + [c], Crc, p.csum)
      else if c == '*' then Packet(p.buf, RunLength, AddSum(p.csum, c))
      else Packet(p.buf + [c], Data, AddSum(p.csum, c))
    case RunLength =>
      Packet(p.buf + Repeat(p.buf[|p.buf| - 1], Repeats(c)), Data, AddSum(p.csum, c))
    case Crc =>
      var buf := p.buf + [c];
      Packet(buf, if buf[|buf| - 3] == '#' then Complete else Crc, p.csum)
  }

  lemma StepValid(p: Packet, c: char)
    requires Valid(p) && Accepts(p, c)
    ensures Valid(Step(p, c))
  {
    match p.phase
    case Invalid =>
    case Data =>
      if c == '#' {
        Parts(p.buf, [c]);
      }
    case RunLength =>
    case Crc => CrcStepValid(p, c);
  }

  lemma CrcStepValid(p: Packet, c: char)
    requires Valid(p) && p.phase == Crc
    ensures Valid(Step(p, c))
  {
    var q := Step(p, c);
    if Closing(p.buf, 0) {
      assert q.buf[..|q.buf| - 2] == p.buf[..|p.buf| - 1];
      assert p.buf[..|p.buf| - 1][|p.buf| - 2] != '#';
    } else {
      assert q.buf[..|q.buf| - 3] == p.buf[..|p.buf| - 2];
    }
  }

  /** A whole call of `parse`: the packet afterwards and the number of bytes consumed. */
  function Feed(p: Packet, s: string): (r: (Packet, nat))
    requires Valid(p)
    ensures Valid(r.0) && r.1 <= |s|
    decreases |s|
  {
    if s == "" || !Accepts(p, s[0]) then (p, 0)
    else
      StepValid(p, s[0]);
      var (q, n) := Feed(Step(p, s[0]), s[1..]);
      (q, n + 1)
  }

  /** Only completion, or a first byte that starts no packet, leaves bytes unread. */
  lemma {:induction false} FeedStops(p: Packet, s: string)
    requires Valid(p)
    ensures var (q, n) := Feed(p, s);
            && (n < |s| ==> q.phase == Complete || (n == 0 && p.phase == Invalid && !IsStart(s[0])))
            && (n > 0 ==> q.phase != Invalid)
    decreases |s|
  {
    if s != "" && Accepts(p, s[0]) {
      StepValid(p, s[0]);
      FeedStops(Step(p, s[0]), s[1..]);
    }
  }

  /** Parsing does not depend on how the bytes are cut. */
  lemma {:induction false} FeedSplit(p: Packet, a: string, b: string)
    requires Valid(p)
    ensures var (q, n) := Feed(p, a);
            Feed(p, a + b) == if n < |a| then (q, n) else (Feed(q, b).0, n + Feed(q, b).1)
    decreases |a|
  {
    if a == "" {
      assert a + b == b;
    } else if Accepts(p, a[0]) {
      FeedFirst(p, a);
      FeedFirst(p, a + b);
      assert (a + b)[1..] == a[1..] + b;
      FeedSplit(Step(p, a[0]), a[1..], b);
    } else {
      assert (a + b)[0] == a[0];
    }
  }

  /** The first step of `Feed`, by itself. */
  lemma {:induction false} FeedFirst(p: Packet, s: string)
    requires Valid(p) && s != "" && Accepts(p, s[0])
    ensures Valid(Step(p, s[0]))
    ensures Feed(p, s) == (Feed(Step(p, s[0]), s[1..]).0, Feed(Step(p, s[0]), s[1..]).1 + 1)
  {
    StepValid(p, s[0]);
  }

  /** The four bytes that start a packet, what they start, and no others. */
  lemma {:induction false} StartBytes(c: char)
    ensures Accepts(FRESH, c) <==> c in "$+-\U{0003}"
    ensures Step(FRESH, '$').phase == Data && KindOf(Step(FRESH, '$')) == Dat
    ensures Step(FRESH, '+').phase == Complete && KindOf(Step(FRESH, '+')) == Ack
    ensures Step(FRESH, '-').phase == Complete && KindOf(Step(FRESH, '-')) == Nak
    ensures Step(FRESH, '\U{0003}').phase == Complete && KindOf(Step(FRESH, '\U{0003}')) == Break
  {
  }

  // ---------------------------------------------------------------- builder

  const OPEN := Packet("$", Data, 0)

  /** `finalize`: appends `#` and the checksum to a data packet that is still open. */
  function Finalized(p: Packet): (r: Packet)
    requires Valid(p)
    ensures Valid(r)
  {
    if KindOf(p) != Dat || p.phase != Data then p else Feed(p, "#" + HexOfByte(p.csum)).0
  }

  /** Open, one `parse` for each piece, and `finalize`. */
  function FeedAll(p: Packet, pieces: seq<string>): (r: Packet)
    requires Valid(p)
    ensures Valid(r)
    decreases |pieces|
  {
    if pieces == [] then p else FeedAll(Feed(p, pieces[0]).0, pieces[1..])
  }

  function Built(payload: string): (p: Packet)
    ensures Valid(p)
  {
    Finalized(Feed(OPEN, payload).0)
  }

  /** Plain text goes into an open packet unchanged. */
  lemma {:induction false} FeedPlain(p: Packet, s: string)
    requires Valid(p) && p.phase == Data && Plain(s)
    ensures Feed(p, s) == (Packet(p.buf + s, Data, (p.csum + Sum(s)) % 256), |s|)
    decreases |s|
  {
    if s == "" {
      Empty(p.buf);
    } else {
      var q := Packet(p.buf + [s[0]], Data, AddSum(p.csum, s[0]));
      assert Step(p, s[0]) == q;
      FeedFirst(p, s);
      FeedPlain(q, s[1..]);
      AppendFirst(p.buf, s);
      AddSumAll(p.csum, s);
    }
  }

  /** Building in pieces: one more plain piece extends the text of an open packet. */
  lemma {:induction false} FeedMore(text: string, piece: string)
    requires Feed(OPEN, text).0.phase == Data && Plain(piece)
    ensures Feed(Feed(OPEN, text).0, piece) == (Feed(OPEN, text + piece).0, |piece|)
    ensures Feed(OPEN, text + piece).0.phase == Data
  {
    FeedPlain(Feed(OPEN, text).0, piece);
    FeedStops(OPEN, text);
    FeedSplit(OPEN, text, piece);
  }

  lemma AppendFirst(a: string, s: string)
    requires s != ""
    ensures a + [s[0]] + s[1..] == a + s
  {
  }

  lemma {:induction false} AddSumAll(csum: byte, s: string)
    requires s != ""
    ensures (AddSum(csum, s[0]) + Sum(s[1..])) % 256 == (csum + Sum(s)) % 256
  {
  }

  lemma {:induction false} FeedClose(p: Packet, c1: char, c2: char, rest: string)
    requires Valid(p) && p.phase == Data
    ensures Feed(p, ['#', c1, c2] + rest) == (Packet(p.buf + ['#', c1, c2], Complete, p.csum), 3)
  {
    var p1 := Step(p, '#');
    StepValid(p, '#');
    var p2 := Step(p1, c1);
    StepValid(p1, c1);
    assert p2.buf == p.buf + ['#', c1];
    var p3 := Step(p2, c2);
    StepValid(p2, c2);
    assert p3.buf == p.buf + ['#', c1, c2];
    var s := ['#', c1, c2] + rest;
    assert s[1..] == [c1, c2] + rest;
    assert s[1..][1..] == [c2] + rest;
    assert s[1..][1..][1..] == rest;
    assert Feed(p3, rest) == (p3, 0);
    assert Feed(p2, [c2] + rest) == (p3, 1);
    assert Feed(p1, [c1, c2] + rest) == (p3, 2);
  }

  /** The builder: any pieces of plain text give a complete packet that carries exactly their
      concatenation, with two digits that spell its own checksum. */
  lemma {:induction false} BuilderRoundTrip(pieces: seq<string>)
    requires forall i :: 0 <= i < |pieces| ==> Plain(pieces[i])
    ensures var p := Finalized(FeedAll(OPEN, pieces));
            && p.phase == Complete && KindOf(p) == Dat
            && DataOf(p) == Concat(pieces)
            && p.csum == Sum(Concat(pieces)) % 256 && CrcOf(p) == p.csum
            && RawOf(p) == "$" + Concat(pieces) + "#" + HexOfByte(p.csum)
            && p == Built(Concat(pieces))
  {
    FeedAllPlain(OPEN, pieces);
    ConcatPlain(pieces);
    BuiltPlain(Concat(pieces));
  }

  lemma {:induction false} FeedAllPlain(p: Packet, pieces: seq<string>)
    requires Valid(p) && p.phase == Data
    requires forall i :: 0 <= i < |pieces| ==> Plain(pieces[i])
    ensures FeedAll(p, pieces) == Feed(p, Concat(pieces)).0
    decreases |pieces|
  {
    if pieces != [] {
      FeedPlain(p, pieces[0]);
      var q := Feed(p, pieces[0]).0;
      FeedAllPlain(q, pieces[1..]);
      FeedSplit(p, pieces[0], Concat(pieces[1..]));
    }
  }

  lemma {:induction false} BuiltPlain(payload: string)
    requires Plain(payload)
    ensures var p := Built(payload);
            && p.phase == Complete && KindOf(p) == Dat
            && DataOf(p) == payload
            && p.csum == Sum(payload) % 256 && CrcOf(p) == p.csum
            && RawOf(p) == "$" + payload + "#" + HexOfByte(p.csum)
  {
    FeedPlain(OPEN, payload);
    HexOfByteValue(Sum(payload) % 256);
    var q := Feed(OPEN, payload).0;
    var t := HexOfByte(q.csum);
    FeedClose(q, t[0], t[1], "");
    assert "#" + t == ['#', t[0], t[1]] + "";
    Assoc("$" + payload, "#", t);
    Enclosed(payload, "#" + t);
  }

  lemma Enclosed(payload: string, end: string)
    requires |end| == 3
    ensures ("$" + payload + end)[1..|payload| + 1] == payload
  {
  }

  /** Payloads handed to the rest of the proxy never contain `#` or `*`. */
  lemma DataIsPlain(p: Packet)
    requires Valid(p)
    ensures Plain(DataOf(p))
  {
    if p.phase == Complete && KindOf(p) == Dat {
      var body := p.buf[..|p.buf| - 3];
      forall i | 0 <= i < |DataOf(p)|
        ensures DataOf(p)[i] != '#' && DataOf(p)[i] != '*'
      {
        assert DataOf(p)[i] == body[i + 1];
      }
    }
  }

  /** Forwarding writes `RawOf(p)`. The next reader gets the same bytes and the same payload, and
      its recomputed checksum agrees exactly when the kept payload and the bytes that came over the
      wire have the same sum, which run-length coding can spoil. */
  lemma {:induction false} Reparse(p: Packet)
    requires Valid(p) && p.phase == Complete && KindOf(p) == Dat
    ensures var (q, n) := Feed(FRESH, RawOf(p));
            && n == |RawOf(p)| && q.phase == Complete
            && q.buf == p.buf && KindOf(q) == Dat && DataOf(q) == DataOf(p) && CrcOf(q) == CrcOf(p)
            && (q.csum == p.csum <==> Sum(DataOf(p)) % 256 == p.csum)
  {
    var body, n := DataOf(p), |p.buf|;
    DataIsPlain(p);
    assert p.buf == ("$" + body) + ['#', p.buf[n - 2], p.buf[n - 1]] by {
      assert p.buf[..n - 3] == "$" + body;
      assert p.buf == p.buf[..n - 3] + p.buf[n - 3..];
    }
    StepValid(FRESH, '$');
    assert p.buf[1..] == body + (['#', p.buf[n - 2], p.buf[n - 1]] + "");
    FeedPlain(OPEN, body);
    FeedSplit(OPEN, body, ['#', p.buf[n - 2], p.buf[n - 1]] + "");
    FeedClose(Feed(OPEN, body).0, p.buf[n - 2], p.buf[n - 1], "");
    assert OPEN.buf + body + ['#', p.buf[n - 2], p.buf[n - 1]] == p.buf;
  }
}
