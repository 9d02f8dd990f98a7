/** Run-length coding as a sender writes it: a byte and up to 97 more copies of it ("Overview" of the GDB
    Remote Serial Protocol). What is sent is what the parser gives back. */
module RunLengths {
  import opened Text
  import opened Packet
  import opened Wire
  import opened Stream

  /** A byte and how many more copies of it follow. */
  datatype Chunk = Chunk(c: char, more: nat)

  /** None, or 3 to 97 more copies of a byte that needs no escaping. */
  predicate Sendable(chunk: Chunk) {
    chunk.c != '#' && chunk.c != '*' && (chunk.more == 0 || 3 <= chunk.more <= 97)
  }

  predicate AllSendable(chunks: seq<Chunk>) {
    forall i :: 0 <= i < |chunks| ==> Sendable(chunks[i])
  }

  /** The characters on the wire: the byte, and for copies a star and the number of copies plus 29. */
  function Written(chunk: Chunk): string
    requires Sendable(chunk)
  {
    if chunk.more == 0 then [chunk.c] else [chunk.c, '*', (chunk.more + 29) as char]
  }

  function WrittenAll(chunks: seq<Chunk>): string
    requires AllSendable(chunks)
  {
    if chunks == [] then "" else Written(chunks[0]) + WrittenAll(chunks[1..])
  }

  function Copies(c: char, n: nat): string {
    if n == 0 then "" else [c] + Copies(c, n - 1)
  }

  /** What the chunks stand for. */
  function Meant(chunks: seq<Chunk>): string {
    if chunks == [] then "" else [chunks[0].c] + Copies(chunks[0].c, chunks[0].more) + Meant(chunks[1..])
  }

  lemma {:induction false} CopiesAreRepeated(c: char, n: nat)
    ensures Copies(c, n) == Repeat(c, n)
  {
    if n > 0 {
      CopiesAreRepeated(c, n - 1);
      assert Repeat(c, n) == [c] + Repeat(c, n - 1);
    }
  }

  // ------------------------------------------------------------------- decoding

  function ItemsOf(chunk: Chunk): seq<Item>
    requires Sendable(chunk)
  {
    if chunk.more == 0 then [Literal(chunk.c)] else [Literal(chunk.c), Run((chunk.more + 29) as char)]
  }

  function AllItems(chunks: seq<Chunk>): seq<Item>
    requires AllSendable(chunks)
  {
    if chunks == [] then [] else ItemsOf(chunks[0]) + AllItems(chunks[1..])
  }

  lemma {:induction false} ItemsAppend(prev: char, chunk: Chunk, rest: seq<Item>)
    requires Sendable(chunk)
    ensures ItemText(ItemsOf(chunk) + rest) == Written(chunk) + ItemText(rest)
    ensures Expand(prev, ItemsOf(chunk) + rest) == [chunk.c] + Copies(chunk.c, chunk.more) + Expand(chunk.c, rest)
  {
    var first := Literal(chunk.c);
    if chunk.more == 0 {
      Head(first, rest);
    } else {
      var run := Run((chunk.more + 29) as char);
      CopiesAreRepeated(chunk.c, chunk.more);
      Assoc([first], [run], rest);
      Head(first, [run] + rest);
      Head(run, rest);
      assert [first, run] == [first] + [run];
      Assoc([chunk.c], ['*', (chunk.more + 29) as char], ItemText(rest));
      Assoc([chunk.c], Copies(chunk.c, chunk.more), Expand(chunk.c, rest));
    }
  }

  lemma {:induction false} ItemsAre(prev: char, chunks: seq<Chunk>)
    requires AllSendable(chunks)
    ensures ItemText(AllItems(chunks)) == WrittenAll(chunks) && Expand(prev, AllItems(chunks)) == Meant(chunks)
    ensures Proper(AllItems(chunks))
    decreases |chunks|
  {
    if chunks != [] {
      ItemsAppend(prev, chunks[0], AllItems(chunks[1..]));
      ItemsAre(chunks[0].c, chunks[1..]);
    }
  }

  /** However a sender splits a payload into chunks, and whatever checksum characters follow, and however
      the bytes are cut into reads: one packet arrives, with that payload. */
  lemma {:induction false} ChunksArrive(chunks: seq<Chunk>, c1: char, c2: char, cuts: seq<string>)
    requires AllSendable(chunks)
    requires Concat(cuts) == "$" + WrittenAll(chunks) + ['#', c1, c2]
    ensures var r := DeliverAll(START, cuts);
            && r.packet == FRESH && !r.aborted && |r.delivered| == 1
            && var p := r.delivered[0];
               Valid(p) && p.phase == Complete && KindOf(p) == Dat && DataOf(p) == Meant(chunks)
  {
    var f := DataFrame(AllItems(chunks), c1, c2);
    ItemsAre('$', chunks);
    Empty(FrameText(f));
    assert [f][1..] == [];
    assert FramesText([f]) == FrameText(f) + FramesText([]);
    assert Meanings([f]) == [Meaning(f)] + Meanings([]);
    FramesArrive([f], cuts);
    FrameUnderstood(f, "");
    Enclosed(Meant(chunks), ['#', c1, c2]);
  }

  // ------------------------------------------------------------------- a sender

  /** How often the first byte of `s` follows itself at once, at most `limit` times. */
  function RunOf(s: string, limit: nat): (n: nat)
    requires s != ""
    ensures n <= limit && n < |s|
    decreases limit
  {
    if limit == 0 || |s| < 2 || s[1] != s[0] then 0 else 1 + RunOf(s[1..], limit - 1)
  }

  lemma {:induction false} RunIsCopies(s: string, limit: nat)
    requires s != ""
    ensures s[1..][..RunOf(s, limit)] == Copies(s[0], RunOf(s, limit))
    decreases limit
  {
    if !(limit == 0 || |s| < 2 || s[1] != s[0]) {
      RunIsCopies(s[1..], limit - 1);
    }
  }

  /** How many copies a sender puts into one run: as many as there are, but 6 and 7 would be written with the
      characters that end and begin packets, so 5 instead, and fewer than 3 are not worth it. */
  function Worth(n: nat): nat {
    if n < 3 then 0 else if n == 6 || n == 7 then 5 else n
  }

  function Encode(payload: string): seq<Chunk>
    decreases |payload|
  {
    if payload == "" then []
    else
      var n := Worth(RunOf(payload, 97));
      [Chunk(payload[0], n)] + Encode(payload[n + 1..])
  }

  lemma {:induction false} EncodeSendable(payload: string)
    requires Plain(payload)
    ensures AllSendable(Encode(payload))
    decreases |payload|
  {
    if payload != "" {
      EncodeSendable(payload[Worth(RunOf(payload, 97)) + 1..]);
    }
  }

  lemma {:induction false} EncodeMeant(payload: string)
    ensures Meant(Encode(payload)) == payload
    decreases |payload|
  {
    if payload != "" {
      var n := Worth(RunOf(payload, 97));
      EncodeMeant(payload[n + 1..]);
      Head(Chunk(payload[0], n), Encode(payload[n + 1..]));
      FirstChunk(payload);
    }
  }

  lemma {:induction false} FirstChunk(payload: string)
    requires payload != ""
    ensures var n := Worth(RunOf(payload, 97));
            [payload[0]] + Copies(payload[0], n) + payload[n + 1..] == payload
  {
    var r := RunOf(payload, 97);
    var n := Worth(r);
    RunIsCopies(payload, 97);
    CopiesPrefix(payload[0], r, n);
    assert payload[1..][..n] == payload[1..][..r][..n];
    assert payload == [payload[0]] + payload[1..][..n] + payload[n + 1..];
  }

  lemma {:induction false} CopiesPrefix(c: char, r: nat, n: nat)
    requires n <= r
    ensures |Copies(c, r)| == r && Copies(c, r)[..n] == Copies(c, n)
  {
    CopiesAreRepeated(c, r);
    CopiesAreRepeated(c, n);
  }

  /** Every plain payload, run-length coded by this sender and received in any pieces, comes back. */
  lemma {:induction false} EncodedArrives(payload: string, c1: char, c2: char, cuts: seq<string>)
    requires Plain(payload)
    ensures AllSendable(Encode(payload))
    ensures Concat(cuts) == "$" + WrittenAll(Encode(payload)) + ['#', c1, c2] ==>
              var r := DeliverAll(START, cuts);
              && r.packet == FRESH && !r.aborted && |r.delivered| == 1
              && Valid(r.delivered[0]) && r.delivered[0].phase == Complete && KindOf(r.delivered[0]) == Dat
              && DataOf(r.delivered[0]) == payload
  {
    EncodeSendable(payload);
    EncodeMeant(payload);
    if Concat(cuts) == "$" + WrittenAll(Encode(payload)) + ['#', c1, c2] {
      ChunksArrive(Encode(payload), c1, c2, cuts);
    }
  }

  /** Each count character from a space to a tilde: 3 to 97 more copies of the byte before the star. */
  lemma {:induction false} LegalCount(p: Packet, count: char)
    requires Valid(p) && p.phase == Data && 32 <= count as int <= 126
    ensures var (q, n) := Feed(p, ['*', count]);
            && n == 2 && q.phase == Data
            && q.buf == p.buf + Copies(p.buf[|p.buf| - 1], count as int - 29)
  {
    var s := ['*', count];
    CopiesAreRepeated(p.buf[|p.buf| - 1], count as int - 29);
    FeedFirst(p, s);
    assert s[1..] == [count] && s[1..][1..] == "";
    FeedFirst(Step(p, '*'), s[1..]);
  }

  /** A memory reply: six zeros in three bytes. */
  lemma {:induction false} SixZeros()
    ensures Encode("000000") == [Chunk('0', 5)] && WrittenAll([Chunk('0', 5)]) == "0*\""
  {
    var s := "000000";
    assert s[1..] == "00000" && "00000"[1..] == "0000" && "0000"[1..] == "000" && "000"[1..] == "00";
    assert "00"[1..] == "0";
    assert RunOf("0", 92) == 0 && RunOf("00", 93) == 1 && RunOf("000", 94) == 2 && RunOf("0000", 95) == 3;
    assert RunOf("00000", 96) == 4 && RunOf(s, 97) == 5;
    assert s[6..] == "" && Encode("") == [];
    assert Written(Chunk('0', 5)) == "0*\"";
    assert [Chunk('0', 5)][1..] == [];
  }
}
