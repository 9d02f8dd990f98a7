/** Stop replies: `Txx` and a list of fields, each ended by a semicolon. */
module StopReplies {
  import opened Text
  import opened Packet
  import opened GdbPackets
  import opened ThreadIds

  /** The complete fields, each with its semicolon. */
  function Fields(payload: string): seq<string>
    decreases |payload|
  {
    var h := Before(payload, ';');
    if |h| == |payload| then [] else [h + ";"] + Fields(payload[|h| + 1..])
  }

  /** What follows the last semicolon. */
  function Rest(payload: string): string
    decreases |payload|
  {
    var h := Before(payload, ';');
    if |h| == |payload| then payload else Rest(payload[|h| + 1..])
  }

  const THREAD := "thread:"

  /** A field with its thread replaced, or the field itself. */
  function Retag(field: string, mark: string): string {
    if THREAD <= field then mark else field
  }

  function RetagAll(fields: seq<string>, mark: string): (r: seq<string>)
    ensures |r| == |fields|
  {
    if fields == [] then [] else [Retag(fields[0], mark)] + RetagAll(fields[1..], mark)
  }

  lemma {:induction false} RetagAt(fields: seq<string>, mark: string, i: nat)
    requires i < |fields|
    ensures RetagAll(fields, mark)[i] == Retag(fields[i], mark)
    decreases i
  {
    if i > 0 {
      RetagAt(fields[1..], mark, i - 1);
    }
  }

  lemma RetagEach(fields: seq<string>, mark: string)
    ensures forall i :: 0 <= i < |fields| ==> RetagAll(fields, mark)[i] == Retag(fields[i], mark)
  {
    forall i | 0 <= i < |fields| ensures RetagAll(fields, mark)[i] == Retag(fields[i], mark) {
      RetagAt(fields, mark, i);
    }
  }

  function Label(id: ThreadId): string {
    THREAD + ToText(id) + ";"
  }

  function Signal(data: string): string
    requires |data| >= 3
  {
    data[..3]
  }

  /** The payload of the reply that the client gets. */
  function Rewritten(data: string, mark: string): (r: string)
    requires |data| >= 3
    ensures |r| >= 3
  {
    Signal(data) + Concat(RetagAll(Fields(data[3..]), mark))
  }

  /** One field: text without semicolons, and a semicolon. */
  predicate IsField(s: string) {
    s != "" && s[|s| - 1] == ';' && ';' !in s[..|s| - 1]
  }

  lemma {:induction false} FieldsMeaning(payload: string)
    ensures payload == Concat(Fields(payload)) + Rest(payload)
    ensures ';' !in Rest(payload)
    decreases |payload|
  {
    var h := Before(payload, ';');
    BeforeMeaning(payload, ';');
    if |h| < |payload| {
      var rest := payload[|h| + 1..];
      FieldsMeaning(rest);
      CutAt(payload, h);
      Assoc(h + ";", Concat(Fields(rest)), Rest(rest));
    }
  }

  lemma {:induction false} CutAt(payload: string, h: string)
    requires |h| < |payload| && h == payload[..|h|] && payload[|h|] == ';'
    ensures payload == (h + ";") + payload[|h| + 1..]
  {
  }

  lemma {:induction false} FieldsAreFields(payload: string)
    ensures forall i :: 0 <= i < |Fields(payload)| ==> IsField(Fields(payload)[i])
    decreases |payload|
  {
    var h := Before(payload, ';');
    BeforeMeaning(payload, ';');
    if |h| < |payload| {
      FieldsAreFields(payload[|h| + 1..]);
      assert (h + ";")[..|h|] == h;
    }
  }

  /** Cutting fields that were put together gives them back. */
  lemma {:induction false} FieldsOfConcat(fields: seq<string>)
    requires forall i :: 0 <= i < |fields| ==> IsField(fields[i])
    ensures Fields(Concat(fields)) == fields && Rest(Concat(fields)) == ""
    decreases |fields|
  {
    if fields != [] {
      var f, tail := fields[0], Concat(fields[1..]);
      var h := f[..|f| - 1];
      assert f == h + ";";
      Assoc(h, ";", tail);
      BeforeUnique(h, ';', ";" + tail);
      Parts(h + ";", tail);
      FieldsOfConcat(fields[1..]);
    }
  }

  lemma {:induction false} RestMeaning(payload: string)
    ensures Rest(payload) == "" <==> payload == "" || payload[|payload| - 1] == ';'
    decreases |payload|
  {
    var h := Before(payload, ';');
    BeforeMeaning(payload, ';');
    if |h| == |payload| {
      assert payload == h;
    } else {
      var rest := payload[|h| + 1..];
      RestMeaning(rest);
      if rest != "" {
        assert rest[|rest| - 1] == payload[|payload| - 1];
      }
    }
  }

  lemma LabelIsField(id: ThreadId)
    ensures IsField(Label(id)) && THREAD <= Label(id) && Plain(Label(id))
  {
    ToTextChars(id);
    assert Label(id)[..|Label(id)| - 1] == THREAD + ToText(id);
    assert Label(id) == THREAD + (ToText(id) + ";");
  }

  lemma {:induction false} RetagFields(fields: seq<string>, id: ThreadId)
    requires forall i :: 0 <= i < |fields| ==> IsField(fields[i])
    ensures forall i :: 0 <= i < |fields| ==> IsField(RetagAll(fields, Label(id))[i])
  {
    LabelIsField(id);
    RetagEach(fields, Label(id));
  }

  /** The rewritten reply has the same signal and the same fields in the same order, except that
      each thread field names the given thread; nothing follows its last field. */
  lemma {:induction false} RewriteMeaning(data: string, id: ThreadId)
    requires |data| >= 3
    ensures var r := Rewritten(data, Label(id));
            && Signal(r) == Signal(data)
            && Fields(r[3..]) == RetagAll(Fields(data[3..]), Label(id))
            && Rest(r[3..]) == ""
  {
    var fields := RetagAll(Fields(data[3..]), Label(id));
    FieldsAreFields(data[3..]);
    RetagFields(Fields(data[3..]), id);
    FieldsOfConcat(fields);
    Parts(Signal(data), Concat(fields));
  }

  /** Rewriting twice is rewriting once. */
  lemma {:induction false} RewriteIdempotent(data: string, id: ThreadId)
    requires |data| >= 3
    ensures Rewritten(Rewritten(data, Label(id)), Label(id)) == Rewritten(data, Label(id))
  {
    RewriteMeaning(data, id);
    LabelIsField(id);
    var fields := RetagAll(Fields(data[3..]), Label(id));
    RetagEach(Fields(data[3..]), Label(id));
    RetagEach(fields, Label(id));
    assert RetagAll(fields, Label(id)) == fields;
  }

  /** What a rewrite that loses nothing would give. */
  function Unabridged(data: string, mark: string): string
    requires |data| >= 3
  {
    Rewritten(data, mark) + Rest(data[3..])
  }

  /** Nothing is lost exactly when the field list is empty or ends with a semicolon: text after the
      last semicolon is dropped. */
  lemma {:induction false} RewriteLosesNothing(data: string, id: ThreadId)
    requires |data| >= 3
    ensures Rewritten(data, Label(id)) == Unabridged(data, Label(id)) <==> |data| == 3 || data[|data| - 1] == ';'
  {
    RestMeaning(data[3..]);
    if Rest(data[3..]) == "" {
      Empty(Rewritten(data, Label(id)));
    }
  }

  /** The fields that the client gets. */
  function Replaced(fields: seq<string>, id: ThreadId): seq<string> {
    if fields == [] then []
    else [if "thread:" <= fields[0] then "thread:" + ToText(id) + ";" else fields[0]] + Replaced(fields[1..], id)
  }

  lemma {:induction false} ReplacedAreRetagged(fields: seq<string>, id: ThreadId)
    ensures RetagAll(fields, Label(id)) == Replaced(fields, id)
  {
    if fields != [] {
      ReplacedAreRetagged(fields[1..], id);
    }
  }

  /** A stop reply made of a signal and fields comes back with the same signal and fields, but for those that
      begin with `thread:`. */
  lemma {:induction false} RewrittenFields(signal: string, fields: seq<string>, id: ThreadId)
    requires |signal| == 3 && forall i :: 0 <= i < |fields| ==> IsField(fields[i])
    ensures Rewritten(signal + Concat(fields), Label(id)) == signal + Concat(Replaced(fields, id))
  {
    Parts(signal, Concat(fields));
    FieldsOfConcat(fields);
    ReplacedAreRetagged(fields, id);
  }

  /** The failing input: a thread field without its semicolon is lost, and the client learns of no thread. */
  lemma {:induction false} LastFieldLost(id: ThreadId)
    ensures Rest("T05thread:1"[3..]) == "thread:1" && Rewritten("T05thread:1", Label(id)) == "T05"
  {
    var data, rest := "T05thread:1", "thread:1";
    assert data[3..] == rest && data[..3] == "T05";
    Empty(rest);
    BeforeUnique(rest, ';', "");
    assert Fields(rest) == [];
    Empty("T05");
  }

  /** Without thread fields, the unabridged reply is the target's own. */
  lemma {:induction false} UnabridgedKeeps(data: string, id: ThreadId)
    requires |data| >= 3
    requires forall i :: 0 <= i < |Fields(data[3..])| ==> !(THREAD <= Fields(data[3..])[i])
    ensures Unabridged(data, Label(id)) == data
  {
    var fields := Fields(data[3..]);
    RetagEach(fields, Label(id));
    assert RetagAll(fields, Label(id)) == fields;
    FieldsMeaning(data[3..]);
    Assoc(Signal(data), Concat(fields), Rest(data[3..]));
    assert data == Signal(data) + data[3..];
  }

  lemma {:induction false} RewritePlain(data: string, id: ThreadId)
    requires |data| >= 3 && Plain(data)
    ensures Plain(Rewritten(data, Label(id)))
  {
    FieldsPlain(data[3..]);
    LabelIsField(id);
    RetagEach(Fields(data[3..]), Label(id));
    ConcatPlain(RetagAll(Fields(data[3..]), Label(id)));
  }

  lemma {:induction false} FieldsPlain(payload: string)
    requires Plain(payload)
    ensures forall i :: 0 <= i < |Fields(payload)| ==> Plain(Fields(payload)[i])
    decreases |payload|
  {
    var h := Before(payload, ';');
    BeforeMeaning(payload, ';');
    if |h| < |payload| {
      FieldsPlain(payload[|h| + 1..]);
    }
  }

  /** The packet sent to the client: the rewritten payload under its own checksum. */
  lemma {:induction false} RewrittenPacket(reply: Packet, id: ThreadId)
    requires Valid(reply) && |DataOf(reply)| >= 3
    ensures var p := Built(Rewritten(DataOf(reply), Label(id)));
            && p.phase == Phase.Complete && KindOf(p) == Dat
            && DataOf(p) == Rewritten(DataOf(reply), Label(id))
            && CrcOf(p) == p.csum == Sum(DataOf(p)) % 256
  {
    DataIsPlain(reply);
    RewritePlain(DataOf(reply), id);
    BuiltPlain(Rewritten(DataOf(reply), Label(id)));
  }

  // ---------------------------------------------------------------- the loop

  /** `find(c, start)`: the first place of `c` at or behind `start`, or the length. */
  function Find(s: string, c: char, start: nat): (r: nat)
    requires start <= |s|
    ensures start <= r <= |s|
  {
    start + |Before(s[start..], c)|
  }

  /** What is written for the field at `start`. */
  function Piece(payload: string, start: nat, id: ThreadId): string
    requires start <= |payload| && Find(payload, ';', start) < |payload|
  {
    if THREAD <= payload[start..] then Label(id) else payload[start..Find(payload, ';', start) + 1]
  }

  /** What is still to be written from `start` on. */
  function ToWrite(payload: string, start: nat, id: ThreadId): string
    requires start <= |payload|
  {
    Concat(RetagAll(Fields(payload[start..]), Label(id)))
  }

  method RewriteStopReply(data: string, id: ThreadId) returns (pkt: GdbPacket)
    requires |data| >= 3 && Plain(data)
    ensures fresh(pkt) && pkt.Value() == Built(Rewritten(data, Label(id)))
  {
    pkt := new GdbPacket.Of(Dat);
    FeedPlain(OPEN, Signal(data));
    var n := pkt.Parse(data[..3]);
    AllToWrite(data, id);
    WriteFields(pkt, Signal(data), data[3..], id);
    var ok := pkt.Finalize();
  }

  /** The loop over the fields, behind the text that the packet holds already. */
  method WriteFields(pkt: GdbPacket, ghost before: string, payload: string, id: ThreadId)
    requires Plain(payload) && pkt.state == Data && pkt.Value() == Feed(OPEN, before).0
    modifies pkt
    ensures pkt.state == Data && pkt.Value() == Feed(OPEN, before + ToWrite(payload, 0, id)).0
  {
    ghost var text, goal := before, before + ToWrite(payload, 0, id);
    var start := 0;
    var end := Find(payload, ';', start);
    while end < |payload|
      invariant 0 <= start <= end <= |payload| && end == Find(payload, ';', start)
      invariant pkt.state == Data && pkt.Value() == Feed(OPEN, text).0
      invariant goal == text + ToWrite(payload, start, id)
      decreases |payload| - start
    {
      text := WriteField(pkt, text, payload, start, end, id);
      start := end + 1;
      end := Find(payload, ';', start);
    }
    NothingToWrite(payload, start, id);
    Empty(text);
  }

  lemma {:induction false} PieceWritten(text: string, payload: string, start: nat, id: ThreadId)
    requires start <= |payload| && Find(payload, ';', start) < |payload| && Plain(payload)
    ensures text + ToWrite(payload, start, id)
            == text + Piece(payload, start, id) + ToWrite(payload, Find(payload, ';', start) + 1, id)
  {
    NextField(payload, start, id);
    Assoc(text, Piece(payload, start, id), ToWrite(payload, Find(payload, ';', start) + 1, id));
  }

  /** The body of the loop: writes the field from `start` to the semicolon at `end`, or the selected
      thread in place of a thread. */
  method WriteField(pkt: GdbPacket, ghost text: string, payload: string, start: nat, end: nat, id: ThreadId)
      returns (ghost after: string)
    requires start <= end < |payload| && end == Find(payload, ';', start) && Plain(payload)
    requires pkt.state == Data && pkt.Value() == Feed(OPEN, text).0
    modifies pkt
    ensures pkt.state == Data && pkt.Value() == Feed(OPEN, after).0
    ensures text + ToWrite(payload, start, id) == after + ToWrite(payload, end + 1, id)
  {
    after := text + Piece(payload, start, id);
    PieceWritten(text, payload, start, id);
    NextField(payload, start, id);
    if THREAD <= payload[start..] {
      ParseMore(pkt, text, THREAD + ToText(id) + ";");
    } else {
      ParseMore(pkt, text, payload[start..end + 1]);
    }
  }

  lemma AllToWrite(data: string, id: ThreadId)
    requires |data| >= 3
    ensures Rewritten(data, Label(id)) == Signal(data) + ToWrite(data[3..], 0, id)
  {
    assert data[3..][0..] == data[3..];
  }

  lemma NothingToWrite(payload: string, start: nat, id: ThreadId)
    requires start <= |payload| && Find(payload, ';', start) == |payload|
    ensures ToWrite(payload, start, id) == ""
  {
    assert Fields(payload[start..]) == [];
  }

  lemma NextField(payload: string, start: nat, id: ThreadId)
    requires start <= |payload| && Find(payload, ';', start) < |payload| && Plain(payload)
    ensures var piece := Piece(payload, start, id);
            && Plain(piece)
            && ToWrite(payload, start, id) == piece + ToWrite(payload, Find(payload, ';', start) + 1, id)
  {
    var end := Find(payload, ';', start);
    CutField(payload, start);
    PrefixOfField(payload[start..]);
    LabelIsField(id);
    RetagFirst(payload[start..end + 1], Fields(payload[end + 1..]), Label(id));
  }

  lemma CutField(payload: string, start: nat)
    requires start <= |payload| && Find(payload, ';', start) < |payload|
    ensures var end := Find(payload, ';', start);
            && Before(payload[start..], ';') + ";" == payload[start..end + 1]
            && Fields(payload[start..]) == [payload[start..end + 1]] + Fields(payload[end + 1..])
  {
    var rest, end := payload[start..], Find(payload, ';', start);
    BeforeMeaning(rest, ';');
    assert rest[end - start + 1..] == payload[end + 1..];
    assert Before(rest, ';') + ";" == payload[start..end + 1];
  }

  lemma RetagFirst(field: string, rest: seq<string>, mark: string)
    ensures Concat(RetagAll([field] + rest, mark)) == Retag(field, mark) + Concat(RetagAll(rest, mark))
  {
    Head(field, rest);
    Head(Retag(field, mark), RetagAll(rest, mark));
  }

  /** The marker has no semicolon, so looking for it in the field or in all that follows is the same. */
  lemma PrefixOfField(rest: string)
    requires |Before(rest, ';')| < |rest|
    ensures THREAD <= rest <==> THREAD <= Before(rest, ';') + ";"
  {
    var h := Before(rest, ';');
    BeforeMeaning(rest, ';');
    assert ';' !in THREAD;
    if |h| >= 7 {
      assert rest[..7] == (h + ";")[..7];
    } else {
      assert rest[|h|] == (h + ";")[|h|] == ';' != THREAD[|h|];
    }
  }
}
