/** What the wire format means, without any parser: a payload is a list of items, each a literal
    byte or a run of the byte before it ("Overview" of the GDB Remote Serial Protocol). */
module Wire {
  import opened Text
  import opened Packet

  datatype Item = Literal(c: char) | Run(count: char)

  datatype Frame = Control(c: char) | DataFrame(items: seq<Item>, c1: char, c2: char)

  predicate Proper(items: seq<Item>) {
    forall i :: 0 <= i < |items| ==>
      match items[i] case Literal(c) => c != '#' && c != '*' case Run(_) => true
  }

  predicate ProperFrame(f: Frame) {
    match f
    case Control(c) => IsStart(c) && c != '$'
    case DataFrame(items, _, _) => Proper(items)
  }

  function ItemBytes(item: Item): string {
    match item case Literal(c) => [c] case Run(n) => ['*', n]
  }

  /** The bytes that carry the items. */
  function ItemText(items: seq<Item>): string {
    if items == [] then "" else ItemBytes(items[0]) + ItemText(items[1..])
  }

  /** The payload that the items stand for, after the byte `prev`. */
  function Expand(prev: char, items: seq<Item>): string
    decreases |items|
  {
    if items == [] then ""
    else match items[0]
      case Literal(c) => [c] + Expand(c, items[1..])
      case Run(n) => Repeat(prev, Repeats(n)) + Expand(prev, items[1..])
  }

  function FrameText(f: Frame): string {
    match f
    case Control(c) => [c]
    case DataFrame(items, c1, c2) => "$" + ItemText(items) + ['#', c1, c2]
  }

  /** The packet a frame stands for: expanded payload, and the sum of the unexpanded one. */
  function Meaning(f: Frame): Packet {
    match f
    case Control(c) => Packet([c], Complete, 0)
    case DataFrame(items, c1, c2) =>
      Packet("$" + Expand('$', items) + ['#', c1, c2], Complete, Sum(ItemText(items)) % 256)
  }

  // ------------------------------------------------------- frames are understood

  /** What one item does to an open packet. */
  function After(p: Packet, item: Item): Packet
    requires Valid(p) && p.phase == Data
  {
    var csum := (p.csum + Sum(ItemBytes(item))) % 256;
    match item
    case Literal(c) => Packet(p.buf + [c], Data, csum)
    case Run(n) => Packet(p.buf + Repeat(p.buf[|p.buf| - 1], Repeats(n)), Data, csum)
  }

  lemma FeedItem(p: Packet, item: Item, tail: string)
    requires Valid(p) && p.phase == Data && Proper([item])
    ensures Valid(After(p, item))
    ensures var q := After(p, item);
            Feed(p, ItemBytes(item) + tail) == (Feed(q, tail).0, |ItemBytes(item)| + Feed(q, tail).1)
  {
    assert item == [item][0];
    match item {
      case Literal(c) => FeedLiteral(p, c, tail);
      case Run(n) => FeedRun(p, n, tail);
    }
  }

  lemma StepOfLiteral(p: Packet, c: char)
    requires Valid(p) && p.phase == Data && c != '#' && c != '*'
    ensures Step(p, c) == After(p, Literal(c)) && Valid(After(p, Literal(c)))
  {
    StepValid(p, c);
    SumOne(c);
  }

  lemma FeedLiteral(p: Packet, c: char, tail: string)
    requires Valid(p) && p.phase == Data && c != '#' && c != '*'
    ensures var q := After(p, Literal(c));
            && Valid(q) && Feed(p, [c] + tail) == (Feed(q, tail).0, 1 + Feed(q, tail).1)
  {
    StepOfLiteral(p, c);
    Head(c, tail);
    FeedFirst(p, [c] + tail);
  }

  lemma SumOne(c: char)
    ensures Sum([c]) == c as int
  {
    assert [c][1..] == "";
  }

  lemma StepsOfRun(p: Packet, n: char)
    requires Valid(p) && p.phase == Data
    ensures Valid(Step(p, '*')) && Step(Step(p, '*'), n) == After(p, Run(n)) && Valid(After(p, Run(n)))
  {
    StepValid(p, '*');
    StepValid(Step(p, '*'), n);
    SumOne(n);
    SumConcat(['*'], [n]);
    SumOne('*');
    assert ['*', n] == ['*'] + [n];
  }

  lemma FeedRun(p: Packet, n: char, tail: string)
    requires Valid(p) && p.phase == Data
    ensures var q := After(p, Run(n));
            && Valid(q) && Feed(p, ['*', n] + tail) == (Feed(q, tail).0, 2 + Feed(q, tail).1)
  {
    var s := ['*', n] + tail;
    StepsOfRun(p, n);
    FeedFirst(p, s);
    assert s[1..] == [n] + tail;
    FeedFirst(Step(p, '*'), s[1..]);
    assert s[1..][1..] == tail;
  }

  lemma AfterLast(p: Packet, item: Item, rest: seq<Item>)
    requires Valid(p) && p.phase == Data
    ensures var q := After(p, item);
            && q.buf != ""
            && q.buf + Expand(q.buf[|q.buf| - 1], rest)
               == p.buf + Expand(p.buf[|p.buf| - 1], [item] + rest)
  {
    var q := After(p, item);
    var prev := p.buf[|p.buf| - 1];
    assert ([item] + rest)[1..] == rest;
    match item {
      case Literal(c) =>
        assert p.buf + [c] + Expand(c, rest) == p.buf + ([c] + Expand(c, rest));
      case Run(n) =>
        var r := Repeat(prev, Repeats(n));
        assert q.buf[|q.buf| - 1] == prev;
        assert p.buf + r + Expand(prev, rest) == p.buf + (r + Expand(prev, rest));
    }
  }

  /** What a whole payload does to an open packet. */
  function AfterAll(p: Packet, items: seq<Item>): Packet
    requires p.buf != ""
  {
    Packet(p.buf + Expand(p.buf[|p.buf| - 1], items), Data, (p.csum + Sum(ItemText(items))) % 256)
  }

  lemma AfterAllCons(p: Packet, item: Item, rest: seq<Item>)
    requires Valid(p) && p.phase == Data
    ensures After(p, item).buf != ""
    ensures AfterAll(After(p, item), rest) == AfterAll(p, [item] + rest)
  {
    AfterLast(p, item, rest);
    Head(item, rest);
    SumConcat(ItemBytes(item), ItemText(rest));
    SumsAdd(p.csum, Sum(ItemBytes(item)), Sum(ItemText(rest)));
  }

  lemma SumsAdd(csum: byte, a: nat, b: nat)
    ensures ((csum + a) % 256 + b) % 256 == (csum + (a + b)) % 256
  {
  }

  /** The payload `items` takes the packet `p` to `AfterAll(p, items)`. */
  predicate Fed(p: Packet, items: seq<Item>, rest: string) {
    && Valid(p) && p.buf != "" && Valid(AfterAll(p, items))
    && Feed(p, ItemText(items) + rest)
       == (Feed(AfterAll(p, items), rest).0, |ItemText(items)| + Feed(AfterAll(p, items), rest).1)
  }

  lemma {:induction false} FedCons(p: Packet, item: Item, tail: seq<Item>, rest: string)
    requires Valid(p) && p.phase == Data && Proper([item])
    requires Fed(After(p, item), tail, rest)
    ensures Fed(p, [item] + tail, rest)
  {
    FeedItem(p, item, ItemText(tail) + rest);
    AfterAllCons(p, item, tail);
    ItemTextCons(item, tail, rest);
  }

  lemma {:induction false} ItemTextCons(item: Item, tail: seq<Item>, rest: string)
    ensures |ItemText([item] + tail)| == |ItemBytes(item)| + |ItemText(tail)|
    ensures ItemText([item] + tail) + rest == ItemBytes(item) + (ItemText(tail) + rest)
  {
    Head(item, tail);
    Assoc(ItemBytes(item), ItemText(tail), rest);
  }

  lemma {:induction false} FeedItems(p: Packet, items: seq<Item>, rest: string)
    requires Valid(p) && p.phase == Data && Proper(items)
    ensures Fed(p, items, rest)
    decreases |items|
  {
    if items == [] {
      Empty(rest);
      Empty(p.buf);
    } else {
      assert items == [items[0]] + items[1..];
      AfterOpen(p, items[0]);
      FeedItems(After(p, items[0]), items[1..], rest);
      FedCons(p, items[0], items[1..], rest);
    }
  }

  lemma AfterOpen(p: Packet, item: Item)
    requires Valid(p) && p.phase == Data && Proper([item])
    ensures Valid(After(p, item)) && After(p, item).phase == Data
  {
    FeedItem(p, item, "");
  }

  /** Any proper frame, whatever follows it, is parsed to exactly its meaning, and parsing stops
      right behind its second checksum character. */
  lemma {:induction false} FrameUnderstood(f: Frame, rest: string)
    requires ProperFrame(f)
    ensures Feed(FRESH, FrameText(f) + rest) == (Meaning(f), |FrameText(f)|)
    ensures Valid(Meaning(f))
  {
    match f
    case Control(c) =>
      Head(c, rest);
      FeedFirst(FRESH, [c] + rest);
    case DataFrame(items, c1, c2) =>
      DataFrameUnderstood(items, c1, c2, rest);
      var body := ItemText(items) + (['#', c1, c2] + rest);
      DataFrameText(items, ['#', c1, c2], rest);
      Head('$', body);
      FeedFirst(FRESH, ['$'] + body);
  }

  lemma DataFrameText(items: seq<Item>, end: string, rest: string)
    ensures "$" + ItemText(items) + end + rest == ['$'] + (ItemText(items) + (end + rest))
  {
    Assoc("$" + ItemText(items), end, rest);
    Assoc("$", ItemText(items), end + rest);
  }

  lemma DataFrameUnderstood(items: seq<Item>, c1: char, c2: char, rest: string)
    requires Proper(items)
    ensures var f := DataFrame(items, c1, c2);
            && Valid(Meaning(f))
            && Feed(OPEN, ItemText(items) + (['#', c1, c2] + rest)) == (Meaning(f), |ItemText(items)| + 3)
  {
    FeedItems(OPEN, items, ['#', c1, c2] + rest);
    FeedClose(AfterAll(OPEN, items), c1, c2, rest);
  }

  // ------------------------------------------------- nothing else is understood

  /** Whatever completes an open packet is proper items, `#` and two characters. */
  lemma {:induction false} CompletionHasItems(p: Packet, s: string)
      returns (items: seq<Item>, c1: char, c2: char)
    requires Valid(p) && p.phase == Data
    requires Feed(p, s).0.phase == Complete
    ensures Proper(items)
    ensures s[..Feed(p, s).1] == ItemText(items) + ['#', c1, c2]
    decreases |s|
  {
    FeedFirst(p, s);
    var p1 := Step(p, s[0]);
    if s[0] == '#' {
      items := [];
      c1, c2 := ClosingHasTwo(p, s);
    } else if s[0] == '*' {
      FeedFirst(p1, s[1..]);
      var tail;
      tail, c1, c2 := CompletionHasItems(Step(p1, s[1]), s[1..][1..]);
      items := [Run(s[1])] + tail;
      Head(Run(s[1]), tail);
      TakeTwo(s, Feed(p, s).1);
      Assoc(['*', s[1]], ItemText(tail), ['#', c1, c2]);
    } else {
      var tail;
      tail, c1, c2 := CompletionHasItems(p1, s[1..]);
      items := [Literal(s[0])] + tail;
      Head(Literal(s[0]), tail);
      TakeOne(s, Feed(p, s).1);
      Assoc([s[0]], ItemText(tail), ['#', c1, c2]);
    }
  }

  lemma ClosingHasTwo(p: Packet, s: string) returns (c1: char, c2: char)
    requires Valid(p) && p.phase == Data && s != "" && s[0] == '#'
    requires Feed(p, s).0.phase == Complete
    ensures s[..Feed(p, s).1] == ['#', c1, c2]
  {
    FeedFirst(p, s);
    FeedFirst(Step(p, '#'), s[1..]);
    FeedFirst(Step(Step(p, '#'), s[1]), s[1..][1..]);
    c1, c2 := s[1], s[2];
    FeedClose(p, c1, c2, s[3..]);
    assert s == ['#', c1, c2] + s[3..];
  }

  lemma TakeOne(s: string, n: nat)
    requires 1 <= n <= |s|
    ensures s[..n] == [s[0]] + s[1..][..n - 1]
  {
  }

  lemma TakeTwo(s: string, n: nat)
    requires 2 <= n <= |s|
    ensures s[..n] == [s[0], s[1]] + s[1..][1..][..n - 2]
  {
  }

  /** A fresh parser completes a packet exactly on input that begins with a proper frame: the
      bytes consumed are that frame, and the packet is its meaning. */
  lemma {:induction false} ParserMeetsFormat(s: string)
    ensures Feed(FRESH, s).0.phase == Complete <==>
            exists f, rest :: ProperFrame(f) && s == FrameText(f) + rest
    ensures forall f, rest {:trigger FrameText(f) + rest} :: ProperFrame(f) && s == FrameText(f) + rest ==>
            Feed(FRESH, s) == (Meaning(f), |FrameText(f)|)
  {
    forall f, rest | ProperFrame(f) && s == FrameText(f) + rest
      ensures Feed(FRESH, s) == (Meaning(f), |FrameText(f)|)
    {
      FrameUnderstood(f, rest);
    }
    if Feed(FRESH, s).0.phase == Complete {
      var f, rest := FrameOf(s);
    }
  }

  lemma FrameOf(s: string) returns (f: Frame, rest: string)
    requires Feed(FRESH, s).0.phase == Complete
    ensures ProperFrame(f) && s == FrameText(f) + rest
  {
    FeedFirst(FRESH, s);
    if s[0] == '$' {
      var n := Feed(OPEN, s[1..]).1;
      var items, c1, c2 := CompletionHasItems(OPEN, s[1..]);
      f, rest := DataFrame(items, c1, c2), s[1..][n..];
      DataFrameText(items, ['#', c1, c2], rest);
      Assoc(ItemText(items), ['#', c1, c2], rest);
      assert s[1..] == s[1..][..n] + s[1..][n..];
    } else {
      f, rest := Control(s[0]), s[1..];
    }
  }

  /** Two proper frames never share a beginning: the format is unambiguous. */
  lemma FramesUnambiguous(f: Frame, g: Frame, a: string, b: string)
    requires ProperFrame(f) && ProperFrame(g)
    requires FrameText(f) + a == FrameText(g) + b
    ensures FrameText(f) == FrameText(g) && a == b && Meaning(f) == Meaning(g)
  {
    FrameUnderstood(f, a);
    FrameUnderstood(g, b);
    assert (FrameText(f) + a)[..|FrameText(f)|] == FrameText(f);
    assert (FrameText(g) + b)[..|FrameText(g)|] == FrameText(g);
    assert (FrameText(f) + a)[|FrameText(f)|..] == a;
    assert (FrameText(g) + b)[|FrameText(g)|..] == b;
  }

  // ----------------------------------------------------------- forwarded frames

  /** A received frame is forwarded with its payload expanded, under the checksum characters it came
      with. The next reader's recomputed checksum is the first one's if and only if the expanded and the
      unexpanded payload have the same sum modulo 256. */
  lemma {:induction false} ForwardedChecksum(items: seq<Item>, c1: char, c2: char)
    requires Proper(items)
    ensures var p := Meaning(DataFrame(items, c1, c2));
            && Valid(p) && p.phase == Complete && KindOf(p) == Dat && DataOf(p) == Expand('$', items)
            && (Feed(FRESH, RawOf(p)).0.csum == p.csum
                <==> Sum(Expand('$', items)) % 256 == Sum(ItemText(items)) % 256)
  {
    var p := Meaning(DataFrame(items, c1, c2));
    DataFrameUnderstood(items, c1, c2, "");
    Enclosed(Expand('$', items), ['#', c1, c2]);
    Reparse(p);
  }

  /** Without run-length coding they have. */
  lemma {:induction false} NoRunsNoChange(items: seq<Item>, prev: char)
    requires Proper(items) && forall i :: 0 <= i < |items| ==> items[i].Literal?
    ensures Expand(prev, items) == ItemText(items)
    decreases |items|
  {
    if items != [] {
      NoRunsNoChange(items[1..], items[0].c);
    }
  }

  /** A frame for which they have not: `$a* #bb` carries `a*` and a space, and stands for `aaaa`. */
  lemma {:induction false} RunChangesChecksum()
    ensures var items := [Literal('a'), Run(' ')];
            && Proper(items) && FrameText(DataFrame(items, 'b', 'b')) == "$a* #bb"
            && Expand('$', items) == "aaaa"
            && Sum(Expand('$', items)) % 256 != Sum(ItemText(items)) % 256
  {
    var items := [Literal('a'), Run(' ')];
    assert items[1..] == [Run(' ')] && items[1..][1..] == [];
    assert ItemText([Run(' ')]) == "* " + ItemText([]);
    assert ItemText(items) == "a* ";
    assert Expand('a', [Run(' ')]) == Repeat('a', 3) + "";
    assert Repeat('a', 3) == "aaa";
    assert "a"[1..] == "" && "aa"[1..] == "a" && "aaa"[1..] == "aa" && "aaaa"[1..] == "aaa";
    assert " "[1..] == "" && "* "[1..] == " " && "a* "[1..] == "* ";
    assert Sum("aaaa") == 4 * 97;
    assert Sum("a* ") == 97 + 42 + 32;
  }
}
