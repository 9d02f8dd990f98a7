/** Strings as the proxy sees them: one `char` stands for one byte on the wire. */
module Text {

  type byte = x: int | 0 <= x < 256
  const TWO_64: int := 0x1_0000_0000_0000_0000
  type u64 = x: int | 0 <= x < 0x1_0000_0000_0000_0000

  /** Addition on `uint64_t`: wraps. */
  function Add64(a: u64, b: u64): u64 {
    (a + b) % TWO_64
  }

  datatype Option<+T> = None | Some(value: T)

  // Sequence facts used one at a time, so that proofs stay small.

  lemma Assoc<T>(a: seq<T>, b: seq<T>, c: seq<T>)
    ensures a + (b + c) == (a + b) + c
  {
  }

  lemma Parts<T>(a: seq<T>, b: seq<T>)
    ensures (a + b)[..|a|] == a && (a + b)[|a|..] == b
  {
  }

  lemma DropSum<T>(a: seq<T>, b: seq<T>, k: nat)
    requires k <= |b|
    ensures (a + b)[|a| + k..] == b[k..]
  {
  }

  lemma Head<T>(x: T, s: seq<T>)
    ensures [x] + s != [] && ([x] + s)[0] == x && ([x] + s)[1..] == s
  {
  }

  lemma Empty<T>(a: seq<T>)
    ensures a + [] == a && [] + a == a
  {
  }

  lemma TailOfSum<T>(a: seq<T>, b: seq<T>)
    requires a != []
    ensures a + b != [] && (a + b)[0] == a[0] && (a + b)[1..] == a[1..] + b
  {
  }

  /** The unbounded sum of the bytes of `s`. */
  function Sum(s: string): nat {
    if s == "" then 0 else s[0] as int + Sum(s[1..])
  }

  lemma {:induction false} SumConcat(a: string, b: string)
    ensures Sum(a + b) == Sum(a) + Sum(b)
  {
    if a == "" {
      assert a + b == b;
    } else {
      assert (a + b)[1..] == a[1..] + b;
      SumConcat(a[1..], b);
    }
  }

  function Repeat(c: char, n: nat): (r: string)
    ensures |r| == n && forall i :: 0 <= i < n ==> r[i] == c
  {
    seq(n, _ => c)
  }

  /** Neither `#` nor `*`: text that the packet parser takes literally. */
  predicate Plain(s: string) {
    forall i :: 0 <= i < |s| ==> s[i] != '#' && s[i] != '*'
  }

  function Concat(parts: seq<string>): string {
    if parts == [] then "" else parts[0] + Concat(parts[1..])
  }

  lemma {:induction false} ConcatSnoc(parts: seq<string>, last: string)
    ensures Concat(parts + [last]) == Concat(parts) + last
  {
    if parts == [] {
      assert parts + [last] == [last];
      assert Concat([last]) == last + Concat([]);
    } else {
      assert (parts + [last])[1..] == parts[1..] + [last];
      ConcatSnoc(parts[1..], last);
    }
  }

  lemma {:induction false} ConcatPlain(parts: seq<string>)
    requires forall i :: 0 <= i < |parts| ==> Plain(parts[i])
    ensures Plain(Concat(parts))
  {
    if parts != [] {
      ConcatPlain(parts[1..]);
    }
  }

  /** The parts one after the other with `sep` between neighbours. */
  function Join(parts: seq<string>, sep: char): string {
    if parts == [] then ""
    else if |parts| == 1 then parts[0]
    else parts[0] + [sep] + Join(parts[1..], sep)
  }

  /** The text before the first `sep`, or all of it (`find_first_of` and `substr`). */
  function Before(s: string, sep: char): (r: string)
    ensures |r| <= |s|
  {
    if s == "" || s[0] == sep then "" else [s[0]] + Before(s[1..], sep)
  }

  lemma {:induction false} BeforeMeaning(s: string, sep: char)
    ensures var r := Before(s, sep);
            r == s[..|r|] && sep !in r && (|r| < |s| ==> s[|r|] == sep)
  {
    if s != "" && s[0] != sep {
      BeforeMeaning(s[1..], sep);
    }
  }

  lemma {:induction false} BeforeUnique(a: string, sep: char, rest: string)
    requires sep !in a
    requires rest == "" || rest[0] == sep
    ensures Before(a + rest, sep) == a
  {
    if a == "" {
      assert a + rest == rest;
    } else {
      assert (a + rest)[1..] == a[1..] + rest;
      BeforeUnique(a[1..], sep, rest);
    }
  }

  /** How a reader cuts a `sep`-delimited list. */
  function Split(s: string, sep: char): seq<string>
    decreases |s|
  {
    var h := Before(s, sep);
    if |h| == |s| then [h] else [h] + Split(s[|h| + 1..], sep)
  }

  lemma {:induction false} SplitJoin(parts: seq<string>, sep: char)
    requires parts != []
    requires forall i :: 0 <= i < |parts| ==> sep !in parts[i]
    ensures Split(Join(parts, sep), sep) == parts
  {
    var first := parts[0];
    if |parts| == 1 {
      BeforeUnique(first, sep, "");
      Empty(first);
    } else {
      var tail := Join(parts[1..], sep);
      SplitFirst(first, sep, tail);
      Assoc(first, [sep], tail);
      SplitJoin(parts[1..], sep);
    }
  }

  lemma SplitFirst(first: string, sep: char, tail: string)
    requires sep !in first
    ensures Split(first + ([sep] + tail), sep) == [first] + Split(tail, sep)
  {
    var s := first + ([sep] + tail);
    BeforeUnique(first, sep, [sep] + tail);
    Assoc(first, [sep], tail);
    Parts(first + [sep], tail);
  }
}
