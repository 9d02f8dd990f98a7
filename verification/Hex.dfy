/** Hexadecimal text: digits, numbers, byte strings and little-endian words. */
module Hex {
  import opened Text

  function FromHex(a: char): (n: nat)
    ensures n < 16
  {
    if '0' <= a <= '9' then a as int - '0' as int
    else if 'a' <= a <= 'f' then a as int - 'a' as int + 10
    else if 'A' <= a <= 'F' then a as int - 'A' as int + 10
    else 0
  }

  function ToHex(nib: nat): char
    requires nib < 16
  {
    if nib < 10 then ('0' as int + nib) as char else ('a' as int + nib - 10) as char
  }

  lemma ToHexMeaning(nib: nat)
    requires nib < 16
    ensures FromHex(ToHex(nib)) == nib && IsLowerHex(ToHex(nib))
  {
  }

  /** The sixteen digits, in order; both cases are read, everything else counts as zero. */
  lemma {:induction false} DigitsAre(nib: nat)
    requires nib < 16
    ensures ToHex(nib) == "0123456789abcdef"[nib]
    ensures FromHex("0123456789abcdef"[nib]) == nib && FromHex("0123456789ABCDEF"[nib]) == nib
  {
  }

  predicate IsHex(c: char) {
    '0' <= c <= '9' || 'a' <= c <= 'f' || 'A' <= c <= 'F'
  }

  /** The digits the proxy writes itself. */
  predicate IsLowerHex(c: char) {
    '0' <= c <= '9' || 'a' <= c <= 'f'
  }

  predicate AllLowerHex(s: string) {
    forall i :: 0 <= i < |s| ==> IsLowerHex(s[i])
  }

  // ---------------------------------------------------------------- numbers

  /** `%x`: the shortest lower-case hexadecimal text of `n`. */
  function HexText(n: nat): (s: string)
    ensures s != ""
  {
    if n < 16 then [ToHex(n)] else HexText(n / 16) + [ToHex(n % 16)]
  }

  lemma {:induction false} HexTextLower(n: nat)
    ensures AllLowerHex(HexText(n))
  {
    ToHexMeaning(n % 16);
    if n >= 16 {
      HexTextLower(n / 16);
    }
  }

  function HexValue(s: string): nat {
    if s == "" then 0 else HexValue(s[..|s| - 1]) * 16 + FromHex(s[|s| - 1])
  }

  lemma {:induction false} HexTextValue(n: nat)
    ensures HexValue(HexText(n)) == n
  {
    var s := HexText(n);
    ToHexMeaning(n % 16);
    if n >= 16 {
      HexTextValue(n / 16);
      assert s[..|s| - 1] == HexText(n / 16);
    } else {
      assert s[..0] == "";
    }
  }

  function Pow(b: nat, e: nat): nat {
    if e == 0 then 1 else b * Pow(b, e - 1)
  }

  /** A number has at most `k` digits exactly when it is below 16 to the power of `k`. */
  lemma {:induction false} HexTextLength(n: nat, k: nat)
    requires k > 0
    ensures |HexText(n)| <= k <==> n < Pow(16, k)
  {
    PowPositive(16, k - 1);
    if n >= 16 && k > 1 {
      HexTextLength(n / 16, k - 1);
    }
  }

  lemma {:induction false} PowPositive(b: nat, e: nat)
    requires b > 0
    ensures Pow(b, e) > 0
  {
    if e > 0 {
      PowPositive(b, e - 1);
    }
  }

  /** The leading hexadecimal digits: what `strtoull` and `stoull` convert. */
  function HexPrefix(s: string): (p: string)
    ensures |p| <= |s| && p == s[..|p|]
    ensures forall i :: 0 <= i < |p| ==> IsHex(p[i])
    ensures |p| < |s| ==> !IsHex(s[|p|])
  {
    if s == "" || !IsHex(s[0]) then "" else [s[0]] + HexPrefix(s[1..])
  }

  lemma {:induction false} HexPrefixOf(digits: string, rest: string)
    requires AllLowerHex(digits)
    requires rest == "" || !IsHex(rest[0])
    ensures HexPrefix(digits + rest) == digits
  {
    if digits == "" {
      assert digits + rest == rest;
    } else {
      assert (digits + rest)[1..] == digits[1..] + rest;
      HexPrefixOf(digits[1..], rest);
    }
  }

  lemma LowerHexIsPlain(s: string)
    requires AllLowerHex(s)
    ensures Plain(s)
    ensures '\0' !in s && ',' !in s && '.' !in s && ';' !in s
  {
  }

  // ----------------------------------------------------------- byte strings

  function HexOfByte(b: byte): (s: string)
    ensures |s| == 2
  {
    [ToHex(b / 16), ToHex(b % 16)]
  }

  /** High digit first. */
  lemma {:induction false} ByteText(b: byte)
    ensures HexOfByte(b) == ["0123456789abcdef"[b / 16], "0123456789abcdef"[b % 16]]
    ensures Pair("0123456789abcdef"[b / 16], "0123456789abcdef"[b % 16]) == b
  {
    DigitsAre(b / 16);
    DigitsAre(b % 16);
  }

  lemma HexOfByteValue(b: byte)
    ensures Pair(HexOfByte(b)[0], HexOfByte(b)[1]) == b
  {
    ToHexMeaning(b / 16);
    ToHexMeaning(b % 16);
  }

  /** Two digits for each byte, in order. */
  function HexOf(bytes: seq<byte>): (s: string)
    ensures |s| == 2 * |bytes|
  {
    if bytes == [] then "" else HexOfByte(bytes[0]) + HexOf(bytes[1..])
  }

  lemma {:induction false} HexOfLower(bytes: seq<byte>)
    ensures AllLowerHex(HexOf(bytes))
  {
    if bytes != [] {
      ToHexMeaning(bytes[0] / 16);
      ToHexMeaning(bytes[0] % 16);
      HexOfLower(bytes[1..]);
    }
  }

  lemma {:induction false} HexOfSnoc(bytes: seq<byte>, b: byte)
    ensures HexOf(bytes + [b]) == HexOf(bytes) + HexOfByte(b)
  {
    if bytes == [] {
      assert bytes + [b] == [b];
      assert HexOf([b]) == HexOfByte(b) + HexOf([]);
    } else {
      assert (bytes + [b])[1..] == bytes[1..] + [b];
      HexOfSnoc(bytes[1..], b);
    }
  }

  function Pair(hi: char, lo: char): byte {
    FromHex(hi) * 16 + FromHex(lo)
  }

  /** The bytes `hex2bin` stores: it stops at a NUL digit, at an odd last digit or at `size`. */
  function BytesOf(hex: string, size: nat): (bytes: seq<byte>)
    ensures |bytes| <= size && 2 * |bytes| <= |hex|
    decreases size
  {
    if size == 0 || |hex| < 2 || hex[0] == '\0' || hex[1] == '\0' then []
    else [Pair(hex[0], hex[1])] + BytesOf(hex[2..], size - 1)
  }

  /** `hex2bin` inverts `bin2hex`, whatever room there is beyond the bytes. */
  lemma {:induction false} HexRoundTrip(bytes: seq<byte>, size: nat)
    requires |bytes| <= size
    ensures BytesOf(HexOf(bytes), size) == bytes
  {
    var hex := HexOf(bytes);
    if bytes != [] {
      ToHexMeaning(bytes[0] / 16);
      ToHexMeaning(bytes[0] % 16);
      Parts(HexOfByte(bytes[0]), HexOf(bytes[1..]));
      HexRoundTrip(bytes[1..], size - 1);
    }
  }

  /** The stored bytes are determined pair by pair. */
  lemma {:induction false} BytesOfMeaning(hex: string, size: nat, i: nat)
    requires i < |BytesOf(hex, size)|
    ensures BytesOf(hex, size)[i] == Pair(hex[2 * i], hex[2 * i + 1])
    ensures hex[2 * i] != '\0' && hex[2 * i + 1] != '\0'
    decreases i
  {
    if i > 0 {
      BytesOfMeaning(hex[2..], size - 1, i - 1);
      assert hex[2..][2 * (i - 1)] == hex[2 * i] && hex[2..][2 * (i - 1) + 1] == hex[2 * i + 1];
    }
  }

  /** Decoding stops only at the end of the buffer, of the text, or at a NUL. */
  lemma {:induction false} BytesOfStops(hex: string, size: nat)
    ensures var n := |BytesOf(hex, size)|;
            n == size || |hex| < 2 * n + 2 || hex[2 * n] == '\0' || hex[2 * n + 1] == '\0'
    decreases size
  {
    if !(size == 0 || |hex| < 2 || hex[0] == '\0' || hex[1] == '\0') {
      BytesOfStops(hex[2..], size - 1);
    }
  }

  /** What decoding comes to when the bytes `done` stand for the first `i` pairs. */
  ghost function Ahead(done: seq<byte>, hex: string, i: nat, size: nat): seq<byte>
    requires i <= size && 2 * i <= |hex|
  {
    done + BytesOf(hex[2 * i..], size - i)
  }

  lemma {:induction false} AheadMore(done: seq<byte>, hex: string, i: nat, size: nat)
    requires i < size && 2 * i + 1 < |hex| && hex[2 * i] != '\0' && hex[2 * i + 1] != '\0'
    ensures Ahead(done, hex, i, size) == Ahead(done + [Pair(hex[2 * i], hex[2 * i + 1])], hex, i + 1, size)
  {
    assert hex[2 * i..][2..] == hex[2 * (i + 1)..];
    Assoc(done, [Pair(hex[2 * i], hex[2 * i + 1])], BytesOf(hex[2 * (i + 1)..], size - (i + 1)));
  }

  lemma {:induction false} AheadDone(done: seq<byte>, hex: string, i: nat, size: nat)
    requires i <= size && 2 * i <= |hex|
    requires i == size || |hex| < 2 * i + 2 || hex[2 * i] == '\0' || hex[2 * i + 1] == '\0'
    ensures Ahead(done, hex, i, size) == done
  {
    Empty(done);
  }

  method StoreByte(data: array<byte>, i: nat, b: byte)
    requires i < data.Length
    modifies data
    ensures data[..i + 1] == old(data[..i]) + [b] && data[i + 1..] == old(data[i + 1..])
  {
    data[i] := b;
  }

  /** Converts `hex` into at most `size` bytes of `data`; the rest of the buffer is untouched. */
  method Hex2Bin(hex: string, data: array<byte>, size: nat) returns (i: nat)
    requires size <= data.Length
    modifies data
    ensures i == |BytesOf(hex, size)|
    ensures data[..i] == BytesOf(hex, size)
    ensures data[i..] == old(data[i..])
  {
    var count := if |hex| / 2 < size then |hex| / 2 else size;
    i := 0;
    ghost var goal := BytesOf(hex, size);
    assert hex[0..] == hex && data[..0] + goal == goal;
    while i < count
      invariant 0 <= i <= count && goal == Ahead(data[..i], hex, i, size)
      invariant data[i..] == old(data[i..])
    {
      if hex[2 * i] == '\0' || hex[2 * i + 1] == '\0' {
        break;
      }
      AheadMore(data[..i], hex, i, size);
      StoreByte(data, i, FromHex(hex[2 * i]) * 16 + FromHex(hex[2 * i + 1]));
      i := i + 1;
    }
    AheadDone(data[..i], hex, i, size);
  }

  /** Appends the text of the bytes to `str`. */
  method Bin2Hex(bytes: seq<byte>, str: string) returns (out: string)
    ensures out == str + HexOf(bytes)
  {
    out := str;
    var i := 0;
    while i < |bytes|
      invariant 0 <= i <= |bytes|
      invariant out == str + HexOf(bytes[..i])
    {
      assert bytes[..i + 1] == bytes[..i] + [bytes[i]];
      HexOfSnoc(bytes[..i], bytes[i]);
      out := out + [ToHex(bytes[i] / 16)];
      out := out + [ToHex(bytes[i] % 16)];
      i := i + 1;
    }
    assert bytes[..i] == bytes;
  }

  // ------------------------------------------------------------------ words

  /** The value of bytes in little-endian order. */
  function Word(bytes: seq<byte>): nat {
    if bytes == [] then 0 else bytes[0] + 256 * Word(bytes[1..])
  }

  /** Four bytes, least significant first. */
  lemma {:induction false} WordIs(a: byte, b: byte, c: byte, d: byte)
    ensures Word([a, b, c, d]) == a + 0x100 * b + 0x1_0000 * c + 0x100_0000 * d
  {
    WordCons(d, []);
    WordCons(c, [d]);
    WordCons(b, [c, d]);
    WordCons(a, [b, c, d]);
    assert [d] == [d] + [] && [c, d] == [c] + [d] && [b, c, d] == [b] + [c, d] && [a, b, c, d] == [a] + [b, c, d];
  }

  lemma {:induction false} WordCons(b: byte, rest: seq<byte>)
    ensures Word([b] + rest) == b + 256 * Word(rest)
  {
    Head(b, rest);
  }

  /** The `k` low bytes of `v`, least significant first. */
  function LittleEndian(v: nat, k: nat): (bytes: seq<byte>)
    ensures |bytes| == k
  {
    if k == 0 then [] else [v % 256] + LittleEndian(v / 256, k - 1)
  }

  lemma {:induction false} WordRoundTrip(v: nat, k: nat)
    requires v < Pow(256, k)
    ensures Word(LittleEndian(v, k)) == v
  {
    if k > 0 {
      WordRoundTrip(v / 256, k - 1);
    }
  }

  lemma {:induction false} WordBound(bytes: seq<byte>)
    ensures Word(bytes) < Pow(256, |bytes|)
  {
    if bytes != [] {
      WordBound(bytes[1..]);
    }
  }
}
