/** Memory read requests, their replies, and a server that answers them. */
module Memories {
  import opened Text
  import opened Hex
  import opened Packet
  import opened GdbPackets

  function ReadText(address: u64, size: u64): (s: string)
    ensures Plain(s)
  {
    HexTextLower(address);
    HexTextLower(size);
    LowerHexIsPlain(HexText(address));
    LowerHexIsPlain(HexText(size));
    "m" + HexText(address) + "," + HexText(size)
  }

  /** A request as it is printed. */
  lemma {:induction false} ReadTextIs()
    ensures ReadText(0x1f3c, 4) == "m1f3c,4"
  {
    assert HexText(0x1f3c) == HexText(0x1f3) + "c" && HexText(0x1f3) == HexText(0x1f) + "3";
    assert HexText(0x1f) == HexText(1) + "f" && HexText(1) == "1" && HexText(4) == "4";
  }

  const BUFFER_SIZE := 19

  /** The request text leaves room for the NUL in the 19-byte buffer. */
  predicate Fits(address: u64, size: u64) {
    |HexText(address)| + |HexText(size)| <= 16
  }

  /** `parse`, which is given the length of the whole text, stays inside the buffer. */
  predicate InBuffer(address: u64, size: u64) {
    |HexText(address)| + |HexText(size)| <= 17
  }

  /** What `parse` reads: the text if it fits, and otherwise its beginning, as far as `snprintf` wrote
      it, and NULs. What lies behind the buffer is not known; see `InBuffer`. */
  function SentText(address: u64, size: u64): (s: string)
    ensures Plain(s)
  {
    var text := ReadText(address, size);
    if Fits(address, size) then text
    else text[..BUFFER_SIZE - 1] + Repeat('\0', |text| - (BUFFER_SIZE - 1))
  }

  function ReadRequest(address: u64, size: u64): (p: Packet)
    ensures Valid(p) && p.phase == Complete && KindOf(p) == Dat && DataOf(p) == SentText(address, size)
  {
    BuiltPlain(SentText(address, size));
    Built(SentText(address, size))
  }

  method MemoryReadReq(address: u64, size: u64) returns (pkt: GdbPacket)
    requires InBuffer(address, size)
    ensures fresh(pkt) && pkt.Value() == ReadRequest(address, size)
  {
    pkt := new GdbPacket.Of(Dat);
    var text := "m" + HexText(address) + "," + HexText(size);
    var buf := Printed(text);
    assert buf[..|text|] == SentText(address, size);
    var n := pkt.Parse(buf[..|text|]);
    var ok := pkt.Finalize();
  }

  /** `snprintf` into the zeroed buffer: at most 18 characters, and the rest stays NUL. */
  function Printed(text: string): (buf: string)
    ensures |buf| == BUFFER_SIZE
  {
    if |text| < BUFFER_SIZE then text + Repeat('\0', BUFFER_SIZE - |text|)
    else text[..BUFFER_SIZE - 1] + ['\0']
  }

  /** Exactly when a request fits: with a size of one digit, as all but one have, addresses below 2^60,
      and nothing behind the buffer is ever read; with two digits, addresses below 2^56, and the buffer
      is overrun from 2^60 on. */
  lemma {:induction false} RequestFits(address: u64, size: u64)
    ensures size < 16 ==> (Fits(address, size) <==> address < 0x1000_0000_0000_0000) && InBuffer(address, size)
    ensures 16 <= size < 256 ==>
      && (Fits(address, size) <==> address < 0x100_0000_0000_0000)
      && (InBuffer(address, size) <==> address < 0x1000_0000_0000_0000)
  {
    PowersOf16();
    HexTextLength(address, 14);
    HexTextLength(address, 15);
    HexTextLength(address, 16);
    HexTextLength(size, 1);
    HexTextLength(size, 2);
  }

  lemma PowersOf16()
    ensures Pow(16, 1) == 16 && Pow(16, 2) == 256
    ensures Pow(16, 14) == 0x100_0000_0000_0000 && Pow(16, 15) == 0x1000_0000_0000_0000 && Pow(16, 16) == TWO_64
  {
    assert Pow(16, 1) == 16 * Pow(16, 0);
    assert Pow(16, 2) == 16 * Pow(16, 1);
    assert Pow(16, 4) == 16 * 16 * Pow(16, 2);
    assert Pow(16, 6) == 16 * 16 * Pow(16, 4);
    assert Pow(16, 8) == 16 * 16 * Pow(16, 6);
    assert Pow(16, 10) == 16 * 16 * Pow(16, 8);
    assert Pow(16, 12) == 16 * 16 * Pow(16, 10);
    assert Pow(16, 14) == 16 * 16 * Pow(16, 12);
    assert Pow(16, 15) == 16 * Pow(16, 14);
    assert Pow(16, 16) == 16 * Pow(16, 15);
  }

  /** The unsigned word a memory reply carries: at most eight bytes, little end first. */
  function ReplyWord(data: string): (v: u64)
  {
    var bytes := BytesOf(data, 8);
    WordBelow(bytes);
    Word(bytes)
  }

  lemma WordBelow(bytes: seq<byte>)
    requires |bytes| <= 8
    ensures Word(bytes) < TWO_64
    ensures |bytes| <= 4 ==> Word(bytes) < 0x1_0000_0000
  {
    WordBound(bytes);
    PowersOf256();
  }

  lemma PowersOf256()
    ensures Pow(256, 4) == 0x1_0000_0000 && Pow(256, 8) == TWO_64
    ensures forall k: nat :: k <= 4 ==> Pow(256, k) <= Pow(256, 4)
    ensures forall k: nat :: k <= 8 ==> Pow(256, k) <= Pow(256, 8)
  {
    assert Pow(256, 0) == 1;
    assert Pow(256, 1) == 256 * Pow(256, 0);
    assert Pow(256, 2) == 256 * Pow(256, 1);
    assert Pow(256, 3) == 256 * Pow(256, 2);
    assert Pow(256, 4) == 256 * Pow(256, 3);
    assert Pow(256, 5) == 256 * Pow(256, 4);
    assert Pow(256, 6) == 256 * Pow(256, 5);
    assert Pow(256, 7) == 256 * Pow(256, 6);
    assert Pow(256, 8) == 256 * Pow(256, 7);
  }

  /** A word sent as its `k` low bytes in a finished packet is read back. */
  lemma {:induction false} WordThroughPacket(v: nat, k: nat)
    requires k <= 8 && v < Pow(256, k)
    ensures ReplyWord(DataOf(Built(HexOf(LittleEndian(v, k))))) == v
  {
    var bytes := LittleEndian(v, k);
    HexOfLower(bytes);
    LowerHexIsPlain(HexOf(bytes));
    BuiltPlain(HexOf(bytes));
    HexRoundTrip(bytes, 8);
    WordRoundTrip(v, k);
  }

  // ------------------------------------------------- a target's memory server

  /** The memory of a halted target, byte by byte. */
  type Memory = nat -> byte

  function BytesAt(mem: Memory, address: nat, size: nat): (r: seq<byte>)
    ensures |r| == size
  {
    seq(size, (i: nat) => mem(address + i))
  }

  /** One or more hexadecimal digits and nothing else. */
  predicate IsNumber(s: string) {
    s != "" && forall i :: 0 <= i < |s| ==> IsHex(s[i])
  }

  /** How a server reads `maddr,length`. */
  function DecodeRead(payload: string): Option<(nat, nat)> {
    if payload == "" || payload[0] != 'm' then None
    else
      var body := payload[1..];
      var a := Before(body, ',');
      if |a| == |body| || !IsNumber(a) || !IsNumber(body[|a| + 1..]) then None
      else Some((HexValue(a), HexValue(body[|a| + 1..])))
  }

  function Answer(mem: Memory, request: Packet): Packet
    requires Valid(request)
  {
    match DecodeRead(DataOf(request))
    case None => Built("E01")
    case Some((a, n)) => Built(HexOf(BytesAt(mem, a, n)))
  }

  /** A finished read request means exactly the address and size it was made from if its text fits the
      buffer, and nothing at all otherwise. */
  lemma {:induction false} RequestDecodes(address: u64, size: u64)
    ensures DecodeRead(DataOf(ReadRequest(address, size)))
            == if Fits(address, size) then Some((address, size)) else None
  {
    if Fits(address, size) {
      WholeDecodes(address, size);
    } else {
      var text := ReadText(address, size);
      assert SentText(address, size)[BUFFER_SIZE - 1] == '\0';
      CutDecodes(SentText(address, size), BUFFER_SIZE - 1);
    }
  }

  lemma {:induction false} WholeDecodes(address: u64, size: u64)
    ensures DecodeRead(ReadText(address, size)) == Some((address, size))
  {
    var a, n := HexText(address), HexText(size);
    var payload := ReadText(address, size);
    HexTextLower(address);
    HexTextLower(size);
    LowerHexIsPlain(a);
    assert payload[1..] == a + ("," + n);
    BeforeUnique(a, ',', "," + n);
    assert payload[1..][|a| + 1..] == n;
    HexTextValue(address);
    HexTextValue(size);
  }

  /** A NUL spoils a read request. */
  lemma {:induction false} CutDecodes(payload: string, k: nat)
    requires 0 < k < |payload| && payload[k] == '\0'
    ensures DecodeRead(payload) == None
  {
    var body := payload[1..];
    var a := Before(body, ',');
    BeforeMeaning(body, ',');
    assert body[k - 1] == '\0';
    if k - 1 < |a| {
      assert a[k - 1] == '\0';
    } else if |a| < k - 1 {
      assert body[|a| + 1..][k - 1 - |a| - 1] == '\0';
    }
  }

  /** Request, transport and reply together: the proxy gets the bytes it asked for if and only if the
      request fits; otherwise the server answers with an error. */
  lemma {:induction false} AnswerCarries(mem: Memory, address: u64, size: u64)
    ensures var r := Answer(mem, ReadRequest(address, size));
            && Valid(r) && r.phase == Complete && KindOf(r) == Dat
            && (DataOf(r) == HexOf(BytesAt(mem, address, size)) <==> Fits(address, size))
            && (!Fits(address, size) ==> DataOf(r) == "E01")
  {
    RequestDecodes(address, size);
    var bytes := BytesAt(mem, address, size);
    HexOfLower(bytes);
    LowerHexIsPlain(HexOf(bytes));
    BuiltPlain(HexOf(bytes));
    BuiltPlain("E01");
  }

  /** The 32-bit word in memory. */
  function WordAt(mem: Memory, address: nat): (v: u64)
    ensures v < 0x1_0000_0000
  {
    WordBelow(BytesAt(mem, address, 4));
    Word(BytesAt(mem, address, 4))
  }

  lemma {:induction false} AnswerWord(mem: Memory, address: u64)
    ensures ReplyWord(HexOf(BytesAt(mem, address, 4))) == WordAt(mem, address)
  {
    HexRoundTrip(BytesAt(mem, address, 4), 8);
  }
}
