/** The packet object: parser and builder over one growing buffer. */
module GdbPackets {
  import opened Text
  import opened Hex
  import opened Packet

  class GdbPacket {
    var data: string
    var state: Phase
    var csum: byte

    function Value(): Packet
      reads this
    {
      Packet(data, state, csum)
    }

    constructor ()
      ensures Value() == FRESH
    {
      data, state, csum := "", Invalid, 0;
    }

    /** A packet begun with the start byte of its kind; control packets are complete at once. */
    constructor Of(kind: Kind)
      ensures Valid(Value()) && KindOf(Value()) == kind
      ensures state == match kind case Unknown => Invalid case Dat => Data case _ => Complete
      ensures kind == Dat ==> Value() == OPEN
    {
      data, state, csum := "", Invalid, 0;
      new;
      var c := match kind
        case Ack => "+" case Nak => "-" case Break => [BREAK] case Dat => "$" case Unknown => "";
      if c != "" {
        var n := Parse(c);
        FeedFirst(FRESH, c);
        assert c[1..] == "";
      }
    }

    /** Reads bytes until the packet is complete or the bytes are used up. */
    method Parse(bytes: string) returns (consumed: nat)
      requires Valid(Value())
      requires state == Invalid ==> bytes != ""
      modifies this
      ensures Valid(Value())
      ensures (Value(), consumed) == Feed(old(Value()), bytes)
    {
      ghost var goal := Ahead(Value(), bytes, 0);
      AheadStart(Value(), bytes);
      if state == Complete {
        return 0;
      }
      var i := 0;
      if state == Invalid {
        if !IsStart(bytes[0]) {
          return 0;
        }
        AheadStep(Value(), bytes, 0);
        ParseStart(bytes[0]);
        i := 1;
        if state == Complete {
          AheadDone(Value(), bytes, 1);
          return 1;
        }
      }
      while i < |bytes|
        invariant 0 <= i <= |bytes|
        invariant Valid(Value()) && state != Invalid && state != Complete
        invariant goal == Ahead(Value(), bytes, i)
      {
        AheadStep(Value(), bytes, i);
        ParseByte(bytes[i]);
        i := i + 1;
        if state == Complete {
          AheadDone(Value(), bytes, i);
          return i;
        }
      }
      AheadDone(Value(), bytes, i);
      return i;
    }

    /** What the whole call comes to when `i` bytes have led to `p`. */
    ghost function Ahead(p: Packet, bytes: string, i: nat): (Packet, nat)
      requires Valid(p) && i <= |bytes|
    {
      (Feed(p, bytes[i..]).0, i + Feed(p, bytes[i..]).1)
    }

    lemma {:induction false} AheadStart(p: Packet, bytes: string)
      requires Valid(p)
      ensures Ahead(p, bytes, 0) == Feed(p, bytes)
    {
      assert bytes[0..] == bytes;
    }

    lemma {:induction false} AheadStep(p: Packet, bytes: string, i: nat)
      requires Valid(p) && i < |bytes| && Accepts(p, bytes[i])
      ensures Valid(Step(p, bytes[i])) && Ahead(p, bytes, i) == Ahead(Step(p, bytes[i]), bytes, i + 1)
    {
      FeedFirst(p, bytes[i..]);
      assert bytes[i..][1..] == bytes[i + 1..];
    }

    lemma {:induction false} AheadDone(p: Packet, bytes: string, i: nat)
      requires Valid(p) && i <= |bytes| && (p.phase == Complete || i == |bytes|)
      ensures Ahead(p, bytes, i) == (p, i)
    {
    }

    /** The start byte; control packets follow without data. */
    method ParseStart(c: char)
      requires Valid(Value()) && state == Invalid && IsStart(c)
      modifies this
      ensures Value() == Step(old(Value()), c) && Valid(Value())
    {
      StepValid(Value(), c);
      state := Data;
      data := data + [c];
      if data[0] != '$' {
        state := Complete;
      }
    }

    /** The body of the loop in `Parse`: one byte inside a packet. */
    method ParseByte(ch: char)
      requires Valid(Value()) && state != Invalid && state != Complete
      modifies this
      ensures Value() == Step(old(Value()), ch) && Valid(Value())
    {
      StepValid(Value(), ch);
      data := data + [ch];
      match state {
        case Data =>
          if ch == '#' {
            state := Crc;
          } else {
            csum := (csum + ch as int) % 256;
            if ch == '*' {
              state := RunLength;
              data := data[..|data| - 1];
            }
          }
        case RunLength =>
          csum := (csum + ch as int) % 256;
          data := data[..|data| - 1];
          var count := Repeats(ch);
          var prev := data[|data| - 1];
          ghost var kept, done := data, 0;
          while count > 0
            invariant done + count == Repeats(ch)
            invariant data == kept + Repeat(prev, done)
            invariant csum == AddSum(old(csum), ch)
          {
            data := data + [prev];
            count, done := count - 1, done + 1;
          }
          state := Data;
        case Crc =>
          if data[|data| - 2 - 1] == '#' {
            state := Complete;
          }
        case _ => assert false;
      }
    }

    /** Closes an open data packet with `#` and the checksum. */
    method Finalize() returns (ok: bool)
      requires Valid(Value())
      modifies this
      ensures Value() == Finalized(old(Value()))
      ensures ok <==> old(KindOf(Value()) == Dat && state == Data)
      ensures ok ==> state == Complete && KindOf(Value()) == Dat && CrcOf(Value()) == csum
      ensures Valid(Value())
    {
      if KindOf(Value()) != Dat {
        return false;
      }
      if state != Data {
        return false;
      }
      var buf := ['#', ToHex(csum / 16), ToHex(csum % 16)];
      FeedClose(Value(), buf[1], buf[2], "");
      assert buf == ['#', buf[1], buf[2]] + "" && buf == "#" + HexOfByte(csum);
      HexOfByteValue(csum);
      var n := Parse(buf);
      return n == |buf|;
    }

    method Reset()
      modifies this
      ensures Value() == FRESH
    {
      data, state, csum := "", Invalid, 0;
    }
  }

  /** One more piece of plain text for a packet that holds `text`. */
  method ParseMore(pkt: GdbPacket, ghost text: string, piece: string)
    requires pkt.Value() == Feed(OPEN, text).0 && pkt.state == Data && Plain(piece)
    modifies pkt
    ensures pkt.Value() == Feed(OPEN, text + piece).0 && pkt.state == Data
  {
    FeedMore(text, piece);
    var n := pkt.Parse(piece);
  }
}
