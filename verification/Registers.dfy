/** The register block: a task's saved context laid out as the reply to a register read. */
module Registers {
  import opened Text
  import opened Hex
  import opened Packet
  import opened GdbPackets
  import opened Memories

  /** Where a register comes from: the saved context, nowhere (zero), the stack pointer, or it is
      not available. */
  datatype Place = Stacked(offset: nat) | Unused | StackPointer | Unavailable

  datatype Slot = Slot(place: Place, widthBits: nat)

  const CONTEXT_SIZE_NON_FPU: u64 := 132
  const REG_SIZE := 32

  /** MicroBlaze registers in GDB's numbering, without FPU: r0, r1 (stack pointer), r2 to r31, pc,
      msr, and registers that are not saved. */
  function MicroBlazePlace(i: nat): Place {
    if i == 0 then Unused
    else if i == 1 then StackPointer
    else if i < 32 then Stacked(128 - 4 * i)
    else if i == 32 then Stacked(72)
    else if i == 33 then Stacked(128)
    else Unavailable
  }

  const MICROBLAZE_NUM_REGS := 59
  function MicroBlaze(): (t: seq<Slot>)
    ensures |t| == 59
  {
    seq(59, i requires 0 <= i < 59 => Slot(MicroBlazePlace(i), REG_SIZE))
  }

  function Bytes(slot: Slot): nat {
    slot.widthBits / 8
  }

  /** Every register lies inside the context; a stack pointer has at most the four bytes kept. */
  predicate Fitting(table: seq<Slot>, context: nat) {
    forall i :: 0 <= i < |table| ==>
      match table[i].place
      case Stacked(offset) => offset + Bytes(table[i]) <= context
      case StackPointer => Bytes(table[i]) <= 4
      case _ => true
  }

  /** The stack pointer of the task once its context is popped (the stack grows down). */
  function PoppedPointer(address: u64, context: u64): u64 {
    Add64(address, context)
  }

  /** The context bytes of a reply: as many as the text has pairs, zero where decoding stopped. */
  function ContextBytes(data: string): (r: seq<byte>)
    ensures |r| == |data| / 2
  {
    var bytes := BytesOf(data, |data| / 2);
    bytes + seq(|data| / 2 - |bytes|, _ => 0)
  }

  /** The text of byte `j` of a register. */
  function ByteText(place: Place, j: nat, bin: seq<byte>, sp: seq<byte>): string
    requires match place
             case Stacked(offset) => offset + j < |bin|
             case StackPointer => j < |sp|
             case _ => true
  {
    match place
    case Unused => HexOfByte(0)
    case Unavailable => "xx"
    case StackPointer => HexOfByte(sp[j])
    case Stacked(offset) => HexOfByte(bin[offset + j])
  }

  predicate InContext(slot: Slot, bin: seq<byte>, sp: seq<byte>) {
    match slot.place
    case Stacked(offset) => offset + Bytes(slot) <= |bin|
    case StackPointer => Bytes(slot) <= |sp|
    case _ => true
  }

  predicate AllInContext(table: seq<Slot>, bin: seq<byte>, sp: seq<byte>) {
    forall i :: 0 <= i < |table| ==> InContext(table[i], bin, sp)
  }

  /** What a register stands for as bytes, where it has any. */
  function ValueOf(slot: Slot, bin: seq<byte>, sp: seq<byte>): seq<byte>
    requires InContext(slot, bin, sp) && !slot.place.Unavailable?
  {
    match slot.place
    case Unused => seq(Bytes(slot), _ => 0)
    case StackPointer => sp[..Bytes(slot)]
    case Stacked(offset) => bin[offset..offset + Bytes(slot)]
  }

  /** The field of one register in the reply. */
  function Field(slot: Slot, bin: seq<byte>, sp: seq<byte>): (s: string)
    requires InContext(slot, bin, sp)
    ensures |s| == 2 * Bytes(slot)
  {
    if slot.place.Unavailable? then Repeat('x', 2 * Bytes(slot)) else HexOf(ValueOf(slot, bin, sp))
  }

  function Payload(table: seq<Slot>, bin: seq<byte>, sp: seq<byte>): string
    requires AllInContext(table, bin, sp)
  {
    if table == [] then "" else Field(table[0], bin, sp) + Payload(table[1..], bin, sp)
  }

  lemma {:induction false} PayloadSnoc(table: seq<Slot>, slot: Slot, bin: seq<byte>, sp: seq<byte>)
    requires AllInContext(table + [slot], bin, sp) && AllInContext(table, bin, sp) && InContext(slot, bin, sp)
    ensures Payload(table + [slot], bin, sp) == Payload(table, bin, sp) + Field(slot, bin, sp)
    decreases |table|
  {
    if table == [] {
      assert table + [slot] == [slot];
      assert [slot][1..] == [];
      Empty(Field(slot, bin, sp));
    } else {
      TailOfSum(table, [slot]);
      PayloadSnoc(table[1..], slot, bin, sp);
      Assoc(Field(table[0], bin, sp), Payload(table[1..], bin, sp), Field(slot, bin, sp));
    }
  }

  lemma {:induction false} PayloadPlain(table: seq<Slot>, bin: seq<byte>, sp: seq<byte>)
    requires AllInContext(table, bin, sp)
    ensures Plain(Payload(table, bin, sp))
    decreases |table|
  {
    if table != [] {
      var slot := table[0];
      if !slot.place.Unavailable? {
        HexOfLower(ValueOf(slot, bin, sp));
        LowerHexIsPlain(HexOf(ValueOf(slot, bin, sp)));
      }
      PayloadPlain(table[1..], bin, sp);
    }
  }

  /** Where the field of register `i` begins. */
  function Start(table: seq<Slot>, i: nat): nat
    requires i <= |table|
  {
    if i == 0 then 0 else Start(table, i - 1) + 2 * Bytes(table[i - 1])
  }

  lemma {:induction false} StartOfRest(table: seq<Slot>, i: nat)
    requires 0 < i <= |table|
    ensures Start(table, i) == 2 * Bytes(table[0]) + Start(table[1..], i - 1)
  {
    if i > 1 {
      StartOfRest(table, i - 1);
    }
  }

  /** The reply has exactly the field of each register, in table order. */
  lemma {:induction false} FieldAt(table: seq<Slot>, bin: seq<byte>, sp: seq<byte>, i: nat)
    requires AllInContext(table, bin, sp) && i < |table|
    ensures Start(table, i) + 2 * Bytes(table[i]) <= |Payload(table, bin, sp)|
    ensures Payload(table, bin, sp)[Start(table, i)..][..2 * Bytes(table[i])] == Field(table[i], bin, sp)
    decreases i
  {
    PayloadFirst(table, bin, sp);
    var first, rest := Field(table[0], bin, sp), Payload(table[1..], bin, sp);
    if i == 0 {
      Parts(first, rest);
      DropSum("", first + rest, 0);
      Empty(first + rest);
    } else {
      FieldAt(table[1..], bin, sp, i - 1);
      StartOfRest(table, i);
      DropSum(first, rest, Start(table[1..], i - 1));
    }
  }

  lemma PayloadFirst(table: seq<Slot>, bin: seq<byte>, sp: seq<byte>)
    requires AllInContext(table, bin, sp) && table != []
    ensures AllInContext(table[1..], bin, sp)
    ensures Payload(table, bin, sp) == Field(table[0], bin, sp) + Payload(table[1..], bin, sp)
  {
  }

  /** Every field with a value decodes to it; the others are `x` throughout. */
  lemma {:induction false} FieldDecodes(slot: Slot, bin: seq<byte>, sp: seq<byte>)
    requires InContext(slot, bin, sp)
    ensures if slot.place.Unavailable? then forall c :: c in Field(slot, bin, sp) ==> c == 'x'
            else BytesOf(Field(slot, bin, sp), Bytes(slot)) == ValueOf(slot, bin, sp)
  {
    if !slot.place.Unavailable? {
      HexRoundTrip(ValueOf(slot, bin, sp), Bytes(slot));
    }
  }

  /** The MicroBlaze table: 59 fields of eight characters, all inside the non-FPU context. */
  lemma {:induction false} MicroBlazeLayout(bin: seq<byte>, sp: seq<byte>)
    requires |bin| >= CONTEXT_SIZE_NON_FPU && |sp| == 4
    ensures |MicroBlaze()| == MICROBLAZE_NUM_REGS && Fitting(MicroBlaze(), CONTEXT_SIZE_NON_FPU)
    ensures AllInContext(MicroBlaze(), bin, sp)
    ensures |Payload(MicroBlaze(), bin, sp)| == 8 * MICROBLAZE_NUM_REGS
    ensures forall i :: 0 <= i < |MicroBlaze()| ==> Start(MicroBlaze(), i) == 8 * i
  {
    UniformPayload(MicroBlaze(), bin, sp);
    forall i | 0 <= i < |MicroBlaze()| ensures Start(MicroBlaze(), i) == 8 * i {
      UniformStart(MicroBlaze(), i);
    }
  }

  /** The reply payload for a context. */
  function BlockText(bin: seq<byte>, sp: seq<byte>): string
    requires |bin| >= CONTEXT_SIZE_NON_FPU && |sp| == 4
  {
    MicroBlazeInContext(bin, sp);
    Payload(MicroBlaze(), bin, sp)
  }

  lemma MicroBlazeInContext(bin: seq<byte>, sp: seq<byte>)
    requires |bin| >= CONTEXT_SIZE_NON_FPU && |sp| == 4
    ensures AllInContext(MicroBlaze(), bin, sp)
  {
  }

  /** The stack pointer field for a context saved at `address`. */
  function PoppedBytes(address: u64): (r: seq<byte>)
    ensures |r| == 4
  {
    LittleEndian(PoppedPointer(address, CONTEXT_SIZE_NON_FPU), 4)
  }

  lemma {:induction false} UniformPayload(table: seq<Slot>, bin: seq<byte>, sp: seq<byte>)
    requires AllInContext(table, bin, sp) && forall i :: 0 <= i < |table| ==> table[i].widthBits == REG_SIZE
    ensures |Payload(table, bin, sp)| == 8 * |table|
    decreases |table|
  {
    if table != [] {
      UniformPayload(table[1..], bin, sp);
    }
  }

  lemma {:induction false} UniformStart(table: seq<Slot>, i: nat)
    requires i <= |table| && forall i :: 0 <= i < |table| ==> table[i].widthBits == REG_SIZE
    ensures Start(table, i) == 8 * i
  {
    if i > 0 {
      UniformStart(table, i - 1);
    }
  }

  /** What the eight characters of a register say when its context is saved at `address`: a saved
      register shows the four bytes at its offset, r1 the address just behind the context. */
  predicate ShowsMemory(field: string, place: Place, mem: Memory, address: u64) {
    match place
    case Stacked(offset) => BytesOf(field, 4) == BytesAt(mem, address + offset, 4)
    case StackPointer => Word(BytesOf(field, 4)) == (address + CONTEXT_SIZE_NON_FPU) % 0x1_0000_0000
    case Unused => Word(BytesOf(field, 4)) == 0
    case Unavailable => field == "xxxxxxxx"
  }

  /** From target memory to the client: each register of a reply made from the context at `address`
      shows memory. Which task's context that is depends on the request; see `Contexts`. */
  lemma {:induction false} RegistersFromMemory(mem: Memory, address: u64, i: nat)
    requires i < MICROBLAZE_NUM_REGS
    ensures var bin := ContextBytes(HexOf(BytesAt(mem, address, CONTEXT_SIZE_NON_FPU)));
            var text := BlockText(bin, PoppedBytes(address));
            && |text| == 8 * MICROBLAZE_NUM_REGS
            && ShowsMemory(text[8 * i..][..8], MicroBlazePlace(i), mem, address)
  {
    var bin, sp := BytesAt(mem, address, CONTEXT_SIZE_NON_FPU), PoppedBytes(address);
    ContextFromMemory(mem, address);
    MicroBlazeLayout(bin, sp);
    FieldAt(MicroBlaze(), bin, sp, i);
    FieldShowsMemory(mem, address, MicroBlaze()[i]);
  }

  lemma {:induction false} ContextFromMemory(mem: Memory, address: u64)
    ensures ContextBytes(HexOf(BytesAt(mem, address, CONTEXT_SIZE_NON_FPU)))
            == BytesAt(mem, address, CONTEXT_SIZE_NON_FPU)
  {
    var bytes := BytesAt(mem, address, CONTEXT_SIZE_NON_FPU);
    HexRoundTrip(bytes, |bytes|);
    Empty(bytes);
  }

  lemma {:induction false} FieldShowsMemory(mem: Memory, address: u64, slot: Slot)
    requires slot.widthBits == REG_SIZE
    requires slot.place.Stacked? ==> slot.place.offset + 4 <= CONTEXT_SIZE_NON_FPU
    ensures var bin := BytesAt(mem, address, CONTEXT_SIZE_NON_FPU);
            && InContext(slot, bin, PoppedBytes(address))
            && ShowsMemory(Field(slot, bin, PoppedBytes(address)), slot.place, mem, address)
  {
    var bin, sp := BytesAt(mem, address, CONTEXT_SIZE_NON_FPU), PoppedBytes(address);
    FieldDecodes(slot, bin, sp);
    match slot.place {
      case Stacked(offset) => SliceOfMemory(mem, address, offset);
      case StackPointer =>
        LowWord(PoppedPointer(address, CONTEXT_SIZE_NON_FPU));
        LowOfPopped(address);
        assert sp[..4] == sp;
      case Unused => ZeroWord(4);
      case Unavailable =>
    }
  }

  lemma SliceOfMemory(mem: Memory, address: u64, offset: nat)
    requires offset + 4 <= CONTEXT_SIZE_NON_FPU
    ensures BytesAt(mem, address, CONTEXT_SIZE_NON_FPU)[offset..offset + 4] == BytesAt(mem, address + offset, 4)
  {
  }

  lemma LowOfPopped(address: u64)
    ensures PoppedPointer(address, CONTEXT_SIZE_NON_FPU) % 0x1_0000_0000
            == (address + CONTEXT_SIZE_NON_FPU) % 0x1_0000_0000
  {
  }

  lemma {:induction false} ZeroWord(n: nat)
    ensures Word(seq(n, _ => 0)) == 0
  {
    if n > 0 {
      assert seq(n, _ => 0)[1..] == seq(n - 1, _ => 0);
      ZeroWord(n - 1);
    }
  }

  lemma LowWord(v: nat)
    ensures Word(LittleEndian(v, 4)) == v % 0x1_0000_0000
  {
    var v1 := v / 256;
    var v2 := v1 / 256;
    var v3 := v2 / 256;
    LittleEndianCons(v, 4);
    LittleEndianCons(v1, 3);
    LittleEndianCons(v2, 2);
    LittleEndianCons(v3, 1);
    ModSplit(v3, 1);
    ModSplit(v2, 256);
    ModSplit(v1, 0x1_0000);
    ModSplit(v, 0x100_0000);
  }

  lemma ModSplit(v: nat, m: nat)
    requires m == 1 || m == 256 || m == 0x1_0000 || m == 0x100_0000
    ensures v % (256 * m) == v % 256 + 256 * (v / 256 % m)
  {
  }

  lemma LittleEndianCons(v: nat, k: nat)
    requires k > 0
    ensures Word(LittleEndian(v, k)) == v % 256 + 256 * Word(LittleEndian(v / 256, k - 1))
    ensures k == 1 ==> Word(LittleEndian(v, k)) == v % 256
  {
    Head(v % 256, LittleEndian(v / 256, k - 1));
  }

  // --------------------------------------------------------------- the loops

  /** Builds the reply byte by byte, each byte as two characters given to the packet. */
  method RegisterReply(table: seq<Slot>, context: u64, address: u64, bin: seq<byte>) returns (pkt: GdbPacket)
    requires Fitting(table, context) && context <= |bin|
    ensures fresh(pkt)
    ensures var sp := LittleEndian(PoppedPointer(address, context), 4);
            AllInContext(table, bin, sp) && pkt.Value() == Built(Payload(table, bin, sp))
  {
    var sp := LittleEndian(PoppedPointer(address, context), 4);
    assert AllInContext(table, bin, sp);
    pkt := new GdbPacket.Of(Dat);
    var i := 0;
    ghost var text := "";
    while i < |table|
      invariant 0 <= i <= |table|
      invariant AllInContext(table[..i], bin, sp) && text == Payload(table[..i], bin, sp)
      invariant fresh(pkt) && pkt.state == Data && pkt.Value() == Feed(OPEN, text).0
    {
      WriteRegister(pkt, text, table[i], bin, sp);
      text := text + Field(table[i], bin, sp);
      assert table[..i + 1] == table[..i] + [table[i]];
      PayloadSnoc(table[..i], table[i], bin, sp);
      i := i + 1;
    }
    assert table[..i] == table;
    var ok := pkt.Finalize();
  }

  /** The inner loop: one register, behind the text that the packet holds already. */
  method WriteRegister(pkt: GdbPacket, ghost before: string, slot: Slot, bin: seq<byte>, sp: seq<byte>)
    requires InContext(slot, bin, sp)
    requires pkt.state == Data && pkt.Value() == Feed(OPEN, before).0
    modifies pkt
    ensures pkt.state == Data && pkt.Value() == Feed(OPEN, before + Field(slot, bin, sp)).0
  {
    ghost var field, text := Field(slot, bin, sp), before;
    Empty(before);
    var j := 0;
    while j < Bytes(slot)
      invariant 0 <= j <= Bytes(slot) && text == before + field[..2 * j]
      invariant pkt.state == Data && pkt.Value() == Feed(OPEN, text).0
    {
      var buf := ByteText(slot.place, j, bin, sp);
      FieldByte(slot, j, bin, sp);
      PiecePlain(slot.place, j, bin, sp);
      ParseMore(pkt, text, buf);
      Assoc(before, field[..2 * j], buf);
      text := text + buf;
      j := j + 1;
    }
    assert field[..2 * j] == field;
  }

  lemma PiecePlain(place: Place, j: nat, bin: seq<byte>, sp: seq<byte>)
    requires match place
             case Stacked(offset) => offset + j < |bin|
             case StackPointer => j < |sp|
             case _ => true
    ensures |ByteText(place, j, bin, sp)| == 2 && Plain(ByteText(place, j, bin, sp))
  {
  }

  /** A field is the text of its bytes one after the other. */
  lemma {:induction false} FieldByte(slot: Slot, j: nat, bin: seq<byte>, sp: seq<byte>)
    requires InContext(slot, bin, sp) && j < Bytes(slot)
    ensures Field(slot, bin, sp)[..2 * (j + 1)]
            == Field(slot, bin, sp)[..2 * j] + ByteText(slot.place, j, bin, sp)
  {
    if !slot.place.Unavailable? {
      HexOfAt(ValueOf(slot, bin, sp), j);
    }
  }

  lemma {:induction false} HexOfAt(bytes: seq<byte>, j: nat)
    requires j < |bytes|
    ensures HexOf(bytes)[..2 * (j + 1)] == HexOf(bytes)[..2 * j] + HexOfByte(bytes[j])
    decreases j
  {
    var first, rest := HexOfByte(bytes[0]), HexOf(bytes[1..]);
    if j == 0 {
      assert (first + rest)[..2] == first;
    } else {
      HexOfAt(bytes[1..], j - 1);
      assert (first + rest)[..2 * (j + 1)] == first + rest[..2 * j];
      assert (first + rest)[..2 * j] == first + rest[..2 * (j - 1)];
      Assoc(first, rest[..2 * (j - 1)], HexOfByte(bytes[j]));
    }
  }
}
