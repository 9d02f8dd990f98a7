/** The register block against the context as the RTOS port saves it, slot by slot. */
module SavedContexts {
  import opened Text
  import opened Hex
  import opened Packet
  import opened Memories
  import opened Updates
  import opened Contexts
  import Registers

  /** Which register the port saves at which offset from the stack pointer. Register 33 is MSR; what is
      saved for r14 is where the task goes on, so it is the pc. */
  function SavedSlots(): seq<(nat, nat)> {
    [(31, 4), (30, 8), (29, 12), (28, 16), (27, 20), (26, 24), (25, 28), (24, 32), (23, 36), (22, 40),
     (21, 44), (20, 48), (19, 52), (18, 56), (17, 60), (16, 64), (15, 68), (14, 72), (13, 76), (12, 80),
     (11, 84), (10, 88), (9, 92), (8, 96), (7, 100), (6, 104), (5, 108), (4, 112), (3, 116), (2, 120),
     (33, 128)]
  }

  /** Memory at `sp` holds a context with these register values. */
  predicate HoldsContext(mem: Memory, sp: u64, value: nat -> nat) {
    forall j :: 0 <= j < |SavedSlots()| ==> WordAt(mem, sp + SavedSlots()[j].1) == value(SavedSlots()[j].0)
  }

  /** The eight characters of a register in the reply, and the number that they spell, little end first. */
  function FieldOf(text: string, k: nat): string
    requires 8 * k + 8 <= |text|
  {
    text[8 * k..][..8]
  }

  function ValueIn(text: string, k: nat): nat
    requires 8 * k + 8 <= |text|
  {
    Word(BytesOf(FieldOf(text, k), 4))
  }

  lemma {:induction false} SlotIs(j: nat)
    requires j < 31
    ensures |SavedSlots()| == 31
    ensures SavedSlots()[j] == if j < 30 then (31 - j, 4 * j + 4) else (33, 128)
  {
  }

  /** r2 to r31 and MSR are saved in words of their own, all inside the 132 bytes of the context; the word at
      124 holds no register. */
  lemma {:induction false} SlotsApart(i: nat, j: nat)
    requires i < j < |SavedSlots()|
    ensures SavedSlots()[i].0 != SavedSlots()[j].0 && SavedSlots()[i].1 + 4 <= SavedSlots()[j].1
    ensures 4 <= SavedSlots()[i].1 && SavedSlots()[j].1 + 4 <= 132 == Registers.CONTEXT_SIZE_NON_FPU
    ensures SavedSlots()[i].1 != 124 && SavedSlots()[j].1 != 124
    ensures 2 <= SavedSlots()[j].0 <= 33 && SavedSlots()[j].0 != 32
  {
    SlotIs(i);
    SlotIs(j);
  }

  lemma {:induction false} SavedAt(mem: Memory, sp: u64, value: nat -> nat, k: nat)
    requires HoldsContext(mem, sp, value) && (2 <= k < 32 || k == 33)
    ensures WordAt(mem, sp + if k == 33 then 128 else 128 - 4 * k) == value(k)
  {
    SlotIs(if k == 33 then 30 else 31 - k);
  }

  lemma {:induction false} StackedField(mem: Memory, sp: u64, k: nat, offset: nat)
    requires k < 59 && Registers.MicroBlazePlace(k) == Registers.Stacked(offset)
    ensures |DataOf(ContextReply(mem, sp))| == 472
    ensures ValueIn(DataOf(ContextReply(mem, sp)), k) == WordAt(mem, sp + offset)
  {
    ReplyShows(mem, sp, k);
  }

  lemma {:induction false} TextField(mem: Memory, sp: u64, k: nat)
    requires k < 59
    ensures |DataOf(ContextReply(mem, sp))| == 472
    ensures FieldOf(DataOf(ContextReply(mem, sp)), k) == "xxxxxxxx" <==> k >= 34
  {
    ReplyShows(mem, sp, k);
    if k < 34 {
      DigitsField(mem, sp, k);
    }
  }

  lemma {:induction false} DigitsField(mem: Memory, sp: u64, k: nat)
    requires k < 34
    ensures |DataOf(ContextReply(mem, sp))| == 472
    ensures AllLowerHex(FieldOf(DataOf(ContextReply(mem, sp)), k))
  {
    var bin, sptr := BytesAt(mem, sp, 132), Registers.PoppedBytes(sp);
    ReplyIsBlock(mem, sp);
    BlockField(bin, sptr, k);
    HexOfLower(Registers.ValueOf(Registers.MicroBlaze()[k], bin, sptr));
  }

  lemma {:induction false} BlockField(bin: seq<byte>, sptr: seq<byte>, k: nat)
    requires k < 59 && |bin| == 132 && |sptr| == 4
    ensures |Registers.BlockText(bin, sptr)| == 472
    ensures Registers.InContext(Registers.MicroBlaze()[k], bin, sptr)
    ensures FieldOf(Registers.BlockText(bin, sptr), k) == Registers.Field(Registers.MicroBlaze()[k], bin, sptr)
  {
    var table := Registers.MicroBlaze();
    Registers.MicroBlazeLayout(bin, sptr);
    Registers.FieldAt(table, bin, sptr, k);
    Registers.UniformStart(table, k);
  }

  lemma {:induction false} ReplyIsBlock(mem: Memory, sp: u64)
    ensures DataOf(ContextReply(mem, sp))
            == Registers.BlockText(BytesAt(mem, sp, 132), Registers.PoppedBytes(sp))
  {
    var bin, sptr := BytesAt(mem, sp, 132), Registers.PoppedBytes(sp);
    Registers.ContextFromMemory(mem, sp);
    Registers.MicroBlazeInContext(bin, sptr);
    Registers.PayloadPlain(Registers.MicroBlaze(), bin, sptr);
    BuiltPlain(Registers.BlockText(bin, sptr));
  }

  lemma {:induction false} SavedRegister(mem: Memory, sp: u64, value: nat -> nat, k: nat)
    requires HoldsContext(mem, sp, value) && (2 <= k < 32 || k == 33)
    ensures |DataOf(ContextReply(mem, sp))| == 472 && ValueIn(DataOf(ContextReply(mem, sp)), k) == value(k)
  {
    SavedAt(mem, sp, value, k);
    PlaceOf(k);
    StackedField(mem, sp, k, if k == 33 then 128 else 128 - 4 * k);
  }

  lemma {:induction false} PlaceOf(k: nat)
    requires 2 <= k < 32 || k == 33
    ensures Registers.MicroBlazePlace(k) == Registers.Stacked(if k == 33 then 128 else 128 - 4 * k)
  {
  }

  lemma {:induction false} SavedPc(mem: Memory, sp: u64, value: nat -> nat)
    requires HoldsContext(mem, sp, value)
    ensures |DataOf(ContextReply(mem, sp))| == 472 && ValueIn(DataOf(ContextReply(mem, sp)), 32) == value(14)
  {
    SavedAt(mem, sp, value, 14);
    StackedField(mem, sp, 32, 72);
  }

  lemma {:induction false} UnsavedFields(mem: Memory, sp: u64)
    ensures var text := DataOf(ContextReply(mem, sp));
            |text| == 472 && ValueIn(text, 0) == 0 && ValueIn(text, 1) == (sp + 132) % 0x1_0000_0000
  {
    ReplyShows(mem, sp, 0);
    ReplyShows(mem, sp, 1);
  }

  /** What the reply `text` shows of a context at `sp`. */
  ghost predicate ShowsContext(text: string, sp: u64, value: nat -> nat) {
    && |text| == 8 * 59
    && (forall k :: 2 <= k < 32 || k == 33 ==> ValueIn(text, k) == value(k))
    && ValueIn(text, 32) == value(14)
    && ValueIn(text, 0) == 0
    && ValueIn(text, 1) == (sp + 132) % 0x1_0000_0000
    && (forall k :: 0 <= k < 59 ==> (FieldOf(text, k) == "xxxxxxxx" <==> 34 <= k))
  }

  /** The client reads each register of a saved task in its own place in the reply: r2 to r31 and MSR as
      saved, the pc from the slot of r14, r0 zero, r1 the address behind the 132 bytes of the context, and
      exactly the other 25 fields as `x`. */
  lemma {:induction false} RegistersOfSavedContext(mem: Memory, sp: u64, value: nat -> nat)
    requires HoldsContext(mem, sp, value)
    ensures ShowsContext(DataOf(ContextReply(mem, sp)), sp, value)
  {
    var text := DataOf(ContextReply(mem, sp));
    UnsavedFields(mem, sp);
    SavedPc(mem, sp, value);
    forall k | 2 <= k < 32 || k == 33 ensures ValueIn(text, k) == value(k) {
      SavedRegister(mem, sp, value, k);
    }
    forall k | 0 <= k < 59 ensures FieldOf(text, k) == "xxxxxxxx" <==> 34 <= k {
      TextField(mem, sp, k);
    }
  }

  /** So a `g` about a task whose saved stack pointer is `sp` ends with these registers (`RegistersShown`). */
  lemma {:induction false} RegistersAnswered(st: Status, address: u64, mem: Memory, value: nat -> nat)
    requires address < 0x1000_0000_0000_0000 && HoldsContext(mem, WordAt(mem, address), value)
    ensures var sent := ContextSent(st, address, mem).sent;
            && |sent| == |st.sent| + 1 && Valid(sent[|st.sent|])
            && ShowsContext(DataOf(sent[|st.sent|]), WordAt(mem, address), value)
  {
    RequestFits(address, 4);
    RegistersOfSavedContext(mem, WordAt(mem, address), value);
  }
}
