/** Symbol negotiation with a client that looks names up: which address ends up where. */
module SymbolNames {
  import opened Text
  import opened Hex
  import opened Packet
  import opened ThreadIds
  import opened Memories
  import opened Walks
  import opened SymbolTable
  import opened Kernels
  import opened TargetModel
  import opened Dialogues

  /** The name that a request asks for, as its reader decodes it. */
  function AskedName(request: string): string {
    if |request| < 8 then "" else Chars(BytesOf(request[8..], |request|))
  }

  /** The answer of a client that finds symbols with `find`: the address, and the name as it was asked. */
  function AnswerTo(find: string -> u64, request: string): string {
    "qSymbol:" + HexText(find(AskedName(request))) + ":" + if |request| < 8 then "" else request[8..]
  }

  lemma {:induction false} AskedNameIs(i: nat)
    requires i < 13
    ensures AskedName(DataOf(Built(SymbolRequest(i)))) == NAMES[i]
  {
    var codes := Codes(NAMES[i]);
    NamesAreAscii(i);
    HexOfLower(codes);
    LowerHexIsPlain(HexOf(codes));
    BuiltPlain(SymbolRequest(i));
    Parts("qSymbol:", HexOf(codes));
    HexRoundTrip(codes, |SymbolRequest(i)|);
    TextOfCodes(NAMES[i]);
  }

  /** The address in an answer is the hexadecimal number in front of the second colon. */
  lemma {:induction false} AnswerRead(v: u64, rest: string)
    ensures IsSymbolAnswer("qSymbol:" + HexText(v) + ":" + rest)
    ensures Address(("qSymbol:" + HexText(v) + ":" + rest)[8..]) == v
  {
    var front, tail := "qSymbol:", HexText(v) + (":" + rest);
    Assoc(front, HexText(v), ":");
    Assoc(front, HexText(v) + ":", rest);
    Assoc(HexText(v), ":", rest);
    assert front + HexText(v) + ":" + rest == front + tail;
    Parts(front, tail);
    HexTextLower(v);
    HexPrefixOf(HexText(v), ":" + rest);
    HexTextValue(v);
    assert tail[0] == HexText(v)[0] && "qSymbol::"[8] == ':';
  }

  /** An address that is no number, or too large for 64 bits, counts as not found. */
  lemma {:induction false} AddressNotFound(v: nat, rest: string)
    requires v >= TWO_64
    ensures Address(HexText(v) + (":" + rest)) == 0 && Address(":" + rest) == 0
  {
    HexTextLower(v);
    HexPrefixOf(HexText(v), ":" + rest);
    HexTextValue(v);
    HexPrefixOf("", ":" + rest);
    Empty(":" + rest);
  }

  /** The RTOS that a client's symbols lead to, name by name. */
  function KernelOf(find: string -> u64, mem: Memory): Kernel {
    Kernel(find("pxCurrentTCB"), find("uxCurrentNumberOfTasks"), find("pxReadyTasksLists"),
           find("xDelayedTaskList1"), find("xDelayedTaskList2"), find("xPendingReadyList"),
           find("xTasksWaitingTermination"), find("xSuspendedTaskList"),
           if find("uxTopUsedPriority") != 0 then WordAt(mem, find("uxTopUsedPriority"))
           else if find("xTopReadyPriority") != 0 then WordAt(mem, find("xTopReadyPriority"))
           else 8)
  }

  /** The symbols without which the proxy does not look for tasks. */
  predicate AllFound(find: string -> u64) {
    && find("pxCurrentTCB") != 0 && find("pxReadyTasksLists") != 0
    && find("xDelayedTaskList1") != 0 && find("xDelayedTaskList2") != 0
    && find("pxDelayedTaskList") != 0 && find("pxOverflowDelayedTaskList") != 0
    && find("xPendingReadyList") != 0 && find("uxCurrentNumberOfTasks") != 0
  }

  lemma {:induction false} NamesMeanSlots(s: Symbols, find: string -> u64, mem: Memory)
    requires forall i :: 0 <= i < 13 ==> s[i] == find(NAMES[i])
    ensures Describes(s, mem, KernelOf(find, mem))
    ensures RequiredFound(s) <==> AllFound(find)
  {
    assert s[1] == find("pxCurrentTCB") && s[2] == find("pxReadyTasksLists");
    assert s[3] == find("xDelayedTaskList1") && s[4] == find("xDelayedTaskList2");
    assert s[5] == find("pxDelayedTaskList") && s[6] == find("pxOverflowDelayedTaskList");
    assert s[7] == find("xPendingReadyList") && s[8] == find("xTasksWaitingTermination");
    assert s[9] == find("xSuspendedTaskList") && s[10] == find("uxCurrentNumberOfTasks");
    assert s[11] == find("uxTopUsedPriority") && s[12] == find("xTopReadyPriority");
    RequiredAre(s);
  }

  lemma {:induction false} RequiredAre(s: Symbols)
    ensures RequiredFound(s)
            <==> s[1] != 0 && s[2] != 0 && s[3] != 0 && s[4] != 0 && s[5] != 0 && s[6] != 0 && s[7] != 0 && s[10] != 0
  {
    assert Required(1) && Required(2) && Required(3) && Required(4) && Required(5) && Required(6) && Required(7);
    assert Required(10);
  }

  lemma {:induction false} AddressesAre(answers: seq<string>, i: nat)
    requires forall j :: 0 <= j < |answers| ==> IsSymbolAnswer(answers[j])
    requires i < |answers|
    ensures AddressesOf(answers)[i] == Address(answers[i][8..])
    decreases i
  {
    assert IsSymbolAnswer(answers[0]) && IsSymbolAnswer(answers[i]);
    if i > 0 {
      AddressesAre(answers[1..], i - 1);
    }
  }

  /** Every request answered by looking up the name in it. */
  predicate LookedUp(find: string -> u64, answers: seq<string>) {
    |answers| == 13 && forall i :: 0 <= i < 13 ==> answers[i] == AnswerTo(find, DataOf(Built(SymbolRequest(i))))
  }

  lemma {:induction false} LookedUpAnswers(find: string -> u64, answers: seq<string>)
    requires LookedUp(find, answers)
    ensures forall i :: 0 <= i < |answers| ==> IsSymbolAnswer(answers[i])
    ensures forall i :: 0 <= i < 13 ==> AddressesOf(answers)[i] == find(NAMES[i])
  {
    forall i | 0 <= i < 13
      ensures IsSymbolAnswer(answers[i]) && Address(answers[i][8..]) == find(NAMES[i])
    {
      AskedNameIs(i);
      AnswerRead(find(NAMES[i]), DataOf(Built(SymbolRequest(i)))[8..]);
    }
    forall i | 0 <= i < 13 ensures AddressesOf(answers)[i] == find(NAMES[i]) {
      AddressesAre(answers, i);
    }
  }

  /** The symbols after the answers to all requests. */
  function Negotiated(t: Target, answers: seq<string>): Negotiation
    requires Consistent(t.negotiation)
    requires forall i :: 0 <= i < |answers| ==> IsSymbolAnswer(answers[i])
  {
    SymbolQueryConsistent(t, "qSymbol::");
    AnswerSymbols(OnSymbolQuery(t, "qSymbol::").target, answers).0.negotiation
  }

  lemma {:induction false} NegotiatedSlots(t: Target, find: string -> u64, answers: seq<string>, mem: Memory)
    requires Consistent(t.negotiation) && |answers| == 13
    requires forall i :: 0 <= i < |answers| ==> IsSymbolAnswer(answers[i])
    requires forall i :: 0 <= i < 13 ==> AddressesOf(answers)[i] == find(NAMES[i])
    ensures Describes(Negotiated(t, answers).symbols, mem, KernelOf(find, mem))
    ensures Negotiated(t, answers).avail <==> AllFound(find)
  {
    SymbolsNegotiated(t, answers);
    NamesMeanSlots(AddressesOf(answers), find, mem);
  }

  /** A client that answers every request by looking up the name in it, whatever it finds: afterwards the walk
      reads the lists, the running task and the number of tasks at the addresses of these names, and the RTOS
      is available exactly if every name that is needed has an address. */
  lemma {:induction false} NegotiatedByName(t: Target, find: string -> u64, answers: seq<string>, mem: Memory)
    requires Consistent(t.negotiation) && LookedUp(find, answers)
    ensures forall i :: 0 <= i < |answers| ==> IsSymbolAnswer(answers[i])
    ensures Describes(Negotiated(t, answers).symbols, mem, KernelOf(find, mem))
    ensures Negotiated(t, answers).avail <==> AllFound(find)
  {
    LookedUpAnswers(find, answers);
    NegotiatedSlots(t, find, answers, mem);
  }
}
