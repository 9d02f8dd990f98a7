/** Symbol negotiation: the proxy asks the client for RTOS symbols, one after the other. */
module SymbolTable {
  import opened Text
  import opened Hex
  import opened Packet
  import opened ThreadIds
  import opened Walks

  const NAMES: seq<string> := [
    "_start", "pxCurrentTCB", "pxReadyTasksLists", "xDelayedTaskList1", "xDelayedTaskList2",
    "pxDelayedTaskList", "pxOverflowDelayedTaskList", "xPendingReadyList", "xTasksWaitingTermination",
    "xSuspendedTaskList", "uxCurrentNumberOfTasks", "uxTopUsedPriority", "xTopReadyPriority"]

  predicate Required(i: nat) {
    1 <= i <= 7 || i == SYM_TASKS_NUMBER
  }

  /** The flags and table that negotiation works on. */
  datatype Negotiation = Negotiation(processing: bool, current: nat, avail: bool, symbols: Symbols)

  const NO_SYMBOLS: Symbols := [0, 0, 0, 0, 0, 0, 0, 0, 0, 0, 0, 0, 0]
  const IDLE := Negotiation(false, 0, false, NO_SYMBOLS)

  /** `qSymbol::`: all over again. */
  const STARTED := Negotiation(true, 0, false, NO_SYMBOLS)

  predicate RequiredFound(s: Symbols) {
    forall i :: 0 <= i < SYM_COUNT && Required(i) ==> s[i] != 0
  }

  /** The address in an answer; a number too large for 64 bits counts as not found. */
  function Address(text: string): u64 {
    match Stoull(text) case None => 0 case Some(v) => v
  }

  /** The answer to the pending symbol. */
  function StoreAnswer(n: Negotiation, address: u64): Negotiation
    requires n.processing && n.current < SYM_COUNT
  {
    var symbols: Symbols := n.symbols[n.current := address];
    if n.current + 1 < SYM_COUNT then Negotiation(true, n.current + 1, n.avail, symbols)
    else Negotiation(false, n.current + 1, RequiredFound(symbols), symbols)
  }

  /** In every reachable state: while negotiating the index is in range, and the RTOS counts as
      available only after a negotiation that found every required symbol. */
  predicate Consistent(n: Negotiation) {
    && (n.processing ==> n.current < SYM_COUNT && !n.avail)
    && (n.avail ==> !n.processing && RequiredFound(n.symbols))
  }

  lemma StoreConsistent(n: Negotiation, address: u64)
    requires Consistent(n) && n.processing
    ensures Consistent(StoreAnswer(n, address)) && Consistent(STARTED) && Consistent(IDLE)
  {
  }

  function AnswerAll(n: Negotiation, answers: seq<u64>): Negotiation
    requires n.processing && n.current + |answers| <= SYM_COUNT
    decreases |answers|
  {
    if answers == [] then n
    else if |answers| == 1 then StoreAnswer(n, answers[0])
    else AnswerAll(StoreAnswer(n, answers[0]), answers[1..])
  }

  lemma {:induction false} AnswersStored(n: Negotiation, answers: seq<u64>)
    requires n.processing && answers != [] && n.current + |answers| <= SYM_COUNT
    ensures var r := AnswerAll(n, answers);
            && r.symbols == n.symbols[..n.current] + answers + n.symbols[n.current + |answers|..]
            && r.current == n.current + |answers|
            && (r.processing <==> r.current < SYM_COUNT)
            && (r.processing ==> r.avail == n.avail)
            && (!r.processing ==> r.avail == RequiredFound(r.symbols))
    decreases |answers|
  {
    if |answers| > 1 {
      var n' := StoreAnswer(n, answers[0]);
      AnswersStored(n', answers[1..]);
      assert n'.symbols[..n'.current] == n.symbols[..n.current] + [answers[0]];
      Assoc(n.symbols[..n.current], [answers[0]], answers[1..]);
      assert [answers[0]] + answers[1..] == answers;
    }
  }

  /** From a fresh start, negotiation goes on for fewer answers than symbols and ends with the last
      one: slot `i` holds answer `i`, and the RTOS is available exactly when no required symbol is
      missing. */
  lemma {:induction false} NegotiationEnds(answers: seq<u64>)
    requires 0 < |answers| <= SYM_COUNT
    ensures var r := AnswerAll(STARTED, answers);
            && r.symbols[..|answers|] == answers
            && (r.processing <==> |answers| < SYM_COUNT)
            && (r.processing ==> r.current == |answers| && !r.avail)
            && (!r.processing ==> r.symbols == answers && (r.avail <==> RequiredFound(answers)))
  {
    AnswersStored(STARTED, answers);
    Empty(answers);
    Parts(answers, NO_SYMBOLS[|answers|..]);
  }

  /** A name as bytes. */
  function Codes(s: string): (r: seq<byte>)
    ensures |r| == |s|
  {
    seq(|s|, i requires 0 <= i < |s| => s[i] as int % 256)
  }

  function SymbolRequest(i: nat): string
    requires i < SYM_COUNT
  {
    "qSymbol:" + HexOf(Codes(NAMES[i]))
  }

  lemma TextOfCodes(s: string)
    requires forall i :: 0 <= i < |s| ==> s[i] as int < 256
    ensures Chars(Codes(s)) == s
  {
  }

  /** Text sent as hexadecimal in a packet is decoded to the same text. */
  lemma {:induction false} TextThroughPacket(s: string)
    requires forall i :: 0 <= i < |s| ==> s[i] as int < 256
    ensures Chars(BytesOf(DataOf(Built(HexOf(Codes(s)))), |s|)) == s
  {
    HexOfLower(Codes(s));
    LowerHexIsPlain(HexOf(Codes(s)));
    BuiltPlain(HexOf(Codes(s)));
    HexRoundTrip(Codes(s), |s|);
    TextOfCodes(s);
  }

  lemma NamesAreAscii(i: nat)
    requires i < SYM_COUNT
    ensures forall k :: 0 <= k < |NAMES[i]| ==> NAMES[i][k] as int < 256
  {
  }

  /** The client decodes a symbol request to the symbol's name. */
  lemma {:induction false} SymbolRequestDecodes(i: nat)
    requires i < SYM_COUNT
    ensures var data := DataOf(Built(SymbolRequest(i)));
            "qSymbol:" <= data && Chars(BytesOf(data[8..], |NAMES[i]|)) == NAMES[i]
  {
    NamesAreAscii(i);
    HexOfLower(Codes(NAMES[i]));
    LowerHexIsPlain(HexOf(Codes(NAMES[i])));
    BuiltPlain(SymbolRequest(i));
    Parts("qSymbol:", HexOf(Codes(NAMES[i])));
    HexRoundTrip(Codes(NAMES[i]), |NAMES[i]|);
    TextOfCodes(NAMES[i]);
  }
}
