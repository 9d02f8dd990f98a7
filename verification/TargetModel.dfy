/** The FreeRTOS target: what each request from the client and each reply from the debug server does
    to its state, and what it sends. */
module TargetModel {
  import opened Text
  import opened Hex
  import opened Packet
  import opened ThreadIds
  import opened Memories
  import opened Walks
  import Registers
  import opened StopReplies
  import opened SymbolTable
  import opened Connections

  datatype Target = Target(
    multiprocess: bool,
    negotiation: Negotiation,
    /** The thread table, the walk that fills it, and the id map. */
    walk: Walk,
    /** The thread selected by the client. */
    selected: ThreadId,
    stopReply: Packet,
    stackPtr: u64)

  /** What the target sends while it handles one packet. */
  datatype Output = ToTarget(t: Transfer) | ToClient(pkt: Packet)

  /** The effect of one packet; a request that is not handled is forwarded as it is. */
  datatype Effect = Effect(target: Target, outputs: seq<Output>, handled: bool)

  function Setting(t: Target): Setup {
    Setup(t.negotiation.symbols, t.multiprocess)
  }

  const NEW_TARGET := Target(
    false, IDLE,
    NO_WALK.(count := 1, currentTcb := 1, currentId := MakeThreadId(false, 1), info := [CurrentExecution(false)]),
    MakeThreadId(false, 1), FRESH, 0)

  function Current(t: Target): ThreadId {
    MakeThreadId(t.multiprocess, CURRENT_EXECUTION)
  }

  // ------------------------------------------------------------------ helpers

  predicate StartsAt(s: string, i: nat, prefix: string) {
    i <= |s| && prefix <= s[i..]
  }

  predicate Contains(s: string, sub: string) {
    exists i {:trigger s[i..]} :: 0 <= i <= |s| && sub <= s[i..]
  }

  function ReadTransfer(r: Read): Transfer {
    Transfer(ReadRequest(r.address, r.size), true, r.next)
  }

  function Handle(t: Target, text: string): Effect {
    Effect(t, [ToClient(Built(text))], true)
  }

  function Forward(t: Target): Effect {
    Effect(t, [], false)
  }

  // ------------------------------------------------------------ thread updates

  /** The stop reply, rewritten and sent on; this ends every update. */
  function FinishStop(t: Target): Effect
    requires Valid(t.stopReply) && |DataOf(t.stopReply)| >= 3
  {
    Effect(t.(stopReply := FRESH),
           [ToClient(Built(Rewritten(DataOf(t.stopReply), Label(t.selected))))], true)
  }

  predicate HasStopReply(t: Target) {
    Valid(t.stopReply) && |DataOf(t.stopReply)| >= 3
  }

  /** Asks for the next read of the walk, or ends the update. */
  function Continue(t: Target, o: Outcome): Effect
    requires HasStopReply(t)
  {
    match o
    case Ask(w, read) => Effect(t.(walk := w), [ToTarget(ReadTransfer(read))], true)
    case Finished(w) => FinishStop(t.(walk := w))
  }

  function UpdateThreads(t: Target): Effect
    requires HasStopReply(t)
  {
    if !t.negotiation.avail then FinishStop(t) else Continue(t, Begin(Setting(t), t.walk.ids))
  }

  // ----------------------------------------------------------------- replies

  /** The read that a pending continuation belongs to; only the continuation matters for its reply. */
  function Pending(t: Target, next: Continuation): Outcome {
    Outcome.Ask(t.walk, Read(0, 0, next))
  }

  predicate IsStopReply(reply: Packet) {
    |DataOf'(reply)| >= 3 && DataOf'(reply)[0] == 'T'
  }

  /** The payload of any packet value. */
  function DataOf'(p: Packet): string {
    if Valid(p) then DataOf(p) else ""
  }

  /** When the callback `next` can take `reply`: stop replies are of the `T` kind, the register
      block is complete, and a walk is in order. */
  predicate Acceptable(t: Target, next: Continuation, reply: Packet) {
    Valid(reply) && match next
      case StopReply => IsStopReply(reply)
      case Registers(_) => |DataOf(reply)| / 2 >= Registers.CONTEXT_SIZE_NON_FPU
      case _ => IsWalk(next) ==> Ready(Pending(t, next)) && HasStopReply(t)
  }

  function RegistersReply(address: u64, data: string): Packet
    requires |data| / 2 >= Registers.CONTEXT_SIZE_NON_FPU
  {
    Built(Registers.BlockText(Registers.ContextBytes(data), Registers.PoppedBytes(address)))
  }

  /** The callback of a request, given the response. */
  function Callback(t: Target, next: Continuation, reply: Packet): Effect
    requires Acceptable(t, next, reply)
  {
    if IsWalk(next) then Continue(t, OnReply(Setting(t), Pending(t, next), DataOf(reply)))
    else match next
    case SupportedReply =>
      Effect(if Contains(DataOf(reply), ";multiprocess+") then t.(multiprocess := true) else t, [], true)
    case StopReply => UpdateThreads(t.(stopReply := reply))
    case StackPtr =>
      var sp := ReplyWord(DataOf(reply));
      Effect(t.(stackPtr := sp),
             [ToTarget(ReadTransfer(Read(sp, Registers.CONTEXT_SIZE_NON_FPU, Walks.Registers(sp))))], true)
    case Registers(address) => Effect(t, [ToClient(RegistersReply(address, DataOf(reply)))], true)
    case _ => Effect(t, [], true)
  }

  // ---------------------------------------------------------------- requests

  function OnStopRequest(t: Target, pkt: Packet): Effect {
    Effect(t, [ToTarget(Transfer(pkt, true, StopReply))], true)
  }

  /** The address used for a selected thread: its id, as unsigned 64 bits. */
  function SelectedTcb(t: Target): u64 {
    t.selected.tid % TWO_64
  }

  function OnRegisterRead(t: Target): Effect {
    if Equal(t.selected, Current(t)) || !t.negotiation.avail || Equal(t.selected, t.walk.currentId)
       || SelectedTcb(t) <= CURRENT_EXECUTION
    then Forward(t)
    else Effect(t, [ToTarget(ReadTransfer(Read(SelectedTcb(t), POINTER_SIZE, StackPtr)))], true)
  }

  predicate Alive(t: Target, id: ThreadId) {
    t.walk.count != 0 && exists i :: 0 <= i < |t.walk.info| && Equal(t.walk.info[i].id, id) && t.walk.info[i].exists_
  }

  function OnThreadAlive(t: Target, data: string): Effect
    requires data != ""
  {
    var id := Parse(data[1..]);
    if !t.negotiation.avail || Equal(id, Current(t)) then Forward(t)
    else Handle(t, if Alive(t, id) then "OK" else "E01")
  }

  function OnSelectThread(t: Target, data: string): Effect
    requires |data| >= 2
  {
    var id := Parse(data[2..]);
    var t' := t.(selected := id);
    if Equal(id, Current(t)) || !t.negotiation.avail then Forward(t') else Handle(t', "OK")
  }

  /** Requests that resume the target, or ask why it stopped. */
  predicate IsResume(data: string) {
    && data != ""
    && (data[0] in {'C', 'c', 'S', 's', '?'} ||
        (data[0] == 'v' && |data| > 5 &&
          ((data[5] != '?' && StartsAt(data, 1, "Cont")) || StartsAt(data, 1, "Attach") ||
           StartsAt(data, 1, "Run") || StartsAt(data, 1, "Stopped"))))
  }

  // ----------------------------------------------------------------- queries

  function ExtraText(row: ThreadInfo): string {
    var name := if row.name == "" then "" else "Name: " + row.name;
    if row.extra == "" then name else (if name == "" then "" else name + ", ") + row.extra
  }

  /** The first row, from `k` on, whose id the asked id equals. */
  function FindRow(info: seq<ThreadInfo>, id: ThreadId, k: nat): (r: nat)
    requires k <= |info|
    ensures k <= r <= |info|
    decreases |info| - k
  {
    if k == |info| || Equal(id, info[k].id) then k else FindRow(info, id, k + 1)
  }

  function OnExtraInfo(t: Target, data: string): Effect
    requires |data| >= 17
  {
    var id := Parse(data[17..]);
    if !t.negotiation.avail || t.walk.count == 0 || Equal(id, Current(t)) then Forward(t)
    else
      var k := FindRow(t.walk.info, id, 0);
      Handle(t, if k == |t.walk.info| then "E01" else HexOf(Codes(ExtraText(t.walk.info[k]))))
  }

  function Ids(info: seq<ThreadInfo>): (r: seq<ThreadId>)
    ensures |r| == |info| && forall i :: 0 <= i < |r| ==> r[i] == info[i].id
  {
    seq(|info|, i requires 0 <= i < |info| => info[i].id)
  }

  function ThreadListText(t: Target): string {
    if t.walk.count == 0 then "" else "m" + Join(Texts(Ids(t.walk.info)), ',')
  }

  function OnSymbolAnswer(t: Target, data: string): Effect
    requires |data| >= 8 && t.negotiation.processing && t.negotiation.current < SYM_COUNT
  {
    var n := StoreAnswer(t.negotiation, Address(data[8..]));
    var t' := t.(negotiation := n);
    if n.processing then Handle(t', SymbolRequest(n.current))
    else Effect(t', [ToTarget(Transfer(Built("qSymbol::"), false, NoCallback))], true)
  }

  function OnSymbolQuery(t: Target, data: string): Effect
    requires Consistent(t.negotiation)
  {
    if data == "qSymbol::" then Handle(t.(negotiation := STARTED), SymbolRequest(0))
    else if "qSymbol:" <= data && t.negotiation.processing then OnSymbolAnswer(t, data)
    else Forward(t)
  }

  function OnQuery(t: Target, pkt: Packet): Effect
    requires Valid(pkt) && Consistent(t.negotiation)
  {
    var data := DataOf(pkt);
    if "qSupported" <= data then Effect(t, [ToTarget(Transfer(pkt, false, SupportedReply))], true)
    else if "qThreadExtraInfo," <= data then OnExtraInfo(t, data)
    else if "qfThreadInfo" <= data then
      if t.negotiation.avail then Handle(t, ThreadListText(t)) else Forward(t)
    else if "qCRC:" <= data then Forward(t)
    else if "qC" <= data then
      if t.negotiation.avail then Handle(t, "QC" + ToText(t.walk.currentId)) else Forward(t)
    else OnSymbolQuery(t, data)
  }

  /** A `v` packet shorter than six bytes makes the bounds-checked access throw. */
  predicate Readable(pkt: Packet) {
    Valid(pkt) && (DataOf(pkt) != "" && DataOf(pkt)[0] == 'v' ==> |DataOf(pkt)| > 5)
  }

  function ProcessRequest(t: Target, pkt: Packet): Effect
    requires Readable(pkt) && Consistent(t.negotiation)
  {
    var data := DataOf(pkt);
    if KindOf(pkt) != Dat || data == "" then Forward(t)
    else if data[0] == 'q' then OnQuery(t, pkt)
    else if IsResume(data) then OnStopRequest(t, pkt)
    else if data[0] == 'g' then OnRegisterRead(t)
    else if data[0] == 'T' then OnThreadAlive(t, data)
    else if data[0] == 'H' && |data| > 1 && data[1] == 'g' then OnSelectThread(t, data)
    else Forward(t)
  }

  // ------------------------------------------------------------- conservation

  /** A request that the proxy answers itself: the callback decides what the client gets. */
  predicate Proper(t: Transfer) {
    && Valid(t.pkt) && KindOf(t.pkt) == Dat
    && (t.internal <==> t.next != NoCallback && t.next != SupportedReply)
  }

  predicate ProperOutput(o: Output) {
    match o
    case ToTarget(t) => Proper(t)
    case ToClient(p) => Valid(p) && KindOf(p) == Dat
  }

  /** A built packet is a data packet, whatever the payload. */
  lemma {:induction false} FeedKeepsKind(p: Packet, s: string)
    requires Valid(p) && KindOf(p) == Dat && p.phase != Invalid
    ensures KindOf(Feed(p, s).0) == Dat
    decreases |s|
  {
    if s != "" && Accepts(p, s[0]) {
      FeedFirst(p, s);
      StepKeepsKind(p, s[0]);
      FeedKeepsKind(Step(p, s[0]), s[1..]);
    }
  }

  lemma StepKeepsKind(p: Packet, c: char)
    requires Valid(p) && KindOf(p) == Dat && Accepts(p, c) && p.phase != Invalid
    ensures KindOf(Step(p, c)) == Dat
  {
    assert p.buf[0] == '$';
  }

  lemma {:induction false} BuiltIsData(payload: string)
    ensures KindOf(Built(payload)) == Dat
  {
    FeedKeepsKind(OPEN, payload);
    var p := Feed(OPEN, payload).0;
    FeedStops(OPEN, payload);
    FeedKeepsKind(p, "#" + HexOfByte(p.csum));
  }

  /** One data packet if the request was handled, none if it is to be forwarded. */
  predicate OneEffect(e: Effect) {
    if e.handled then |e.outputs| == 1 && ProperOutput(e.outputs[0]) else e.outputs == []
  }

  lemma HandleOneEffect(t: Target, text: string)
    ensures OneEffect(Handle(t, text))
  {
    BuiltIsData(text);
  }

  /** Exactly one data packet for each request that is handled, and none when it is forwarded. */
  lemma {:induction false} RequestHasOneEffect(t: Target, pkt: Packet)
    requires Readable(pkt) && Consistent(t.negotiation) && KindOf(pkt) == Dat
    ensures OneEffect(ProcessRequest(t, pkt))
  {
    var data := DataOf(pkt);
    if data == "" {
    } else if data[0] == 'q' {
      QueryHasOneEffect(t, pkt);
    } else if data[0] == 'T' {
      HandleOneEffect(t, if Alive(t, Parse(data[1..])) then "OK" else "E01");
    } else if data[0] == 'H' && |data| > 1 {
      HandleOneEffect(t.(selected := Parse(data[2..])), "OK");
    }
  }

  lemma QueryHasOneEffect(t: Target, pkt: Packet)
    requires Valid(pkt) && Consistent(t.negotiation) && KindOf(pkt) == Dat
    ensures OneEffect(OnQuery(t, pkt))
  {
    var data := DataOf(pkt);
    if "qSupported" <= data {
    } else if "qThreadExtraInfo," <= data {
      ExtraInfoHasOneEffect(t, data);
    } else if "qfThreadInfo" <= data {
      HandleOneEffect(t, ThreadListText(t));
    } else if "qC" <= data {
      HandleOneEffect(t, "QC" + ToText(t.walk.currentId));
    } else if data == "qSymbol::" {
      HandleOneEffect(t.(negotiation := STARTED), SymbolRequest(0));
    } else if "qSymbol:" <= data && t.negotiation.processing {
      SymbolAnswerHasOneEffect(t, data);
    }
  }

  lemma ExtraInfoHasOneEffect(t: Target, data: string)
    requires |data| >= 17
    ensures OneEffect(OnExtraInfo(t, data))
  {
    var k := FindRow(t.walk.info, Parse(data[17..]), 0);
    HandleOneEffect(t, if k == |t.walk.info| then "E01" else HexOf(Codes(ExtraText(t.walk.info[k]))));
  }

  lemma SymbolAnswerHasOneEffect(t: Target, data: string)
    requires |data| >= 8 && t.negotiation.processing && t.negotiation.current < SYM_COUNT
    ensures OneEffect(OnSymbolAnswer(t, data))
  {
    var n := StoreAnswer(t.negotiation, Address(data[8..]));
    if n.processing {
      HandleOneEffect(t.(negotiation := n), SymbolRequest(n.current));
    } else {
      BuiltIsData("qSymbol::");
    }
  }

  /** The callback of an internal request sends exactly one data packet; that of a client's own
      request sends none, since its response is forwarded. */
  lemma {:induction false} CallbackHasOneEffect(t: Target, transfer: Transfer, reply: Packet)
    requires Proper(transfer) && Acceptable(t, transfer.next, reply)
    ensures var e := Callback(t, transfer.next, reply);
            if transfer.internal then |e.outputs| == 1 && ProperOutput(e.outputs[0]) else e.outputs == []
  {
    match transfer.next
    case StopReply => UpdateHasOneEffect(t.(stopReply := reply));
    case Registers(address) =>
      BuiltIsData(Registers.BlockText(Registers.ContextBytes(DataOf(reply)), Registers.PoppedBytes(address)));
    case NoCallback =>
    case SupportedReply =>
    case StackPtr =>
    case _ =>
      StepReady(Setting(t), Pending(t, transfer.next), DataOf(reply));
      ContinueHasOneEffect(t, OnReply(Setting(t), Pending(t, transfer.next), DataOf(reply)));
  }

  lemma FinishHasOneEffect(t: Target)
    requires HasStopReply(t)
    ensures |FinishStop(t).outputs| == 1 && ProperOutput(FinishStop(t).outputs[0])
  {
    BuiltIsData(Rewritten(DataOf(t.stopReply), Label(t.selected)));
  }

  lemma ContinueHasOneEffect(t: Target, o: Outcome)
    requires HasStopReply(t) && Ready(o)
    ensures |Continue(t, o).outputs| == 1 && ProperOutput(Continue(t, o).outputs[0])
  {
    match o
    case Ask(w, read) =>
    case Finished(w) => FinishHasOneEffect(t.(walk := w));
  }

  lemma UpdateHasOneEffect(t: Target)
    requires HasStopReply(t)
    ensures |UpdateThreads(t).outputs| == 1 && ProperOutput(UpdateThreads(t).outputs[0])
  {
    if t.negotiation.avail {
      ContinueHasOneEffect(t, Begin(Setting(t), t.walk.ids));
    } else {
      FinishHasOneEffect(t);
    }
  }
}
