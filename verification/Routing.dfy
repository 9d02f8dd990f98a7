/** What the target does with each data packet of the client, told by the packet's text alone. */
module Routing {
  import opened Text
  import opened Hex
  import opened Packet
  import opened ThreadIds
  import opened Walks
  import opened SymbolTable
  import opened Connections
  import opened TargetModel

  /** Packets that set the target going, or ask why it stands: `c`, `C`, `s`, `S`, `?`, and of the packets
      with a word `vCont` with anything but a question mark behind it, `vAttach`, `vRun` and `vStopped`. */
  predicate Resumes(data: string) {
    || "c" <= data || "C" <= data || "s" <= data || "S" <= data || "?" <= data
    || ("vCont" <= data && |data| > 5 && data[5] != '?')
    || ("vAttach" <= data && |data| > 5) || ("vRun" <= data && |data| > 5) || ("vStopped" <= data && |data| > 5)
  }

  lemma {:induction false} PrefixBehind(data: string, c: char, word: string)
    ensures [c] + word <= data <==> data != "" && data[0] == c && StartsAt(data, 1, word)
  {
    if [c] + word <= data {
      assert data[0] == ([c] + word)[0];
      assert data[1..][..|word|] == word;
    }
    if data != "" && data[0] == c && StartsAt(data, 1, word) {
      assert data == [c] + data[1..];
      assert data[..1 + |word|] == [c] + data[1..][..|word|];
    }
  }

  lemma {:induction false} ResumesIff(data: string)
    ensures Resumes(data) <==> IsResume(data)
  {
    PrefixBehind(data, 'v', "Cont");
    PrefixBehind(data, 'v', "Attach");
    PrefixBehind(data, 'v', "Run");
    PrefixBehind(data, 'v', "Stopped");
    assert "vCont" == ['v'] + "Cont" && "vAttach" == ['v'] + "Attach";
    assert "vRun" == ['v'] + "Run" && "vStopped" == ['v'] + "Stopped";
  }

  /** Exactly those packets are sent on as the proxy's own requests whose response is a stop reply. */
  lemma {:induction false} ResumeRouted(t: Target, pkt: Packet)
    requires Readable(pkt) && Consistent(t.negotiation) && KindOf(pkt) == Dat
    ensures if Resumes(DataOf(pkt)) then
              ProcessRequest(t, pkt) == Effect(t, [ToTarget(Transfer(pkt, true, StopReply))], true)
            else AwaitsNoStop(ProcessRequest(t, pkt))
  {
    ResumesIff(DataOf(pkt));
    if !Resumes(DataOf(pkt)) {
      OthersAwaitNoStop(t, pkt);
    }
  }

  lemma {:induction false} OthersAwaitNoStop(t: Target, pkt: Packet)
    requires Readable(pkt) && Consistent(t.negotiation) && KindOf(pkt) == Dat && !IsResume(DataOf(pkt))
    ensures AwaitsNoStop(ProcessRequest(t, pkt))
  {
    var data := DataOf(pkt);
    if data != "" && data[0] == 'q' {
      QueriesAwaitNoStop(t, pkt);
    }
  }

  lemma {:induction false} QueriesAwaitNoStop(t: Target, pkt: Packet)
    requires Valid(pkt) && Consistent(t.negotiation)
    ensures AwaitsNoStop(OnQuery(t, pkt))
  {
    if "qThreadExtraInfo," <= DataOf(pkt) {
      assert AwaitsNoStop(OnExtraInfo(t, DataOf(pkt)));
    } else {
      assert AwaitsNoStop(OnSymbolQuery(t, DataOf(pkt)));
    }
  }

  predicate AwaitsNoStop(e: Effect) {
    forall i :: 0 <= i < |e.outputs| ==> e.outputs[i].ToTarget? ==> e.outputs[i].t.next != StopReply
  }

  /** What GDB sends to continue, and its question what kinds of `vCont` there are. */
  lemma {:induction false} ContinueIsResume()
    ensures Resumes("vCont;c") && Resumes("vCont;s:1") && !Resumes("vCont?")
    ensures Resumes("c") && Resumes("s") && Resumes("?") && Resumes("C05") && Resumes("S05")
    ensures !Resumes("g") && !Resumes("vKill;1") && !Resumes("m1000,4")
  {
    assert "vCont;c"[..5] == "vCont" && "vCont;s:1"[..5] == "vCont";
    assert "C05"[..1] == "C" && "S05"[..1] == "S";
    Letters("vCont?");
    Letters("vKill;1");
    Letters("g");
    Letters("m1000,4");
  }

  /** The first letters decide. */
  lemma {:induction false} Letters(data: string)
    requires data != ""
    ensures "c" <= data <==> data[0] == 'c'
    ensures "C" <= data <==> data[0] == 'C'
    ensures "s" <= data <==> data[0] == 's'
    ensures "S" <= data <==> data[0] == 'S'
    ensures "?" <= data <==> data[0] == '?'
    ensures "g" <= data <==> data[0] == 'g'
    ensures "T" <= data <==> data[0] == 'T'
    ensures "Hg" <= data <==> |data| > 1 && data[0] == 'H' && data[1] == 'g'
    ensures "vCont" <= data ==> |data| >= 5 && data[0] == 'v' && data[1] == 'C'
    ensures "vAttach" <= data ==> |data| >= 7 && data[0] == 'v' && data[1] == 'A'
    ensures "vRun" <= data ==> |data| >= 4 && data[0] == 'v' && data[1] == 'R'
    ensures "vStopped" <= data ==> |data| >= 8 && data[0] == 'v' && data[1] == 'S'
  {
    if |data| > 1 && data[0] == 'H' && data[1] == 'g' {
      assert data[..2] == "Hg";
    }
  }

  /** The current execution, by which the client means the target as it stands. */
  predicate IsCurrentExecution(id: ThreadId) {
    id.tid == 1 && (id.multiprocess ==> id.pid == 1)
  }

  lemma {:induction false} CurrentIff(t: Target, id: ThreadId)
    ensures Equal(id, Current(t)) <==> IsCurrentExecution(id)
  {
  }

  // ------------------------------------------------------------- the other packets

  /** `T` and a thread id: `OK` if there is a complete row with that id, `E01` if there is none; the target is
      asked about the current execution, and about everything while there is no RTOS. */
  lemma {:induction false} AliveAnswered(t: Target, pkt: Packet, id: ThreadId)
    requires Readable(pkt) && Consistent(t.negotiation) && KindOf(pkt) == Dat
    requires DataOf(pkt) == "T" + ToText(id) && id.tid >= -1 && id.pid >= -1
    ensures ProcessRequest(t, pkt)
            == if !t.negotiation.avail || IsCurrentExecution(id) then Effect(t, [], false)
               else Effect(t, [ToClient(Built(if HasCompleteRow(t, id) then "OK" else "E01"))], true)
  {
    Head('T', ToText(id));
    TextRoundTrip(id);
    CurrentIff(t, Parse(ToText(id)));
    AliveIff(t, id);
  }

  predicate HasCompleteRow(t: Target, id: ThreadId) {
    t.walk.count != 0 && exists i :: 0 <= i < |t.walk.info| && RowMatches(t.walk.info[i], id)
  }

  predicate RowMatches(row: ThreadInfo, id: ThreadId) {
    && row.exists_ && row.id.tid == id.tid
    && (row.id.multiprocess ==> row.id.pid == if id.multiprocess then id.pid else 0)
  }

  lemma {:induction false} AliveIff(t: Target, id: ThreadId)
    requires id.tid >= -1 && id.pid >= -1
    ensures Alive(t, Parse(ToText(id))) <==> HasCompleteRow(t, id)
  {
    TextRoundTrip(id);
    var asked := Parse(ToText(id));
    if Alive(t, asked) {
      var i :| 0 <= i < |t.walk.info| && Equal(t.walk.info[i].id, asked) && t.walk.info[i].exists_;
      assert RowMatches(t.walk.info[i], id);
    }
    if HasCompleteRow(t, id) {
      var i :| 0 <= i < |t.walk.info| && RowMatches(t.walk.info[i], id);
      assert Equal(t.walk.info[i].id, asked);
    }
  }

  /** `qThreadExtraInfo,` and an id without a row: `E01`. What a listed id gets, `ExtraInfoDecodes` says. */
  lemma {:induction false} InfoRefused(t: Target, pkt: Packet, id: ThreadId)
    requires Readable(pkt) && Consistent(t.negotiation) && KindOf(pkt) == Dat
    requires DataOf(pkt) == "qThreadExtraInfo," + ToText(id) && id.tid >= -1 && id.pid >= -1
    requires forall i :: 0 <= i < |t.walk.info| ==>
               !(t.walk.info[i].id.tid == id.tid && (id.multiprocess ==> t.walk.info[i].id.pid == id.pid))
    ensures ProcessRequest(t, pkt)
            == if !t.negotiation.avail || t.walk.count == 0 || IsCurrentExecution(id) then Effect(t, [], false)
               else Effect(t, [ToClient(Built("E01"))], true)
  {
    Parts("qThreadExtraInfo,", ToText(id));
    QueriesApart(DataOf(pkt));
    Letter(DataOf(pkt), "qThreadExtraInfo,");
    TextRoundTrip(id);
    CurrentIff(t, Parse(ToText(id)));
    NoRowFound(t.walk.info, Parse(ToText(id)), 0);
    assert ProcessRequest(t, pkt) == OnExtraInfo(t, DataOf(pkt));
  }

  lemma {:induction false} NoRowFound(info: seq<ThreadInfo>, id: ThreadId, k: nat)
    requires k <= |info| && forall i :: k <= i < |info| ==> !Equal(id, info[i].id)
    ensures FindRow(info, id, k) == |info|
    decreases |info| - k
  {
    if k < |info| {
      NoRowFound(info, id, k + 1);
    }
  }

  /** `Hg` and a thread id: the thread is selected in any case; the client gets `OK` from the proxy unless it
      selects the current execution or there is no RTOS, when the target gets the packet. */
  lemma {:induction false} SelectRouted(t: Target, pkt: Packet, id: ThreadId)
    requires Readable(pkt) && Consistent(t.negotiation) && KindOf(pkt) == Dat
    requires DataOf(pkt) == "Hg" + ToText(id) && id.tid >= -1 && id.pid >= -1
    ensures var t' := t.(selected := if id.multiprocess then id else ThreadId(false, 0, id.tid));
            ProcessRequest(t, pkt)
            == if t.negotiation.avail && !IsCurrentExecution(id) then Effect(t', [ToClient(Built("OK"))], true)
               else Effect(t', [], false)
  {
    Parts("Hg", ToText(id));
    Letters(DataOf(pkt));
    assert ProcessRequest(t, pkt) == OnSelectThread(t, DataOf(pkt));
    TextRoundTrip(id);
    CurrentIff(t, Parse(ToText(id)));
  }

  /** `g` is left to the target exactly when there is no RTOS, or the selected thread is the current
      execution, the running task, or none; otherwise a word is read at the selected id. */
  lemma {:induction false} RegistersRouted(t: Target, pkt: Packet)
    requires Readable(pkt) && Consistent(t.negotiation) && KindOf(pkt) == Dat && "g" <= DataOf(pkt)
    ensures var sel, run := t.selected, t.walk.currentId;
            ProcessRequest(t, pkt)
            == if !t.negotiation.avail || IsCurrentExecution(sel) || sel.tid == 0 || sel.tid == 1
                  || (sel.tid == run.tid && (sel.multiprocess ==> sel.pid == run.pid))
               then Effect(t, [], false)
               else Effect(t, [ToTarget(ReadTransfer(Read(sel.tid % TWO_64, 4, StackPtr)))], true)
  {
    Letters(DataOf(pkt));
    assert ProcessRequest(t, pkt) == OnRegisterRead(t);
    RegisterReadIs(t);
  }

  lemma {:induction false} RegisterReadIs(t: Target)
    ensures var sel, run := t.selected, t.walk.currentId;
            OnRegisterRead(t)
            == if !t.negotiation.avail || IsCurrentExecution(sel) || sel.tid == 0 || sel.tid == 1
                  || (sel.tid == run.tid && (sel.multiprocess ==> sel.pid == run.pid))
               then Effect(t, [], false)
               else Effect(t, [ToTarget(ReadTransfer(Read(sel.tid % TWO_64, 4, StackPtr)))], true)
  {
    CurrentIff(t, t.selected);
    LowId(t.selected.tid);
  }

  lemma {:induction false} LowId(tid: i64)
    ensures tid % TWO_64 <= 1 <==> tid == 0 || tid == 1
  {
  }

  /** `qC`: the running task's id as text, which a client reads back. */
  lemma {:induction false} CurrentAnswered(t: Target, pkt: Packet)
    requires Readable(pkt) && Consistent(t.negotiation) && KindOf(pkt) == Dat && "qC" <= DataOf(pkt)
    ensures ProcessRequest(t, pkt)
            == if "qCRC:" <= DataOf(pkt) || !t.negotiation.avail then Effect(t, [], false)
               else Effect(t, [ToClient(Built("QC" + ToText(t.walk.currentId)))], true)
    ensures var answer := DataOf(Built("QC" + ToText(t.walk.currentId)));
            && "QC" <= answer
            && (t.walk.currentId.tid >= -1 && t.walk.currentId.pid >= -1 ==>
                  Equal(Parse(answer[2..]), t.walk.currentId))
  {
    var id := t.walk.currentId;
    SecondOf(DataOf(pkt));
    ToTextChars(id);
    BuiltPlain("QC" + ToText(id));
    Parts("QC", ToText(id));
    TextRoundTrip(id);
  }

  lemma {:induction false} SecondOf(data: string)
    ensures "qC" <= data ==> data[0] == 'q' && !("qSupported" <= data) && !("qThreadExtraInfo," <= data)
    ensures "qC" <= data ==> !("qfThreadInfo" <= data)
  {
    if "qC" <= data {
      Second(data, "qC");
      if "qSupported" <= data {
        Second(data, "qSupported");
      } else if "qThreadExtraInfo," <= data {
        Second(data, "qThreadExtraInfo,");
      } else if "qfThreadInfo" <= data {
        Second(data, "qfThreadInfo");
      }
    }
  }

  lemma {:induction false} Second(data: string, word: string)
    requires |word| > 1 && word <= data
    ensures |data| > 1 && data[0] == word[0] && data[1] == word[1]
  {
  }

  /** `qfThreadInfo`: the list of all rows (`ThreadListDecodes`), and an empty answer when there are none. */
  lemma {:induction false} ListAnswered(t: Target, pkt: Packet)
    requires Readable(pkt) && Consistent(t.negotiation) && KindOf(pkt) == Dat && "qfThreadInfo" <= DataOf(pkt)
    ensures ProcessRequest(t, pkt)
            == if !t.negotiation.avail then Effect(t, [], false)
               else Effect(t, [ToClient(Built(ThreadListText(t)))], true)
    ensures t.walk.count == 0 ==> ThreadListText(t) == ""
  {
    QueriesApart(DataOf(pkt));
    Letter(DataOf(pkt), "qfThreadInfo");
  }

  lemma {:induction false} Letter(data: string, word: string)
    requires word != "" && word <= data
    ensures data != "" && data[0] == word[0]
  {
  }

  lemma {:induction false} QueriesApart(data: string)
    ensures "qfThreadInfo" <= data ==> !("qSupported" <= data) && !("qThreadExtraInfo," <= data)
    ensures "qThreadExtraInfo," <= data ==> !("qSupported" <= data)
  {
    if "qSupported" <= data {
      Second(data, "qSupported");
      if "qfThreadInfo" <= data {
        Second(data, "qfThreadInfo");
      } else if "qThreadExtraInfo," <= data {
        Second(data, "qThreadExtraInfo,");
      }
    } else if "qThreadExtraInfo," <= data && "qfThreadInfo" <= data {
      Second(data, "qThreadExtraInfo,");
      Second(data, "qfThreadInfo");
    }
  }

  /** `qSupported` goes to the target as it is. */
  lemma {:induction false} SupportedRouted(t: Target, pkt: Packet)
    requires Readable(pkt) && Consistent(t.negotiation) && KindOf(pkt) == Dat && "qSupported" <= DataOf(pkt)
    ensures ProcessRequest(t, pkt) == Effect(t, [ToTarget(Transfer(pkt, false, SupportedReply))], true)
  {
  }

  /** The text has `;multiprocess+` somewhere. */
  ghost predicate Offers(data: string) {
    exists a, b {:trigger a + ";multiprocess+" + b} :: data == a + ";multiprocess+" + b
  }

  /** From the response on, thread ids name a process if and only if they did before or the target offers it;
      nothing else changes, and nothing is sent but the response itself. */
  lemma {:induction false} SupportedAnswered(t: Target, reply: Packet)
    requires Valid(reply)
    ensures Callback(t, SupportedReply, reply)
            == Effect(t.(multiprocess := t.multiprocess || Offers(DataOf(reply))), [], true)
  {
    ContainsIff(DataOf(reply));
  }

  lemma {:induction false} ContainsIff(data: string)
    ensures Contains(data, ";multiprocess+") <==> Offers(data)
  {
    var sub := ";multiprocess+";
    if Contains(data, sub) {
      var i :| 0 <= i <= |data| && sub <= data[i..];
      assert data == data[..i] + sub + data[i..][|sub|..];
    }
    if Offers(data) {
      var a, b :| data == a + sub + b;
      Assoc(a, sub, b);
      Parts(a, sub + b);
      assert sub <= data[|a|..];
    }
  }

  /** The queries that the target knows. */
  predicate KnownQuery(t: Target, data: string) {
    || "qSupported" <= data || "qThreadExtraInfo," <= data || "qfThreadInfo" <= data
    || ("qC" <= data && !("qCRC:" <= data))
    || data == "qSymbol::" || ("qSymbol:" <= data && t.negotiation.processing)
  }

  /** Every other data packet is left to the target, and changes nothing. */
  lemma {:induction false} OthersForwarded(t: Target, pkt: Packet)
    requires Readable(pkt) && Consistent(t.negotiation) && KindOf(pkt) == Dat
    requires var data := DataOf(pkt);
             && !Resumes(data) && !KnownQuery(t, data)
             && !("g" <= data) && !("T" <= data) && !("Hg" <= data)
    ensures ProcessRequest(t, pkt) == Effect(t, [], false)
  {
    var data := DataOf(pkt);
    ResumesIff(data);
    if data != "" {
      Letters(data);
    }
  }

  // ---------------------------------------------------------- the text about a thread

  /** What the client reads about a thread with a name, and about one without. */
  lemma {:induction false} TextAbout(row: ThreadInfo)
    ensures row.name != "" && row.extra == "" ==> ExtraText(row) == "Name: " + row.name
    ensures row.name != "" && row.extra != "" ==> ExtraText(row) == "Name: " + row.name + ", " + row.extra
    ensures row.name == "" ==> ExtraText(row) == row.extra
  {
    Empty(row.extra);
  }
}
