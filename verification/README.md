# A verified model of gdbproxy

`gdbproxy` sits between GDB and a hardware debug server. It reads GDB Remote Serial Protocol packets
from both sides, forwards most of them, answers some itself, and, whenever the target stops, walks the
FreeRTOS task lists in target memory to build a thread table. This project models that logic in Dafny
and proves what it does over all inputs, all cuttings of the byte streams and all runs.

One `char` stands for one byte on the wire. `uint64_t` addresses are `u64` with wrap-around written out
(`Add64`, `% TWO_64`); thread ids are `i64`. `std::map` is a sequence of entries in key order, the order
in which the allocation loop visits it. Each class is specified by a function of its old state, and the
lemmas are about those functions.

| file | contents |
|---|---|
| `Text.dfy`, `Hex.dfy` | strings, hexadecimal text, byte strings, little-endian words |
| `Packet.dfy`, `GdbPacket.dfy` | a packet as a value and the packet object: parser and builder |
| `Wire.dfy`, `RunLength.dfy` | the wire format as a grammar of items and frames, without any parser; a sender's run-length coding |
| `Stream.dfy` | reads cut anywhere, and the reading half of a channel |
| `ThreadId.dfy`, `Memory.dfy` | thread-id text; memory read requests, replies, and a server for them |
| `IdMap.dfy`, `ListedIds.dfy`, `TableIds.dfy` | allocation and erasure of thread ids; the ids returned to the table; those of an update |
| `Walk.dfy`, `WalkRuns.dfy`, `WalkTables.dfy`, `WalkRefines.dfy` | the task walk; against any replies; the rows it leaves; against memory |
| `Kernel.dfy` | the walk against the RTOS structures, described by addresses and layout alone |
| `Registers.dfy`, `SavedContext.dfy` | the register block, and the saved context that it shows |
| `StopReply.dfy`, `Symbols.dfy`, `SymbolNames.dfy` | stop replies, symbol negotiation, and which name's address is used where |
| `Connection.dfy`, `QueueRuns.dfy` | the transfer queues; their shape over whole runs |
| `TargetModel.dfy`, `Target.dfy` | the FreeRTOS target as functions, and as an object with callbacks |
| `Routing.dfy` | what the target does with each packet of the client, told by its text alone |
| `Session.dfy`, `Proxy.dfy`, `Link.dfy` | both packet handlers over whole runs, as an object, and driven by the two byte streams |
| `Traffic.dfy` | everything that a session writes to either side |
| `Update.dfy`, `Context.dfy` | every request is answered; a stop and a register read from end to end |
| `Dialogue.dfy` | what a client sees across several requests |

The strongest results compose the parts. `Updates.StopWithTable`: when the client resumes a target and
it stops, the chain of read requests, each printed into its buffer, built as a packet, decoded by a memory
server, answered as a packet and decoded again, ends with exactly one packet for the client, the rewritten
stop reply, and with the table that a plain recursive enumeration of the task lists gives, whatever write
completions, acknowledgements and breaks come in between; `Updates.StopReached` shows that it gets there.
`Dialogues.StopShowsTasks` says what table that is, from the RTOS structures in memory alone, and
`Dialogues.StopListsIff` exactly when the thread ids in it are right. `Traffic.RunWrites` says what is written
to either side in every run. `Updates.AnswerComes`: whatever the target's
responses say, every waiting request is answered with exactly one packet; `Sessions.OneReplyPerRequest`:
in every run of a synchronous client, requests less answers are zero or one. `Wire.ParserMeetsFormat` and
`Stream.FragmentationIndependence`: the byte-at-a-time parser understands exactly the run-length grammar,
however the bytes are cut, and `Links.CutsDoNotMatter` carries that over to the session that both streams
drive. `Proxies.Proxy.HandleAll` connects the objects with the runs.

Where the code departs from its apparent intent, the code is modelled, a failing input is given and the
exact condition is stated:

- The id search shadows its result by a reference into the map, so it rewrites the id of another task, always
  if there is a gap (`KnownKeptIff`), and returns an id that may be in use (`FreshIff`). The map can get equal
  ids (`ArrivalOrderCanDuplicate`, `DistinctIffGapFree`), and even while its ids are distinct the table can
  show equal ones: a first stop with two tasks, the running one first, is listed as `m1,3,3`, and the map then
  says 2 for the running task (`FirstTableCollides`, `CollidingList`). The ids listed after a stop agree with
  the map exactly if no new task finds its gap at a task listed before, and they are also distinct, so that a
  client can reach every row, exactly if moreover no task is returned the id of one listed before
  (`StopListsIff`, `EachRowFoundIff`). A stop without new tasks changes nothing (`KnownTasksKept`).
- `raw_data()` of a run-length packet has expanded bytes under the checksum of the compressed form, as in
  `$a* #bb` (`RunChangesChecksum`); the next reader's checksum is the first one's exactly when the expanded
  and the unexpanded payload have the same sum (`ForwardedChecksum`).
- `operator==` depends on operand order exactly as `EqualSymmetry` says, and ids below -1 do not survive
  printing and parsing (`IdRoundTrip`, `TextRoundTrip`).
- Stop-reply text behind the last semicolon is dropped, and nothing else (`RewriteLosesNothing`): `T05thread:1`
  becomes `T05` (`LastFieldLost`).
- An acknowledgement sent behind a waiting request makes the queue lose that request
  (`LateAckLosesRequest`), and only then (`AckLosesRequestIff`).
- A memory read request that does not fit its 19-byte buffer is sent cut off, with NULs. A server can decode
  it exactly if it fits (`RequestDecodes`); which addresses do, `RequestFits` says, and that all reads of
  a walk on a 32-bit target do, `EveryReadFits`.
- A register read uses the selected thread id as the address of the task. It reads the task of a row exactly
  if the row's id is its address (`ContextOfRow`); ids are at most two more than the events so far, so a task
  at a larger address is never the one read (`LargeAddressMissed`, `FirstTaskMissed`). The id is compared with an unsigned constant, so -1 counts
  as large; the request then does not fit, as for every id outside 0 to 2^60 (`RegisterRequest`,
  `AllThreadsDoNotFit`), and the error reply is read as the stack pointer 0xe0 (`PointerServed`).
- `on_response` reads the ownership flag of a request after removing it from the queue; the model reads
  it before.
- The ready-list loop scans `count` lists although it reserves room for one more; what is scanned is what
  is enumerated (`Scanned`).

## Model

| member | source | states |
|---|---|---|
| Packet.StepValid | gdb-packet.cpp:90-172 | every byte keeps the buffer shape of each parser state: payload free of `#` and `*`, `#` found three bytes back exactly at completion |
| Packet.FeedStops | gdb-packet.cpp:90-172 | `parse` leaves bytes unread only when the packet completed or the first byte starts no packet |
| Packet.StartBytes | gdb-packet.cpp:90-120 | the four bytes that start a packet, what each starts, and no others |
| Packet.FeedSplit | gdb-packet.cpp:90-172 | parsing two pieces is parsing their concatenation, including the number of bytes consumed |
| Packet.FeedClose | gdb-packet.cpp:122-168 | completion is exactly two bytes behind the closing `#`, whatever those bytes are, also another `#` |
| Packet.BuilderRoundTrip | gdb-packet.cpp:67-78 | any plain pieces given to an open packet and finalized come back as their concatenation, and the two digits spell the packet's own checksum |
| Packet.BuiltPlain | gdb-packet.cpp:185-200 | a finalized packet has `$`, payload, `#` and the checksum of the payload modulo 256 |
| Packet.DataIsPlain | gdb-packet.cpp:52-58 | payloads handed on never contain `#` or `*` |
| Packet.Reparse | gdb-packet.cpp:60-65 | the next reader of `raw_data()` gets the same bytes and payload, and the same recomputed checksum exactly when expanded and wire sums agree modulo 256 |
| GdbPackets.GdbPacket.constructor | gdb-packet.h:54-54 | a new packet is empty and invalid |
| GdbPackets.GdbPacket.Of | gdb-packet.cpp:9-28 | control packets are complete at once, data packets are open |
| GdbPackets.GdbPacket.Parse | gdb-packet.cpp:90-172 | the parsing loop reaches the state and consumes the bytes that the specification says |
| GdbPackets.GdbPacket.Finalize | gdb-packet.cpp:185-200 | succeeds exactly on open data packets, which become complete with a correct checksum; others are unchanged |
| GdbPackets.GdbPacket.Reset | gdb-packet.cpp:202-207 | back to an empty invalid packet |
| Wire.FrameUnderstood | gdb-packet.cpp:122-171 | any grammatical frame, whatever follows, is parsed to the run-length expansion of its items and the sum of its unexpanded bytes, and nothing behind it is consumed |
| Wire.ParserMeetsFormat | gdb-packet.cpp:90-172 | a fresh parser completes a packet if and only if the input begins with a grammatical frame |
| Wire.FramesUnambiguous | gdb-packet.cpp:90-172 | two readings of the same bytes as frame and remainder are the same reading |
| Wire.ForwardedChecksum | gdb-packet.cpp:60-65 | a forwarded frame has the checksum it came with if and only if its expanded and unexpanded payloads have equal sums |
| Wire.NoRunsNoChange | gdb-packet.cpp:122-171 | without run-length coding the payload is what was on the wire |
| Wire.RunChangesChecksum | gdb-packet.cpp:147-156 | a frame whose checksum is spoilt by expanding it |
| RunLengths.LegalCount | gdb-packet.cpp:141-159 | each count from a space to a tilde stands for 3 to 97 more copies of the byte before the star |
| RunLengths.ChunksArrive | gdb-packet.cpp:122-171 | bytes and runs of 3 to 97 more copies, written as a sender writes them, arrive in any pieces as the text they mean |
| RunLengths.EncodedArrives | gdb-packet.cpp:122-171 | every plain payload, run-length coded and cut anywhere, comes back |
| Stream.FragmentationIndependence | proxy-conn.cpp:272-299 | every cutting into reads delivers the same packets, leaves the same partial packet and fails the same assertion |
| Stream.FramesArrive | proxy-conn.cpp:206-225 | frames sent back to back arrive, in any pieces, as exactly the packets they mean, in order |
| Stream.NothingElseArrives | proxy-conn.cpp:272-299 | whatever the stream, what was delivered is its frames, and the remainder is the packet in progress or starts with a byte that stops the channel |
| Stream.BuiltPacketArrives | gdb-packet.cpp:185-200 | a packet built by the proxy arrives at the other end as the same packet under any cutting |
| Stream.Channel.constructor | proxy-conn.cpp:202-204 | a new channel is at its start |
| Stream.Channel.ReadDone | proxy-conn.cpp:206-225 | a completed read is stored in the fixed buffer and all of it is processed |
| Stream.Channel.ProcessData | proxy-conn.cpp:272-299 | the loop ends, and delivers what the specification of the stream says |
| Hex.HexTextValue | gdb_packets.cpp:68-82 | hexadecimal text of a number reads back as that number |
| Hex.HexTextLength | gdb_packets.cpp:68-82 | a number takes at most k hexadecimal digits if and only if it is below 16 to the power of k |
| Hex.DigitsAre | gdb_packets.cpp:11-30 | the sixteen digits in order, read in both cases |
| Hex.WordIs | gdb_packets.cpp:90-97 | four bytes are a word with the least significant first |
| Hex.HexRoundTrip | gdb_packets.cpp:32-65 | `hex2bin` inverts `bin2hex` on every byte string, with any spare room |
| Hex.BytesOfMeaning | gdb_packets.cpp:32-47 | every stored byte is its pair of digits, and no digit before the stop is NUL |
| Hex.BytesOfStops | gdb_packets.cpp:32-47 | decoding stops only at the buffer's end, the text's end or a NUL |
| Hex.Hex2Bin | gdb_packets.cpp:32-47 | the loop stores the decoded bytes, returns their number and leaves the rest of the buffer alone |
| Hex.Bin2Hex | gdb_packets.cpp:55-65 | the loop appends two digits for each byte, in order |
| Hex.WordRoundTrip | gdb_packets.cpp:90-97 | the little-endian bytes of a number are read as that number |
| Memories.MemoryReadReq | gdb_packets.cpp:68-82 | the request packet, printed through the 19-byte buffer, whole or cut off |
| Memories.RequestDecodes | gdb_packets.cpp:68-82 | a request decodes to exactly its address and size if its text fits the buffer, and to nothing otherwise |
| Memories.RequestFits | gdb_packets.cpp:71-79 | which addresses fit, and for which the buffer is overrun: both directions, for sizes of one and of two digits |
| Memories.WordThroughPacket | gdb_packets.cpp:84-97 | a word of up to eight bytes sent in a packet is read back |
| Memories.AnswerCarries | gdb_packets.cpp:68-97 | request packet, server and reply packet together return the bytes asked for if and only if the request fits |
| ThreadIds.EqualSymmetry | threadid.h:138-141 | `operator==` depends on operand order exactly when one side only has a process and only processes differ |
| ThreadIds.IdRoundTrip | threadid.h:33-67 | a number survives `make_id` and `parse_id` if and only if it is at least -1 |
| ThreadIds.NegativeIdText | threadid.h:36-48 | what a negative id is read as: -1 when its first digit is 1, otherwise its distance from the mask |
| ThreadIds.TextRoundTrip | threadid.h:74-136 | a thread id survives `to_string` and parsing if and only if no part is below -1, in the plain and the process form |
| ThreadIds.TextForms | threadid.h:113-131 | what the text of an id looks like in each form |
| ThreadIds.NumberRead | threadid.h:33-55 | a number is taken as signed 64 bits, and what does not fit is zero |
| ThreadIds.ProcessOnly | threadid.h:74-92 | a process without a thread means all its threads |
| ThreadIds.ListRoundTrip | target_mb_freertos.cpp:433-456 | splitting a comma-separated list of ids gives back every id in order |
| IdMaps.PutMeaning | target_mb_freertos.cpp:1029-1030 | storing changes one key and no other |
| IdMaps.AssignMeaning | target_mb_freertos.cpp:1009-1033 | the returned id is the stored one; a known task changes nothing; a new one rewrites the entry at the gap, if there is one, to another id, and no other; ids stay at least 2 |
| IdMaps.DistinctIffGapFree | target_mb_freertos.cpp:1013-1024 | the ids stored in the map stay distinct if and only if no later entry holds the id of the gap or the next one |
| IdMaps.ArrivalOrderCanDuplicate | target_mb_freertos.cpp:1013-1024 | three arrivals out of order leave two tasks with one id |
| IdMaps.AscendingArrivals | target_mb_freertos.cpp:1013-1024 | after n tasks arrived in ascending order the map holds 2 to n and then n+1 or n+2 in key order, all distinct |
| ListedIds.AscendingIds | target_mb_freertos.cpp:1013-1032 | the ids returned for them are 3, 3, 5, 5, 7, 7 and so on |
| ListedIds.FreshIff | target_mb_freertos.cpp:1013-1024 | the id returned for a new task is held by no other if and only if no entry from the gap on holds it |
| ListedIds.KnownKeptIff | target_mb_freertos.cpp:1015-1017 | a new task leaves all other ids alone if and only if there is no gap |
| ListedIds.AgreesIff | target_mb_freertos.cpp:1009-1033 | for any map and list of tasks, the returned ids agree with the map at the end if and only if no new task found its gap at one listed before |
| ListedIds.SoundIff | target_mb_freertos.cpp:1009-1033 | they also differ if and only if no task was returned the id of one listed before, and none is listed twice |
| ListedIds.KnownTasks | target_mb_freertos.cpp:1025-1027 | tasks in the map get their ids from it and leave it as it is |
| ListedIds.FirstTasksCollide | target_mb_freertos.cpp:1013-1024 | the second of two new tasks, the first being known as the running one, is returned the same id 3, while the map stays distinct |
| IdMaps.KeepMeaning | target_mb_freertos.cpp:888-902 | erasing keeps exactly the wanted keys, with order and ids |
| TableIds.UpdateIdsIff | target_mb_freertos.cpp:630-907 | both conditions for the rows of an update against any memory: when they agree with the map, and when they also differ |
| TableIds.KnownTasksKept | target_mb_freertos.cpp:1025-1032 | ids are stable across stops that show no new task, and then differ exactly if they did |
| TableIds.FirstTableCollides | target_mb_freertos.cpp:669-676 | a first update that lists the running task and another one: rows 1, 3, 3, and 2 in the map |
| Walks.StepReady | target_mb_freertos.cpp:745-880 | after any reply the next callback finds a current list and row, and a count that is not zero before it is decremented |
| Walks.NameMeaning | target_mb_freertos.cpp:841-849 | the name of a row is the C string in the name field, or `No Name` |
| WalkRuns.StepLater | target_mb_freertos.cpp:630-880 | every reply, also a corrupt one, makes progress in stage, lists left, count not read, remaining count and phase |
| WalkRuns.WalkTerminates | target_mb_freertos.cpp:630-907 | the walk ends after finitely many replies, whatever they are |
| WalkRuns.RowsBoundedFromStart | target_mb_freertos.cpp:745-880 | the table never has more rows than one plus the counts read |
| WalkRuns.CompletedUpdate | target_mb_freertos.cpp:882-907 | after any completed update the map's keys are the walked tasks (and 1 if it was mapped or running), the count is the number of rows and row one is the current execution |
| WalkRuns.EveryReadFits | target_mb_freertos.cpp:630-880 | in all runs of the walk with 32-bit symbols and words, every read fits the request buffer |
| WalkRuns.StepMapSound | target_mb_freertos.cpp:1009-1033 | every reply keeps the map in key order with ids of at least 2 |
| WalkTables.StepTame | target_mb_freertos.cpp:669-880 | every reply, whatever it says, keeps the rows well formed: ids at most two more than the events so far, at least 2 but for the current execution, text names, complete but for the one being named |
| WalkTables.CompletedTable | target_mb_freertos.cpp:630-907 | every completed update leaves such a table |
| WalkRefines.ReplyThroughPackets | gdb_packets.cpp:68-97 | the payload of a memory reply is what comes back through both packets, exactly if the request fits |
| WalkRefines.ElemsPlayed | target_mb_freertos.cpp:803-880 | the three reads of each element tabulate one list as its recursive enumeration does |
| WalkRefines.ListsPlayed | target_mb_freertos.cpp:745-801 | the lists are tabulated in order, those without address or with count zero being skipped |
| WalkRefines.WalkRefinesEnumeration | target_mb_freertos.cpp:630-907 | against any memory the chain computes the plain recursive enumeration: rows, order, ids and counters |
| WalkRefines.ListEnumerated | target_mb_freertos.cpp:766-880 | on a well-formed list every element is visited once, in order |
| WalkRefines.TableOfHaltedTarget | target_mb_freertos.cpp:701-907 | with well-formed lists the table is the current execution and the owner of every element of every scanned list, in order, with as many threads as rows |
| Kernels.StepOnTrack | target_mb_freertos.cpp:745-880 | every reply, whatever it says, leads on through the lists in order |
| Kernels.ListsRead | target_mb_freertos.cpp:701-764 | the reads of a walk: number of tasks, running task, and then the counts of the lists, the ready lists twenty bytes apart and the five others behind them |
| Kernels.TableOfKernel | target_mb_freertos.cpp:701-907 | from the structures in memory alone: a row for every task of every list, in order, with name and state |
| Kernels.EveryTaskHasRow | target_mb_freertos.cpp:709-717 | every task on the list of any priority, and on the other lists, has a row |
| Kernels.NameInMemory | target_mb_freertos.cpp:839-849 | a task's name in memory is the name in its row |
| Kernels.CurrentIdShown | target_mb_freertos.cpp:669-690 | the running task's id is the one that the map gives it first of all |
| Registers.FieldAt | target_mb_freertos.cpp:954-974 | the reply has the field of each register, in table order, at its computed place |
| Registers.FieldDecodes | target_mb_freertos.cpp:955-973 | each field decodes to the register's bytes, or is `x` throughout |
| Registers.MicroBlazeLayout | target_mb_freertos.cpp:136-206 | the non-FPU table has 59 fields of eight characters and never reads outside the context |
| Registers.RegistersFromMemory | target_mb_freertos.cpp:935-980 | in a reply made from the context at an address each saved register shows the memory at its offset and r1 the address behind the context |
| SavedContexts.SlotsApart | target_mb_freertos.cpp:31-62 | the slots of the saved registers do not overlap, lie inside the 132 bytes of the context, and leave out the word at 124 |
| SavedContexts.RegistersOfSavedContext | target_mb_freertos.cpp:136-206 | in the reply about a saved context each register has the value saved for it, the pc that of the slot of r14, and exactly 25 fields are `x` |
| SavedContexts.RegistersAnswered | target_mb_freertos.cpp:922-979 | so has the packet that a client gets |
| Registers.RegisterReply | target_mb_freertos.cpp:948-976 | the nested loops build exactly that reply |
| StopReplies.RewriteMeaning | target_mb_freertos.cpp:583-612 | same signal, same fields in the same order, thread fields naming the selected thread, nothing behind the last field |
| StopReplies.RewrittenFields | target_mb_freertos.cpp:593-604 | signal and fields come back but for those that begin with `thread:` |
| StopReplies.RewriteIdempotent | target_mb_freertos.cpp:583-612 | rewriting twice is rewriting once |
| StopReplies.RewriteLosesNothing | target_mb_freertos.cpp:595-604 | text is lost if and only if it follows the last semicolon |
| StopReplies.LastFieldLost | target_mb_freertos.cpp:595-604 | a reply that loses its only thread field |
| StopReplies.UnabridgedKeeps | target_mb_freertos.cpp:595-604 | without thread fields the unabridged reply is the target's own, byte for byte |
| StopReplies.RewrittenPacket | target_mb_freertos.cpp:606-610 | the packet sent has the rewritten payload under a fresh, correct checksum |
| StopReplies.RewriteStopReply | target_mb_freertos.cpp:585-606 | the find loop builds exactly the rewritten reply |
| SymbolTable.StoreConsistent | target_mb_freertos.cpp:520-557 | an answer keeps the index in range while negotiating, and availability only after a complete negotiation |
| SymbolTable.NegotiationEnds | target_mb_freertos.cpp:507-557 | thirteen answers end it, slot i holds answer i, and the RTOS is available if and only if no required symbol is missing |
| SymbolTable.SymbolRequestDecodes | target_mb_freertos.cpp:618-628 | a symbol request decodes to the symbol's name |
| SymbolNames.AnswerRead | target_mb_freertos.cpp:521-527 | the address in an answer is the number in front of the second colon |
| SymbolNames.AddressNotFound | target_mb_freertos.cpp:523-525 | a number too large, or none, counts as not found |
| SymbolNames.NegotiatedByName | target_mb_freertos.cpp:220-237 | with a client that looks names up, each address ends up where the walk uses the symbol of that name, and the RTOS is available exactly if every needed name was found |
| SymbolTable.TextThroughPacket | target_mb_freertos.cpp:417-428 | text sent as hexadecimal in a packet decodes to the same text |
| QueueRuns.RunKeepsShape | proxy-conn.cpp:227-260 | in every run the queue is control packets being written, then unanswered data requests in order |
| QueueRuns.ResponsesMatchRequests | proxy-conn.cpp:136-173 | each data response finds the oldest unanswered data request in front |
| QueueRuns.WrittenAsSent | proxy-conn.cpp:227-246 | in every run each packet sent is written once, as it is, in order, and nothing else is |
| QueueRuns.LateControl | proxy-conn.cpp:227-260 | what the queue holds after a control packet is sent behind waiting requests and all writes complete: the first of them is gone |
| QueueRuns.AckLosesRequestIff | proxy-conn.cpp:253-256 | for every history, the queue still holds the unanswered requests after an acknowledgement if and only if there were none |
| QueueRuns.LateAckLosesRequest | proxy-conn.cpp:253-256 | a witness: one request, and an acknowledgement too early |
| Connections.Connection.StartRequestWrite | proxy-conn.cpp:227-260 | breaks go to the front, all else to the back, and the packet is written |
| Connections.Connection.StartResponseWrite | proxy-conn.cpp:227-260 | the same on the responses channel |
| Connections.Connection.RequestWriteDone | proxy-conn.cpp:246-259 | completion takes the front element out only for control packets |
| Connections.Connection.ResponseWriteDone | proxy-conn.cpp:246-259 | completion takes the front element out |
| Connections.Connection.PushInternalRequest | proxy-conn.cpp:175-182 | queues and writes a request of the proxy with its callback |
| Connections.Connection.PushRequest | proxy-conn.cpp:184-191 | queues and writes a request of the client |
| Connections.Connection.PushInternalResponse | proxy-conn.cpp:193-196 | queues and writes a response to the client |
| TargetModel.RequestHasOneEffect | target_mb_freertos.cpp:259-561 | every request that is handled sends exactly one data packet, every other one none |
| TargetModel.CallbackHasOneEffect | target_mb_freertos.cpp:571-980 | every callback of the proxy's own requests sends exactly one data packet, that of a client's request none |
| TargetModel.BuiltIsData | gdb-packet.cpp:30-45 | whatever the payload, a built packet is a data packet |
| Routing.ResumeRouted | target_mb_freertos.cpp:266-282 | exactly the packets that resume the target, told by their text, go on as requests for a stop reply |
| Routing.ContinueIsResume | target_mb_freertos.cpp:274-282 | `vCont;c` is one of them, `vCont?` is not |
| Routing.AliveAnswered | target_mb_freertos.cpp:308-334 | `OK` for a complete row with the id, `E01` without, and which ids are left to the target |
| Routing.SelectRouted | target_mb_freertos.cpp:337-355 | the thread is selected in any case, and when the client gets `OK` from the proxy |
| Routing.RegistersRouted | target_mb_freertos.cpp:284-305 | exactly when a register read is left to the target, in particular for the running task |
| Routing.ListAnswered | target_mb_freertos.cpp:433-456 | the list of rows, or an empty answer |
| Routing.InfoRefused | target_mb_freertos.cpp:396-400 | `E01` for an id without a row |
| Routing.TextAbout | target_mb_freertos.cpp:402-416 | the text about a thread, with and without name and state |
| Routing.CurrentAnswered | target_mb_freertos.cpp:487-499 | the running task's id, which a client reads back; `qCRC:` is left to the target |
| Routing.SupportedRouted | target_mb_freertos.cpp:371-382 | `qSupported` goes to the target as it is |
| Routing.SupportedAnswered | target_mb_freertos.cpp:374-380 | ids name a process from then on exactly if they did or the target offers it |
| Routing.OthersForwarded | target_mb_freertos.cpp:259-367 | every other data packet is left to the target and changes nothing |
| Targets.TargetMbFreertos.constructor | target_mb_freertos.cpp:241-249 | only the current execution, selected, and no symbols |
| Targets.TargetMbFreertos.GetThreadId | target_mb_freertos.cpp:1009-1033 | the search loop, with its in-place change, computes the specified map and id |
| Targets.TargetMbFreertos.UpdateThreads | target_mb_freertos.cpp:630-645 | begins a walk, or ends at once when there is no RTOS |
| Targets.TargetMbFreertos.OnCurrentThread | target_mb_freertos.cpp:669-698 | opens the table, and ends the walk when the incremented count is one |
| Targets.TargetMbFreertos.GetThreadListsCount | target_mb_freertos.cpp:727-743 | asks for the number of ready lists, or takes eight |
| Targets.TargetMbFreertos.CollectLists | target_mb_freertos.cpp:709-717 | the loop collects the ready lists, twenty bytes apart, and five more |
| Targets.TargetMbFreertos.ProcessReadyLists | target_mb_freertos.cpp:703-725 | starts scanning the collected lists |
| Targets.TargetMbFreertos.GetThreadListData | target_mb_freertos.cpp:745-764 | the loop skips lists without address and ends the walk behind the last |
| Targets.TargetMbFreertos.OnListCount | target_mb_freertos.cpp:771-785 | stores the count and leaves empty lists |
| Targets.TargetMbFreertos.OnElemPtr | target_mb_freertos.cpp:793-800 | goes to the first element |
| Targets.TargetMbFreertos.GetListElemThreadId | target_mb_freertos.cpp:803-818 | leaves the list at count zero, null or a repeated element, or reads the owner |
| Targets.TargetMbFreertos.OnOwner | target_mb_freertos.cpp:818-829 | appends the owner's row with its id |
| Targets.TargetMbFreertos.OnName | target_mb_freertos.cpp:839-869 | completes the last row, counts the element and reads its successor |
| Targets.TargetMbFreertos.OnElemNext | target_mb_freertos.cpp:870-878 | moves to the successor, remembering the element |
| Targets.TargetMbFreertos.UpdateThreadsDone | target_mb_freertos.cpp:882-907 | closes the table, erases stale ids and sends the stop reply |
| Targets.TargetMbFreertos.EraseMissing | target_mb_freertos.cpp:888-902 | the erase-while-iterating loop keeps exactly the entries with a row |
| Targets.TargetMbFreertos.SendStopReply | target_mb_freertos.cpp:583-612 | one rewritten stop reply goes to the client |
| Targets.TargetMbFreertos.GetThreadStackPtr | target_mb_freertos.cpp:922-925 | reads the saved stack pointer |
| Targets.TargetMbFreertos.OnRegisters | target_mb_freertos.cpp:941-979 | one register block goes to the client |
| Targets.TargetMbFreertos.RunCallback | proxy-conn.cpp:155-162 | each callback has its specified effect on state and queues |
| Targets.TargetMbFreertos.RequestSymbol | target_mb_freertos.cpp:618-628 | one request for the current symbol goes to the client |
| Targets.TargetMbFreertos.CheckRequired | target_mb_freertos.cpp:536-545 | the loop finds whether a required symbol is missing |
| Targets.TargetMbFreertos.HandleSymbolAnswer | target_mb_freertos.cpp:521-558 | stores the answer and asks on, or finishes |
| Targets.TargetMbFreertos.ReplyThreadList | target_mb_freertos.cpp:437-456 | the loop builds the list of all ids, comma-separated |
| Targets.TargetMbFreertos.HandleExtraInfo | target_mb_freertos.cpp:384-430 | answers with the text of the first matching row, or an error |
| Targets.TargetMbFreertos.HandleThreadAlive | target_mb_freertos.cpp:308-334 | answers whether a complete row has the id |
| Targets.TargetMbFreertos.HandleQueryPacket | target_mb_freertos.cpp:369-561 | every query has its specified effect |
| Targets.TargetMbFreertos.ProcessRequest | target_mb_freertos.cpp:259-367 | every request has its specified effect, and is reported handled or not |
| Sessions.ClientEventGood | proxy-conn.cpp:123-134 | a client packet keeps the account of requests and answers |
| Sessions.TargetDataGood | proxy-conn.cpp:136-173 | a data response keeps it too |
| Sessions.OneReplyPerRequest | proxy-conn.cpp:123-196 | in all runs of a synchronous client, requests less answers are zero or one and equal to the data requests waiting; symbol negotiation is consistent throughout |
| Sessions.NewIsGood | target_mb_freertos.cpp:992-1000 | a new session is a good start |
| Sessions.IdsInAllRuns | target_mb_freertos.cpp:1009-1033 | in all runs every mapped id is at least 2, hence never that of the current execution |
| Traffic.RunWrites | proxy-conn.cpp:123-260 | in every run exactly the stated packets are written to the target and to the client, in this order |
| Traffic.EventWrites | proxy-conn.cpp:136-173 | what each event writes; acknowledgements of the proxy's own requests are kept from the client, all other control packets are passed on |
| Traffic.NotTakenArePassed | proxy-conn.cpp:287-294 | every client packet that the target object does not take is written to the target once, unchanged, in order of arrival |
| Traffic.AwaitedIsWritten | proxy-conn.cpp:227-260 | in all runs a response is only awaited for a packet that was written |
| Traffic.AcksOffIff | proxy-conn.cpp:146-152 | acknowledgements are off exactly if they were or `OK` answered `QStartNoAckMode` |
| Updates.ControlEvent | proxy-conn.cpp:136-173 | write completions, acknowledgements and breaks change neither what waits nor what the client got |
| Updates.RespondProgress | proxy-conn.cpp:136-173 | any acceptable response answers the client with one packet or comes closer to that in a well-founded order |
| Updates.AnswerComes | proxy-conn.cpp:123-196 | every waiting request is answered with exactly one data packet, in every run in which a response still comes while one waits, whatever it says |
| Updates.OnlyResponsesMatter | proxy-conn.cpp:123-260 | against a halted target only the number of responses matters, not what happens between them |
| Updates.WalkServed | target_mb_freertos.cpp:647-907 | the reads of a walk, served from memory through packets, are written to the target in order and end with the walk's table and one packet to the client |
| Updates.StopWithTable | target_mb_freertos.cpp:563-616 | resume, stop, walk and reply from end to end, in every run against a halted 32-bit target: what the target was asked, one stop reply, and the table is the plain enumeration |
| Updates.StopReached | target_mb_freertos.cpp:563-616 | that end is reached in every run in which the target goes on responding |
| Updates.StopWithoutRtos | target_mb_freertos.cpp:630-636 | without an RTOS the rewritten stop reply goes to the client at once |
| Updates.ServingGoesOn | proxy-conn.cpp:136-173 | such runs can always go on: the response waited for is possible |
| Contexts.RegisterRequest | target_mb_freertos.cpp:287-305 | the word at the selected id is read, and the request fits exactly for ids from 0 below 2^60 |
| Contexts.AllThreadsDoNotFit | target_mb_freertos.cpp:299-302 | the id -1: a request cut off behind the comma, which no server can decode |
| Contexts.PointerServed | target_mb_freertos.cpp:922-933 | the word at the selected id, or the error reply read as a number, becomes the stack pointer |
| Contexts.PointerInBuffer | target_mb_freertos.cpp:935-941 | the context request that follows stays inside its buffer |
| Contexts.RegistersShown | target_mb_freertos.cpp:287-305 | a register read from end to end: two responses, one packet, and each of its registers shows memory |
| Contexts.ContextOfRow | target_mb_freertos.cpp:299-302 | the stack pointer comes from the task of the selected row if and only if the row's id is its address |
| Contexts.LargeAddressMissed | target_mb_freertos.cpp:299-302 | no task at an address above the number of events is ever the one read |
| Contexts.FirstTaskMissed | target_mb_freertos.cpp:1009-1033 | a witness: the first task gets id 3, wherever it is |
| Proxies.Proxy.OnRequest | proxy-conn.cpp:123-134 | counts data requests and routes them |
| Proxies.Proxy.OnResponse | proxy-conn.cpp:136-173 | runs the callback of the oldest request, removes it, and decides about forwarding |
| Proxies.Proxy.ClientPacket | proxy-conn.cpp:287-294 | unhandled packets go on to the target |
| Proxies.Proxy.TargetPacket | proxy-conn.cpp:287-294 | unhandled packets go on to the client |
| Proxies.Proxy.HandleAll | proxy.cpp:54-54 | the objects go through every possible run and end in the state that the run specifies |
| Proxies.ShortRepliesInBounds | gdb_packets.cpp:71-79 | with stack pointers of the four bytes asked for, no request of a run overruns its buffer |
| Links.CutsDoNotMatter | proxy-conn.cpp:206-299 | for a given order of both sides' bytes and the write completions, cutting the reads differently leads to the same parsers and the same session |
| Links.FramesDriveSession | proxy-conn.cpp:272-294 | frames received in any pieces are to the session a run of exactly the packets they mean |
| Dialogues.ThreadListDecodes | target_mb_freertos.cpp:433-456 | a client that decodes the thread list gets every row's id in order |
| Dialogues.TablesInAllRuns | target_mb_freertos.cpp:630-907 | in all runs the table is well formed, with ids no larger than the number of events and two |
| Dialogues.NewTableTame | target_mb_freertos.cpp:992-1000 | a new session starts with such a table |
| Dialogues.StopShowsTasks | target_mb_freertos.cpp:563-616 | after a stop from end to end the table shows every task in memory, and the lists were read in order |
| Dialogues.StopListsIff | target_mb_freertos.cpp:433-456 | after a stop from end to end, the listed ids agree with the map, and also differ, exactly under the two conditions |
| Dialogues.EachRowFoundIff | target_mb_freertos.cpp:384-401 | asking by listed ids reaches every row if and only if the ids differ |
| Dialogues.CollidingList | target_mb_freertos.cpp:437-456 | the list of the colliding table is `m1,3,3` |
| Dialogues.TableShown | target_mb_freertos.cpp:308-456 | in every reachable state the three queries about listed threads get answers that decode to the table |
| Dialogues.ExtraInfoDecodes | target_mb_freertos.cpp:384-430 | the answer to a listed id decodes to the name and state of the first row with that id, which is its own when ids do not repeat |
| Dialogues.ListedThreadsAlive | target_mb_freertos.cpp:308-334 | every listed thread with a complete row is reported alive under its listed name |
| Dialogues.SelectionShown | target_mb_freertos.cpp:337-355 | the selected thread is the one that later stop replies name in every thread field |
| Dialogues.SymbolsNegotiated | target_mb_freertos.cpp:506-558 | the whole negotiation: which requests go to the client, that the client's request goes to the target once, and what the table then holds |

## Left out

- Sockets, name resolution, connecting, shutdown, option parsing, logging, threads of the operating system: reads, write completions and packets are events of the model.
- Write errors and reads that end a connection: the model has no closed connection.
- Object lifetimes: references into queues and vectors are always to the element meant; a break overtaking a control packet whose write is pending leaves such a reference dangling in the program.
- Allocation failures: run counts far below a space, and bytes from 128 up as counts, can make `reserve` throw; the model repeats nothing for them.
- Reads that fill the whole 8192-byte buffer: `ReadDone` requires less, since the terminating NUL would overrun it.
- `data_crc()` of packets that are not complete data packets, and checksum characters that are not hexadecimal: the program never asks for them while forwarding.
- `strtoull`, `stoull`: only their reading of plain hexadecimal digits; leading blanks, signs, `0x` and a stale `errno` are not modelled.
- MemoryReadReq: requires that the text is at most one byte too long for its buffer. Beyond that the program reads bytes behind the buffer, which the model cannot know; only a context read at 2^60 or above gets there (`CallbackInBufferIff`).
- Ids as `int32_t`: the counter is unbounded here; it would overflow only with two thousand million tasks.
- The text of the least 64-bit thread id, whose negation overflows.
- Stop replies other than `T` and error replies to reads of a saved context: the program throws or reads outside the buffer; `Possible` excludes them. `v` packets shorter than six bytes make it throw too (`Readable`).
- Pipelined data requests in `Sessions`: two walks at once would share one table. `QueueRuns` has no such restriction.
- Upward-growing stacks, FPU contexts and non-stop mode: not used by the program.
- The `null` target and the command-line decoder: nothing to prove.
