# Models of the C libraries of the client

Eight components of the repository are modelled and proved correct here:

- **KCP** (`Kcp*.dfy`): the reliable transport. `KcpSpec` is one endpoint as a value with its steps, `KcpWire` the segment
  format, `KcpSystem` two endpoints and a network that loses, repeats and reorders, `KcpWindow` the window invariants on the
  32-bit ring, `KcpProgress`, `KcpQuiet` and `KcpStuck` exactly when a fair round advances, `KcpControl` the bounds of timers
  and congestion control, and `KcpEndpoint` the object itself, with its queues, acknowledgement array and output buffer changed
  in place.
- **The Lua code generator** (`Lua*.dfy`): short-circuit expressions. `LuaMachine` is the meaning of the instructions used,
  `LuaGen` the generator on values with jump lists as sequences, `LuaCompile` and the modules it uses prove that meaning is
  preserved, `LuaThreads` relates lists to the links stored in jump offsets, and `LuaFuncState` is the generator in place.
- **The protobuf runtime** (`Pb*.dfy`): the hash table with relocation, unrolled varints, the growing buffer with lengths
  inserted after the fact, and the message encoder and decoder.
- **dtoa** (`Dtoa*.dfy`): big integers in word arrays, the cached powers of 5, scaling, and correctly rounded digits.
- **sproto** (`Sproto*.dfy`): records with tag gaps, integer arrays widened in place, and zero-packing.
- **cjson** (`Json*.dfy`): printer, tokenizer and parser, with the appends that do not check for room.
- **The DES text codec** (`Des*.dfy`) and **the reference allocator** (`LuaRef.dfy`).

Each in-place class or method is proved equal to a function on values, and the properties are proved of these functions: for
all inputs, all reachable states or all runs. `Basics.dfy` holds machine words and what else all parts share.

Some things the code does that its users may not expect are stated as such:

- A segment already received that lies more than half the ring before the end of the receive window is neither kept nor
  acknowledged, so with very wide windows a fair round may bring nothing (`KcpStuck.StuckRound`; `KcpProgress.RoundAdvances` has
  the exact condition).
- A length of 2^32 - 4 or more passes the length test of `sproto_decode`, which then reads beyond its data or treats the record as
  whole (`SprotoWrap.WrapLeaves`, `SprotoWrap.WrapPasses`); `SprotoWrap.RecordLeaves` says exactly when it leaves its data.
- The DES decoder scans beyond its buffer for a text of one block that decrypts to zeros, and for no other (`Des.DecodeLeaves`).
- An empty array prints as an empty object (`JsonRoundTrip.JsonBack`).
- A reference freed twice is handed out twice (`LuaRef.Registry.FreeTwice`; `LuaRef.UnrefSound` says exactly which may be freed).

## Model

| member | source | states |
|---|---|---|
| `KcpSystem.EndToEnd` | client/3rd/kcp/ikcp.c:358-537 | For every run of two endpoints over a network that may lose, repeat and reorder datagrams but not invent them, both in message mode and with fewer than 2^31 segments each way: at every moment each side has received exactly a prefix of the messages the other side accepted for sending. Both directions at once. |
| `KcpSystem.Conservation` | client/3rd/kcp/ikcp.c:560-607 | Along every run, both ways: each segment number below `snd_nxt` is in the sender's `snd_buf`, in the receiver's `rcv_buf` or below its `rcv_nxt`; and `snd_una` does not pass `rcv_nxt` while the receiver has room. |
| `KcpProgress.RoundAdvances` | client/3rd/kcp/ikcp.c:593-607 | In every reachable state with the oldest segment due and room at the receiver, a round (sender flush, delivery, receiver flush, delivery) strictly advances `snd_una` if and only if the receiver answers, that is, has acknowledgements, window probes or data to send after the first half; the window guard lets the oldest segment through if and only if `rcv_nxt - snd_una + rcv_wnd` is at most 2^31, and then the round always advances. |
| `KcpQuiet.QuietRoundAdvances` | client/3rd/kcp/ikcp.c:1048-1114 | The same from the state before the round, for a receiver with no data of its own: the round advances `snd_una` if and only if acknowledgements already wait, a segment of the sender's flush passes the window guard, or the receiver is prompted to speak of windows (asked before, asked by this flush, or its own probe due). |
| `KcpQuiet.QuietAnswers` | client/3rd/kcp/ikcp.c:956-1014 | Such a receiver sends something after the first half exactly in these cases. |
| `KcpQuiet.FlushTells` | client/3rd/kcp/ikcp.c:943-1014 | Every segment of a flush announces the same window, and one of them asks for the other side's window exactly when the probe timer says so. |
| `KcpProgress.BehindWindow` | client/3rd/kcp/ikcp.c:827 | A segment already received passes the window guard of `ikcp_input` exactly when `rcv_nxt - sn + rcv_wnd` is at most 2^31. |
| `KcpProgress.PushAllAnswers` | client/3rd/kcp/ikcp.c:827-846 | After any data segments a receiver has something to acknowledge if and only if it had before or one of them passes the window guard. |
| `KcpProgress.HeadArrives` | client/3rd/kcp/ikcp.c:683-743 | The oldest unacknowledged segment, arriving within the guard at a receiver with room, is acknowledged, and `rcv_nxt` is then beyond it. |
| `KcpProgress.FlowAdvances` | client/3rd/kcp/ikcp.c:1048-1114 | Progress of one direction: the round advances its sender if and only if its receiver answers. |
| `KcpStuck.StuckRound` | client/3rd/kcp/ikcp.c:1272-1283 | A run that ends in a state with the oldest segment due and room at the receiver from which a whole round leaves `snd_una` where it was: both windows are 2^31 - 1, two segments were received and both acknowledgements lost, and only the first is due. |
| `KcpWindow.InputKeepsInv` | client/3rd/kcp/ikcp.c:749-900 | Arbitrary bytes given to `ikcp_input`, counters anywhere on the word ring: `snd_buf` and `rcv_buf` stay in serial order, `snd_una` is the number of the head or `snd_nxt`, and both windows and the queue bound are kept, also when the datagram is rejected half way. |
| `KcpWindow.FlushKeepsInv` | client/3rd/kcp/ikcp.c:931-1138 | `ikcp_flush` keeps the same invariant. |
| `KcpWindow.UpdateKeepsInv` | client/3rd/kcp/ikcp.c:1146-1171 | `ikcp_update` keeps the same invariant. |
| `KcpWindow.RecvKeepsInv` | client/3rd/kcp/ikcp.c:358-435 | `ikcp_recv`, peeking or not, keeps the same invariant. |
| `KcpWindow.SendKeepsInv` | client/3rd/kcp/ikcp.c:469-537 | `ikcp_send` keeps the same invariant. |
| `KcpWindow.WindowReading` | client/3rd/kcp/ikcp.c:136-139 | What the invariant means to the serial comparison `_itimediff`: any two buffered numbers compare in list order, all lie in `[snd_una, snd_nxt)` or `[rcv_nxt, rcv_nxt + rcv_wnd)`, and `snd_buf` is no longer than the window. |
| `KcpWindow.DiffIsDistance` | client/3rd/kcp/ikcp.c:136-139 | The serial comparison of two numbers is the difference of their distances from any base both lie less than half a ring beyond. |
| `KcpDatagram.FlushParsesBack` | client/3rd/kcp/ikcp.c:956-1114 | Each datagram of a flush is not empty, fits the mtu and ends at a segment boundary; reading all of them back in order gives exactly the acknowledgements, probes and data segments the flush chose. |
| `KcpWire.ParseRoundTrip` | client/3rd/kcp/ikcp.c:761-869 | Any segments encoded one after the other are read back by the loop of `ikcp_input` exactly, without an error. |
| `KcpWire.TimesIsProduct` | client/3rd/kcp/ikcp.c:884-893 | The multiplication of the congestion-window growth is the product modulo 2^32. |
| `KcpWire.QuotientIsFloor` | client/3rd/kcp/ikcp.c:886-893 | The division of the congestion-window growth is the integral part of the quotient. |
| `KcpSpec.FragTotalIsCeiling` | client/3rd/kcp/ikcp.c:507-508 | The number of pieces of a message is its length over the segment size, rounded up. |
| `KcpMessages.FragmentsAre` | client/3rd/kcp/ikcp.c:513-534 | The pieces of a message are numbered down to 0, none is longer than the segment size, and joined they are the message. |
| `KcpMessages.PeekIsMergedSize` | client/3rd/kcp/ikcp.c:441-460 | The length `ikcp_peeksize` announces is the length of what `ikcp_recv` then merges, so the assertion in `ikcp_recv` cannot fail. |
| `KcpMessages.FrontMessage` | client/3rd/kcp/ikcp.c:384-418 | When the pieces of a message are at the front of the queue and it is complete, merging takes exactly these pieces and gives the message. |
| `KcpControl.AlwaysSteady` | client/3rd/kcp/ikcp.c:931-1138 | From creation on, after any calls in any order and any bytes from the network: the timeout is 200 until some datagram brings an acknowledgement that measures a round trip, and between its minimum and 60000 from then on, the probe wait is 0 or between 7000 and 120000, the slow-start threshold is at least 2, a segment sent n times, n up to 16, has a timer of at most 60000 doubled n - 1 times; and a flush leaves a congestion window of at least 1. |
| `KcpControl.InputSteady` | client/3rd/kcp/ikcp.c:749-900 | Whatever bytes arrive, these bounds hold afterwards, also when the datagram is rejected half way. |
| `KcpControl.FlushSteady` | client/3rd/kcp/ikcp.c:970-1137 | A flush keeps the bounds, leaves a congestion window of at least 1, and no segment it has just sent is due again at that instant, up to its sixteenth time. |
| `KcpControl.RttSmooths` | client/3rd/kcp/ikcp.c:543-558 | The smoothed time lies between the last one and the one measured, or is 1, and the timeout is within its bounds. |
| `KcpControl.RttFits` | client/3rd/kcp/ikcp.c:543-558 | For times below 2^28 and an interval up to 5000 no sum of the estimator leaves a signed word, and the estimates never exceed the largest time measured. |
| `KcpControl.GrowBounded` | client/3rd/kcp/ikcp.c:876-900 | Growth of the congestion window never passes the window the other side announced, and touches none of the bounds. |
| `KcpControl.XmitPatient` | client/3rd/kcp/ikcp.c:1048-1083 | A segment that goes out keeps its wait within the doubling bound, and up to its sixteenth time has its timer in the future, for each of the three reasons and each back-off. |
| `KcpControl.ProbeBounded` | client/3rd/kcp/ikcp.c:970-990 | The probe wait stays between 7000 and 120000, never shrinks while the other side's window is closed, and is 0 exactly when it is open; a probe that goes out sets the timer to the future. |
| `KcpControl.SettleBounded` | client/3rd/kcp/ikcp.c:1116-1137 | The congestion window is at least 1; after a timeout it is 1 and the threshold half of what it was, but at least 2. |
| `KcpEndpoint.Ikcp.constructor` | client/3rd/kcp/ikcp.c:234-295 | The fields set in place are those of the initial state, and nothing has been put out. |
| `KcpEndpoint.Ikcp.Send` | client/3rd/kcp/ikcp.c:469-537 | In place, on fields and queues: return code and new state are those of the step `Send` of the protocol, for which the run theorems are proved; negative lengths and messages of too many pieces give the source's error codes. |
| `KcpEndpoint.Ikcp.Recv` | client/3rd/kcp/ikcp.c:358-435 | In place: return code, bytes copied out and new state are those of the step `Recv`, peeking included. |
| `KcpEndpoint.Ikcp.Peeksize` | client/3rd/kcp/ikcp.c:441-463 | -1 unless a whole message waits, else its length, by walking the queue. |
| `KcpEndpoint.Ikcp.Input` | client/3rd/kcp/ikcp.c:749-900 | In place, on any bytes: return code and new state are those of the step `Input`. |
| `KcpEndpoint.Ikcp.Flush` | client/3rd/kcp/ikcp.c:931-1138 | In place, through the output buffer: the datagrams put out and the new state are those of the step `Flush`. |
| `KcpEndpoint.Ikcp.Update` | client/3rd/kcp/ikcp.c:1146-1171 | In place: clock and flush timer, and a flush when one is due, as the step `Update`. |
| `KcpEndpoint.Ikcp.ParseUna` | client/3rd/kcp/ikcp.c:593-607 | The loop leaves `snd_buf` without its leading segments before `una`, and the counter equals its length. |
| `KcpEndpoint.Ikcp.ParseAck` | client/3rd/kcp/ikcp.c:571-591 | The search removes exactly the acknowledged segment, if it is outstanding. |
| `KcpEndpoint.Ikcp.ParseFastack` | client/3rd/kcp/ikcp.c:609-631 | Counters of the segments before the acknowledged one go up by one, in place; nothing else changes. |
| `KcpEndpoint.Ikcp.ShrinkBuf` | client/3rd/kcp/ikcp.c:560-569 | `snd_una` becomes the number of the head of `snd_buf`, or `snd_nxt` when it is empty. |
| `KcpEndpoint.Ikcp.UpdateAck` | client/3rd/kcp/ikcp.c:543-558 | In place: smoothed round-trip time, its variance and the timeout are those of the value-level step, whose bounds are `RttSmooths` and `RttFits`. |
| `KcpEndpoint.Ikcp.AckPush` | client/3rd/kcp/ikcp.c:637-671 | The pair is appended to the acknowledgements whether or not the doubled array had to be allocated. |
| `KcpEndpoint.Ikcp.AckGet` | client/3rd/kcp/ikcp.c:673-677 | The pair with that index. |
| `KcpEndpoint.Ikcp.ParseData` | client/3rd/kcp/ikcp.c:683-743 | Backward search, insertion unless repeated or outside the window, and the move of what is available to the queue, as the value-level step. |
| `KcpEndpoint.Ikcp.FindSlot` | client/3rd/kcp/ikcp.c:694-709 | The backward search finds the place that keeps the list in serial order, or the repeat. |
| `KcpEndpoint.Ikcp.MoveAvailable` | client/3rd/kcp/ikcp.c:720-732 | The loop moves exactly the consecutive segments from `rcv_nxt` on that the queue has room for. |
| `KcpEndpoint.Ikcp.EncodeSeg` | client/3rd/kcp/ikcp.c:906-917 | Writes the 24 header bytes at the pointer, leaves what is before, and moves the pointer by 24. |
| `KcpEndpoint.Ikcp.Put` | client/3rd/kcp/ikcp.c:956-966 | A segment that does not fit first sends the buffer off; datagrams and buffer then hold the segments so far and this one, cut at segment boundaries and never beyond the mtu. |
| `KcpEndpoint.Ikcp.WndUnused` | client/3rd/kcp/ikcp.c:919-925 | The free places of the receive queue, cut to 16 bits as in the header. |
| `KcpEndpoint.Ikcp.PromoteQueue` | client/3rd/kcp/ikcp.c:1018-1042 | Moves from `snd_queue` to `snd_buf`, numbered from `snd_nxt` on, what the window admits. |
| `KcpEndpoint.Ikcp.Decide` | client/3rd/kcp/ikcp.c:1048-1083 | Whether a segment goes out now (first time, timeout, overtaken often enough), and its new timers and counters. |
| `KcpEndpoint.Ikcp.Transmit` | client/3rd/kcp/ikcp.c:1048-1114 | The transmission loop sends exactly the segments with a reason, in order, updating each in place. |
| `KcpEndpoint.Ikcp.ProbeWindow` | client/3rd/kcp/ikcp.c:970-990 | In place: the window-probe timer is that of the value-level step, whose bounds are `ProbeBounded`. |
| `KcpEndpoint.Ikcp.SettleCwnd` | client/3rd/kcp/ikcp.c:1116-1137 | In place: the congestion window after losses and fast retransmissions is that of the value-level step, whose bounds are `SettleBounded`. |
| `LuaPending.FunctionOfExpression` | client/3rd/lua/lcode.c:675-707 | For every tree of not, and, or and comparisons over locals and constants: the code for it leaves no jump pending, and a run from the first instruction to the last puts the value of the tree into the next register, keeps the registers below, or raises the error the tree raises. |
| `LuaFuncState.CompileExpression` | client/3rd/lua/lcode.c:1086-1171 | The same of the code array that the in-place generator leaves, jump lists threaded through it and all: for every world and register file it computes the expression. |
| `LuaCompile.CompileOk` | client/3rd/lua/lcode.c:1086-1171 | By structure: from any well-formed code, compiling a tree keeps the code well formed and gives an expression whose main value and jump lists together mean the value of the tree. |
| `LuaCompile.ExpressionValue` | client/3rd/lua/lcode.c:703-708 | Code in front included: runs that reached the expression go on with its value in the first free register, or raise its error; runs that did not reach it end as before. |
| `LuaPending.NothingLeftWaiting` | client/3rd/lua/lcode.c:703-708 | After the value is in a register, the jumps still pending are among those that were pending before. |
| `LuaPending.CompileWaits` | client/3rd/lua/lcode.c:116-143 | Every jump that waits after an expression has been compiled is in one of its lists, or waited before. |
| `LuaNot.NotState` | client/3rd/lua/lcode.c:910-939 | Negation preserves meaning: for each kind of operand the result means `not` of what the operand meant, the value-producing tests of its lists stripped. |
| `LuaConditions.GoIfTrueState` | client/3rd/lua/lcode.c:857-878 | Control falls through exactly when the expression is true, leaves through the false list exactly when it is false, and the true list is empty. |
| `LuaConditions.GoIfFalseState` | client/3rd/lua/lcode.c:884-904 | Control falls through exactly when the expression is false, and leaves through the true list exactly when it is true. |
| `LuaConditions.JumpOnCondState` | client/3rd/lua/lcode.c:839-851 | Control leaves through the new jump exactly when the main value has the wanted truth, also when the code ended in a NOT that is taken back. |
| `LuaConditions.NegatedRuns` | client/3rd/lua/lcode.c:825-830 | Negating the test at the end exchanges going on and leaving, for every run. |
| `LuaCompile.CompareMeans` | client/3rd/lua/lcode.c:1037-1060 | A comparison behind both operands means the comparison of their values, with errors in the order of evaluation. |
| `LuaOperands.RegState` | client/3rd/lua/lcode.c:675-696 | Whatever the expression was, its value is then in the target register with both lists closed, and the meaning is kept. |
| `LuaOperands.NextRegState` | client/3rd/lua/lcode.c:703-708 | The meaning is kept, with the value in the next register. |
| `LuaOperands.AnyRegState` | client/3rd/lua/lcode.c:715-727 | The meaning is kept, with the value in some register. |
| `LuaOperands.ValState` | client/3rd/lua/lcode.c:744-749 | The meaning is kept and no jumps are left. |
| `LuaOperands.RKState` | client/3rd/lua/lcode.c:758-776 | The meaning is kept, with the value in a register or in the table of constants, where the operand finds it. |
| `LuaClose.CloseRuns` | client/3rd/lua/lcode.c:675-696 | Closing both lists of an expression, with or without the two appended loads: every run that ended with a value of the expression now falls through with that value in the register. |
| `LuaRuns.ExecPatched` | client/3rd/lua/lcode.c:224-240 | A run of patched code is the run of the unpatched code that goes on where the patched jumps now lead, with the values the patched tests now store. |
| `LuaRuns.LeavesThroughPending` | client/3rd/lua/lcode.c:136-143 | A run can leave only through a pending jump. |
| `LuaThreads.AbsRuns` | client/3rd/lua/lcode.c:90-96 | Stored code without pending jumps, its destinations kept as offsets, runs as the code with destinations worked out. |
| `LuaThreads.FixedAbs` | client/3rd/lua/lcode.c:224-234 | Patching the offsets stored in the code is patching the destinations. |
| `LuaThreads.RelinkedIsList` | client/3rd/lua/lcode.c:116-127 | After concatenation the code holds one list: the jumps of the first and then those of the second. |
| `LuaThreads.FixedList` | client/3rd/lua/lcode.c:224-234 | Patching one list leaves every list disjoint from it threaded as it was. |
| `LuaFuncState.FuncState.Concat` | client/3rd/lua/lcode.c:116-127 | Walks to the end of the first list and links the second; the head returned is that of the joined list. |
| `LuaFuncState.FuncState.FixJump` | client/3rd/lua/lcode.c:103-110 | Exactly one instruction changes: the jump gets the offset of the destination. |
| `LuaFuncState.FuncState.Jump` | client/3rd/lua/lcode.c:136-143 | Emits a jump that heads the list of the jumps that were to come here. |
| `LuaFuncState.FuncState.PatchTestReg` | client/3rd/lua/lcode.c:195-207 | Only a value-producing test before the jump changes: it stores to the register, or becomes a plain test. |
| `LuaFuncState.FuncState.PatchListAux` | client/3rd/lua/lcode.c:224-234 | The walk patches every jump of the list while the links it follows are being overwritten. |
| `LuaFuncState.FuncState.RemoveValuesOf` | client/3rd/lua/lcode.c:213-216 | No test of the list produces a value any more. |
| `LuaFuncState.FuncState.DischargeJpc` | client/3rd/lua/lcode.c:242-245 | The jumps to "here" get the next position as destination. |
| `LuaFuncState.FuncState.PatchToHere` | client/3rd/lua/lcode.c:252-255 | The list joins the jumps to "here". |
| `LuaFuncState.FuncState.NeedValue` | client/3rd/lua/lcode.c:659-665 | Whether some jump of the list brings no value. |
| `LuaFuncState.FuncState.Code` | client/3rd/lua/lcode.c:293-305 | Appends one instruction after settling the jumps to "here"; lists of waiting jumps stay threaded. |
| `LuaFuncState.FuncState.CondJump` | client/3rd/lua/lcode.c:158-161 | Appends a test and its jump, which is a list of its own. |
| `LuaFuncState.FuncState.AddK` | client/3rd/lua/lcode.c:428-452 | The value gets an index of the table of constants that holds it, reused if the scanner's cache still tells the truth; earlier constants stay. |
| `LuaFuncState.FuncState.LoadNilAt` | client/3rd/lua/lcode.c:64-83 | Loads nil, merged into a preceding load of nil only where no jump comes between. |
| `LuaFuncState.FuncState.Discharge2Reg` | client/3rd/lua/lcode.c:595-635 | In place: what the value-level step does, with the lists of others untouched. |
| `LuaFuncState.FuncState.Exp2Reg` | client/3rd/lua/lcode.c:675-696 | In place, with the two loads where needed: state, expression and pending jumps of others as the value-level step. |
| `LuaFuncState.FuncState.Exp2NextReg` | client/3rd/lua/lcode.c:703-708 | In place: as the value-level step, with the lists of other expressions untouched. |
| `LuaFuncState.FuncState.Exp2AnyReg` | client/3rd/lua/lcode.c:715-727 | In place: as the value-level step, with the lists of other expressions untouched. |
| `LuaFuncState.FuncState.Exp2RK` | client/3rd/lua/lcode.c:758-776 | In place: as the value-level step, with the lists of other expressions untouched. |
| `LuaFuncState.FuncState.NegateCondition` | client/3rd/lua/lcode.c:825-830 | The comparison before the jump is inverted, nothing else. |
| `LuaFuncState.FuncState.JumpOnCond` | client/3rd/lua/lcode.c:839-851 | In place: as the value-level step. |
| `LuaFuncState.FuncState.GoIfTrue` | client/3rd/lua/lcode.c:857-878 | In place: the new jumps join the false list, the true list comes here. |
| `LuaFuncState.FuncState.GoIfFalse` | client/3rd/lua/lcode.c:884-904 | In place: the new jumps join the true list, the false list comes here. |
| `LuaFuncState.FuncState.CodeNot` | client/3rd/lua/lcode.c:910-939 | In place: as the value-level step. |
| `LuaFuncState.FuncState.CodeComp` | client/3rd/lua/lcode.c:1037-1060 | In place: registers freed higher first, operands exchanged for the two operators that need it. |
| `LuaFuncState.FuncState.Infix` | client/3rd/lua/lcode.c:1086-1115 | In place: as the value-level step for `and`, `or` and comparisons. |
| `LuaFuncState.FuncState.Posfix` | client/3rd/lua/lcode.c:1124-1171 | In place: the lists of the first operand join those of the second, which becomes the expression. |
| `PbTable.Replay` | client/3rd/lua-protobuf/pb.h:858-936 | After any history of insertions, growing included: the table holds exactly the nonzero keys inserted, each with the last payload written, key 0's payload is kept too, and the history stops early only at the size limit with every slot but slot 0 taken. |
| `PbTable.Table.Get` | client/3rd/lua-protobuf/pb.h:918-929 | A nonzero key is found exactly when it was inserted, in the slot that holds it with its payload; the chain walk ends. |
| `PbTable.Table.NewKey` | client/3rd/lua-protobuf/pb.h:864-893 | The key gets a slot, all other keys keep their payloads wherever their entries move, and failure means the table is full and may not grow. |
| `PbTable.Table.MoveAway` | client/3rd/lua-protobuf/pb.h:877-881 | The colliding entry moves to the free slot, its chain is relinked by relative offsets, every key keeps its payload, and the new key has its main position. |
| `PbTable.Table.AddSecond` | client/3rd/lua-protobuf/pb.h:882-887 | The new key goes second in the chain of its main position, and every key keeps its payload. |
| `PbTable.Table.FindFree` | client/3rd/lua-protobuf/pb.h:871-874 | The downward search stops at a free slot, all slots above it being taken, or at slot 1 when there is none. |
| `PbTable.Table.Predecessor` | client/3rd/lua-protobuf/pb.h:877-878 | Walking the chain from the main position of the colliding entry reaches the slot before it. |
| `PbTable.Table.Grow` | client/3rd/lua-protobuf/pb.h:895-916 | Doubling the table keeps every key, payloads of moved entries and key 0's included, and then there is room. |
| `PbTable.Table.Set` | client/3rd/lua-protobuf/pb.h:931-936 | The slot of the key: the old one with its payload, or a new one with an empty payload; every other key keeps its own. |
| `PbTable.Table.Put` | client/3rd/lua-protobuf/pb.h:931-936 | Inserting and writing the payload changes the map at that key alone. |
| `PbTable.Table.Sized` | client/3rd/lua-protobuf/pb.h:895-905 | A fresh table of the new size, all slots free, that holds nothing. |
| `PbTableSpec.Met` | client/3rd/lua-protobuf/pb.h:918-929 | A walk from the main position of a key to the end of its chain meets the key if it is in the table. |
| `PbTableSpec.OneChain` | client/3rd/lua-protobuf/pb.h:858-893 | No slot is in two chains. |
| `PbSlice.Slice.ReadVarint32` | client/3rd/lua-protobuf/pb.h:471-481 | On every slice, whichever of the one-byte path, the unrolled form and the loop is taken: the number at the front cut to 32 bits and how many bytes it takes, or 0 and no move if there is none within ten bytes. |
| `PbSlice.Slice.ReadVarint64` | client/3rd/lua-protobuf/pb.h:483-489 | The same for 64 bits. |
| `PbSlice.Slice.ReadVarintSlow` | client/3rd/lua-protobuf/pb.h:407-421 | The loop meets the same contract as the unrolled forms. |
| `PbSlice.Slice.Fallback32` | client/3rd/lua-protobuf/pb.h:423-442 | The unrolled form reads the same as the loop and never past the end, under the guard its only caller tests. |
| `PbSlice.Slice.Fallback64` | client/3rd/lua-protobuf/pb.h:444-462 | The same, with three words of 28, 28 and 8 bits. |
| `PbBuffer.Write32` | client/3rd/lua-protobuf/pb.h:686-696 | The unrolled writer puts out exactly the shortest varint of the number, at most five bytes, and touches nothing else. |
| `PbBuffer.Write64` | client/3rd/lua-protobuf/pb.h:698-713 | The same, at most ten bytes. |
| `PbBuffer.WriteThenRead` | client/3rd/lua-protobuf/pb.h:686-713 | A number written by the unrolled writer and read by the dispatching reader comes back, and both report its length. |
| `PbVarint.WrittenReads` | client/3rd/lua-protobuf/pb.h:407-489 | Any text that starts with the varint of a number is read as that number, up to its end. |
| `PbVarint.VarintRoundTrip` | client/3rd/lua-protobuf/pb.h:407-421 | Reading a written number gives the number and its length whatever comes after it. |
| `PbBuffer.Buffer.Prep` | client/3rd/lua-protobuf/pb.h:715-731 | Room for that many bytes with the contents kept, or failure, which cannot happen up to half the size limit. |
| `PbBuffer.Buffer.AddLength` | client/3rd/lua-protobuf/pb.h:742-754 | The bytes written since an offset are moved up and their length as a varint is put in front of them; everything before the offset stays. |
| `PbBuffer.Buffer.AddSlice` | client/3rd/lua-protobuf/pb.h:733-740 | Appends the bytes and returns their number, or leaves the contents as they were and returns 0; not the latter up to half the size limit. |
| `PbBuffer.Buffer.AddBytes` | client/3rd/lua-protobuf/pb.h:756-761 | The length and the bytes are appended, or nothing, in which case 0 is returned; never the length alone; and not nothing up to half the size limit. |
| `PbBuffer.Buffer.AddVarint32` | client/3rd/lua-protobuf/pb.h:763-769 | Appends the shortest varint. |
| `PbBuffer.Buffer.AddVarint64` | client/3rd/lua-protobuf/pb.h:771-777 | Appends the shortest varint. |
| `PbBuffer.Buffer.AddFixed` | client/3rd/lua-protobuf/pb.h:779-803 | The number is appended in that many bytes, least significant first, or nothing is and 0 is returned; and not nothing up to half the size limit. |
| `PbRoundTrip.MessageRoundTrip` | client/3rd/lua-protobuf/pb.c:1579-1784 | A message of scalar, byte-string, submessage, packed and unpacked repeated fields decodes to itself; with fields added at any depth that the schema does not have, nested groups included, it decodes to the message without them. |
| `PbRoundTrip.PackedRoundTrip` | client/3rd/lua-protobuf/pb.c:1556-1577 | A packed list comes back element by element. |
| `PbRoundTrip.TaggedRoundTrip` | client/3rd/lua-protobuf/pb.c:1745-1762 | A list that is not packed comes back appended to what was read before it, whatever follows. |
| `PbRoundTrip.SkipsWire` | client/3rd/lua-protobuf/pb.h:563-577 | Every well-formed unknown value, groups in groups included, is skipped to exactly its end. |
| `PbDecode.EncodeThenDecode` | client/3rd/lua-protobuf/pb.c:1600-1617 | A table encoded in place into a new buffer and decoded from its bytes comes back. |
| `PbEncode.EncodeTable` | client/3rd/lua-protobuf/pb.c:1579-1598 | Appends the encoding of the table to what the buffer holds. |
| `PbEncode.EncodeOne` | client/3rd/lua-protobuf/pb.c:1500-1525 | A submessage is written first, then its length inserted in front; the buffer ends with the prefixed encoding. |
| `PbEncode.EncodeTagField` | client/3rd/lua-protobuf/pb.c:1527-1534 | Appends tag and value. |
| `PbEncode.EncodeRepeated` | client/3rd/lua-protobuf/pb.c:1556-1577 | A packed list gets one tag and one length inserted after its elements are written, an unpacked one a tag for each element. |
| `PbEncode.AddType` | client/3rd/lua-protobuf/pb.c:370-448 | Appends a scalar by its kind: zigzag, sign extension and fixed widths included. |
| `PbDecode.DecodeTable` | client/3rd/lua-protobuf/pb.c:1764-1784 | The cursor loop gives the table, or the error, that the bytes stand for. |
| `PbDecode.FieldInto` | client/3rd/lua-protobuf/pb.c:1702-1762 | The value of one field goes into the table at its number, with the cursor behind it. |
| `PbDecode.RawField` | client/3rd/lua-protobuf/pb.c:1671-1700 | One value, a submessage read from a slice of its own. |
| `PbDecode.ReadBytesOf` | client/3rd/lua-protobuf/pb.c:274-282 | A slice for the bytes after a length, or an error if they are not all there. |
| `PbDecode.ReadFixed` | client/3rd/lua-protobuf/pb.h:491-517 | The number, least significant byte first, or 0 when bytes are missing. |
| `PbDecode.SkipValueOf` | client/3rd/lua-protobuf/pb.h:563-577 | Moves to the end of the value, or stays and returns 0. |
| `PbDecode.SkipGroupOf` | client/3rd/lua-protobuf/pb.h:543-561 | Moves behind the end tag with the same number. |
| `DtoaScale.Convert` | client/3rd/lua-cjson/dtoa.c:4084-4329 | For any number m*2^be and an estimate of its decimal exponent that is right or one too high where it is checked: the digits are those of the integer nearest the number scaled to n digits, ties to an even last digit, trailing zeros gone, the decimal point one further exactly on carry-out. |
| `DtoaScale.Setup` | client/3rd/lua-cjson/dtoa.c:4084-4168 | Dividend and divisor have exactly the ratio m*2^be over 10^k1, which lies between 1 and 10; k1 is the estimate or one less; the divisor has four leading zero bits. |
| `DtoaScale.DShift` | client/3rd/lua-cjson/dtoa.c:2110-2117 | The shift that leaves exactly four leading zero bits in the top word after p2 bits. |
| `DtoaScale.Hi0bits` | client/3rd/lua-cjson/dtoa.c:708-739 | The number of leading zero bits of a word, by halving. |
| `DtoaRound.Generate` | client/3rd/lua-cjson/dtoa.c:4284-4329 | The digit loop and the final rounding give the decimal nearest the quotient, to n digits. |
| `DtoaRound.RoundOff` | client/3rd/lua-cjson/dtoa.c:4314-4323 | The digits plus one in the last place, the nines behind it gone, with a carry exactly when all were nines. |
| `DtoaRound.TrimZeros` | client/3rd/lua-cjson/dtoa.c:4325-4329 | The same number without zeros at the end. |
| `DtoaBigint.Bigint.Quorem` | client/3rd/lua-cjson/dtoa.c:2120-2241 | In place: the number becomes its remainder and the quotient is at most 9, although the estimate from the top words may be one too low. |
| `DtoaBigint.Estimate` | client/3rd/lua-cjson/dtoa.c:2145-2149 | The quotient of the top words, the divisor's one higher, is the quotient or one less. |
| `DtoaBigint.Bigint.MultAdd` | client/3rd/lua-cjson/dtoa.c:613-667 | Exactly m times the number plus a, with at most one more word; normalized unless m is 0 and the number has several words. |
| `DtoaBigint.Bigint.Mult` | client/3rd/lua-cjson/dtoa.c:806-913 | Exactly the product, normalized. |
| `DtoaBigint.Bigint.LShift` | client/3rd/lua-cjson/dtoa.c:975-1032 | Exactly the number times 2^k, by shifting words and joining the bits that cross them; normalized unless 0 is shifted by a word or more. |
| `DtoaBigint.Bigint.Cmp` | client/3rd/lua-cjson/dtoa.c:1035-1066 | The sign is that of the difference of the numbers. |
| `DtoaBigint.Bigint.Diff` | client/3rd/lua-cjson/dtoa.c:1069-1160 | Exactly the distance, with the sign set if and only if the first is smaller. |
| `DtoaBigint.Bigint.Balloc` | client/3rd/lua-cjson/dtoa.c:545-583 | 2^k words, none in use. |
| `DtoaBigint.Bigint.I2b` | client/3rd/lua-cjson/dtoa.c:790-803 | The number of one word. |
| `DtoaPowers.Powers.Pow5Mult` | client/3rd/lua-cjson/dtoa.c:918-972 | Exactly the number times 5^k, whatever part of the chain is cached; the chain only grows. |
| `DtoaPowers.NodeIsPower` | client/3rd/lua-cjson/dtoa.c:944-969 | Node i of the chain is 5^(4*2^i). |
| `DtoaPowers.Powers.Extend` | client/3rd/lua-cjson/dtoa.c:956-969 | The next node is the square of the one before, computed only when it is missing. |
| `DtoaText.S2b` | client/3rd/lua-cjson/dtoa.c:670-705 | The number whose decimal digits the text has, a point skipped. |
| `SprotoPack.RoundTrip` | client/3rd/sproto/sproto.c:1272-1430 | Unpacking the packing of any bytes gives them back, padded with zeros to a multiple of 8. |
| `SprotoPack.PackedFits` | client/3rd/sproto/lsproto.c:671-682 | The packed size is at most (sz+2047)/2048*2 + sz + 2, so the error of `lpack` is never raised. |
| `SprotoPack.Pack` | client/3rd/sproto/sproto.c:1324-1376 | Into any buffer: the size is that of the packing, whose bytes are there if they fit; the size `lpack` provides always does. |
| `SprotoPack.PackSeg` | client/3rd/sproto/sproto.c:1273-1308 | The size a segment takes and its bytes, or that it is raw, depending on the run it continues. |
| `SprotoPack.WriteFF` | client/3rd/sproto/sproto.c:1311-1321 | The run of raw segments, padded at the end of the data, is filled into the room reserved for it. |
| `SprotoPack.UnpackTo` | client/3rd/sproto/sproto.c:1379-1430 | -1 exactly for malformed input, else the size of the data, which is there if the buffer has room. |
| `SprotoPackSpec.UnpackUndoesPack` | client/3rd/sproto/sproto.c:1311-1428 | Headers, merged runs of raw segments and the last run decode to the segments they were made from. |
| `SprotoPackSpec.PackedSize` | client/3rd/sproto/sproto.c:1324-1371 | The bound on the packed size for any segments of which the last is padded. |
| `SprotoRoundTrip.RecordBack` | client/3rd/sproto/sproto.c:1157-1266 | For any schema with ascending tags and any record: decoding calls back exactly the fields encoded, in the order of their tags and with equal values, arrays and nested records included, and reads exactly the bytes encoded. |
| `SprotoRoundTrip.NumberBack` | client/3rd/sproto/sproto.c:1083-1125 | A number comes back from 32 and from 64 bits, sign included. |
| `SprotoRoundTrip.GapBack` | client/3rd/sproto/sproto.c:1030-1040 | A word for skipped tags is read back as the same gap. |
| `SprotoNeed.WordsFit` | client/3rd/sproto/sproto.c:327-350 | The words written for a record never number more than `maxn`, so the header reserved for them is never overrun. |
| `SprotoEncode.EncodeInto` | client/3rd/sproto/sproto.c:944-1056 | In place: nothing outside the buffer range is touched; the result is -1, or the size of the record and its bytes, moved down to the header; with enough room it is not -1. |
| `SprotoEncode.EncodeNumbers` | client/3rd/sproto/sproto.c:768-854 | One pass that switches from 32 to 64 bits at the first number that needs it leaves the array in the width all of it needs. |
| `SprotoEncode.Widen` | client/3rd/sproto/sproto.c:817-831 | From the last down, the numbers written in 32 bits become the same numbers in 64, in place. |
| `SprotoEncode.Widened` | client/3rd/sproto/sproto.c:753-765 | Four bytes and four copies of their sign are the number in eight bytes. |
| `SprotoEncode.EncodeBodies` | client/3rd/sproto/sproto.c:857-884 | Elements of varying size, each behind its length. |
| `SprotoEncode.EncodeArray` | client/3rd/sproto/sproto.c:887-941 | The array by the kind of its elements, behind its length. |
| `SprotoEncode.EncodeObject` | client/3rd/sproto/sproto.c:736-750 | A text or a record behind its length, or -1. |
| `SprotoEncode.Finish` | client/3rd/sproto/sproto.c:1047-1055 | The count goes to the header and the data moves down to it, unchanged. |
| `SprotoDecode.DecodeFrom` | client/3rd/sproto/sproto.c:1157-1268 | The cursor loop gives, for any bytes, what is called back and how many bytes are read, or the error, or that bytes beyond the data are read because the 32-bit length test wrapped. |
| `SprotoDecode.DecodeWord` | client/3rd/sproto/sproto.c:1178-1207 | One word of the record: how far tag and data move, and what is called back. |
| `SprotoWrap.RecordLeaves` | client/3rd/sproto/sproto.c:1178-1245 | For any bytes and any type of any schema: decoding leaves its data if and only if it reaches, in the record or in one inside it, a field that its type has, with a length of 2^32 - 4 or more, that is a text, an array of flags, or an array of numbers whose width and count pass their tests. |
| `SprotoWrap.EncodedClear` | client/3rd/sproto/sproto.c:1178-1245 | What a record was encoded to never has such a field, whatever comes after it. |
| `SprotoWrap.MinusOne` | client/3rd/sproto/sproto.c:1178-1245 | The record that gives -1 to tag 0 is read inside its data, though four of its bytes in a row are a number of 2^32 - 4 or more. |
| `SprotoWrap.RecordInside` | client/3rd/sproto/sproto.c:1189-1200 | A sufficient test that needs no type: where no four bytes in a row are a number of 2^32 - 4 or more, decoding stays inside the data. |
| `SprotoWrap.WrapPasses` | client/3rd/sproto/sproto.c:1196-1200 | The record 01 00 00 00 FC FF FF FF is read to the end, with a result of 4, by every type without tag 0: the test `size < sz + 4` wraps. |
| `SprotoWrap.WrapLeaves` | client/3rd/sproto/sproto.c:1196-1207 | The same record, with a text at tag 0, hands on a length far beyond the data. |
| `SprotoDecode.DecodeArray` | client/3rd/sproto/sproto.c:1092-1154 | The elements of an array, or the error, for any bytes. |
| `SprotoDecode.DecodeBodies` | client/3rd/sproto/sproto.c:1059-1080 | The elements, each behind its length, or the error. |
| `SprotoDecode.FindTag` | client/3rd/sproto/sproto.c:647-671 | Direct index or binary search, the field with the tag if there is one. |
| `SprotoDecode.EncodeThenDecode` | client/3rd/sproto/sproto.c:943-1266 | A record through both in-place routines comes back, with all its bytes read. |
| `JsonRoundTrip.JsonBack` | client/3rd/lua-cjson/lua_cjson.c:507-1417 | Parsing the text printed for any value of null, booleans, 64-bit integers, byte strings, arrays and string-keyed objects succeeds if and only if it is nested no deeper than the limit, and gives the value back, an empty array as an empty object. |
| `JsonRoundTrip.StringBack` | client/3rd/lua-cjson/lua_cjson.c:987-1045 | A printed string, whatever its bytes, is read as one token with exactly these bytes. |
| `JsonRoundTrip.IntBack` | client/3rd/lua-cjson/lua_cjson.c:1098-1124 | A printed integer is read as one token with that number when no character that could belong to it follows. |
| `JsonEncode.Encode` | client/3rd/lua-cjson/lua_cjson.c:805-834 | The text of the value from a buffer kept between calls, or the error if and only if it is nested deeper than the limit. |
| `JsonEncode.AppendText` | client/3rd/lua-cjson/lua_cjson.c:507-531 | Room for six characters a byte and two quotes is enough: no unchecked append passes the end of the buffer, and the escaped string is appended. |
| `JsonEncode.AppendInteger` | client/3rd/lua-cjson/lua_cjson.c:632-675 | The decimal text and its terminating zero fit the 32 bytes made free. |
| `JsonEncode.AppendArray` | client/3rd/lua-cjson/lua_cjson.c:610-630 | Appends the items between brackets with commas between them, unless one is nested too deep. |
| `JsonEncode.AppendObject` | client/3rd/lua-cjson/lua_cjson.c:684-723 | Appends keys and values between braces, unless one is nested too deep. |
| `JsonEncode.AppendData` | client/3rd/lua-cjson/lua_cjson.c:726-803 | Appends the text of any value, an empty table as an object. |
| `JsonEncode.IntLength` | client/3rd/lua-cjson/lua_cjson.c:669-674 | A 64-bit integer takes at most 20 characters. |
| `JsonDecode.EncodeThenDecode` | client/3rd/lua-cjson/lua_cjson.c:805-1417 | Printing and parsing in place gives the value back, or fails exactly where one of the two limits is passed. |
| `JsonDecode.Parser.Decode` | client/3rd/lua-cjson/lua_cjson.c:1379-1417 | For any text: the value it stands for, or an error. |
| `JsonDecode.Parser.constructor` | client/3rd/lua-cjson/lua_cjson.c:1383-1403 | The string buffer is longer than the text. |
| `JsonDecode.Parser.NextStringToken` | client/3rd/lua-cjson/lua_cjson.c:987-1045 | The decoded string, its unchecked appends never passing the end of a buffer as long as the text; the pointer never passes the terminating zero. |
| `JsonDecode.Parser.AppendUnicodeEscape` | client/3rd/lua-cjson/lua_cjson.c:921-977 | The bytes of the code point, a surrogate pair included, are appended unchecked within the buffer; malformed escapes are errors. |
| `JsonDecode.Parser.DecodeHex4` | client/3rd/lua-cjson/lua_cjson.c:854-873 | The value of four digits, reading no further than the first that is none. |
| `JsonDecode.CodepointToUtf8` | client/3rd/lua-cjson/lua_cjson.c:877-910 | The one to four bytes of a code point. |
| `JsonDecode.Parser.IsInvalidNumber` | client/3rd/lua-cjson/lua_cjson.c:1062-1096 | Exactly for a plus sign, a leading zero, hexadecimal, and infinity or not-a-number in any case. |
| `JsonDecode.Parser.NextNumberToken` | client/3rd/lua-cjson/lua_cjson.c:1098-1124 | The integer and its end, or an error. |
| `JsonDecode.Parser.NextToken` | client/3rd/lua-cjson/lua_cjson.c:1130-1207 | The next token behind white space, and the pointer behind it. |
| `JsonDecode.Parser.ParseArrayContext` | client/3rd/lua-cjson/lua_cjson.c:1302-1344 | The items up to the bracket, or an error; the depth counter comes back to what it was. |
| `JsonDecode.Parser.ParseObjectContext` | client/3rd/lua-cjson/lua_cjson.c:1251-1299 | The entries up to the brace, a repeated key replacing its value, or an error; the depth counter comes back. |
| `JsonDecode.Parser.ProcessValue` | client/3rd/lua-cjson/lua_cjson.c:1347-1377 | The value a token starts, or an error. |
| `JsonBuffer.StrBuf.AppendCharUnsafe` | client/3rd/lua-cjson/strbuf.h:127-130 | With one byte free, which the caller must have made sure of, the character is appended. |
| `JsonBuffer.StrBuf.AppendMemUnsafe` | client/3rd/lua-cjson/strbuf.h:139-143 | With that many bytes free the bytes are appended. |
| `JsonBuffer.StrBuf.EnsureEmptyLength` | client/3rd/lua-cjson/strbuf.h:100-104 | That many bytes are free and the contents kept; the array is the old one if it had them. |
| `JsonBuffer.StrBuf.Resize` | client/3rd/lua-cjson/strbuf.c:164-180 | A larger array with the same contents. |
| `JsonBuffer.StrBuf.NewSize` | client/3rd/lua-cjson/strbuf.c:134-159 | More than the length asked for, for doubling growth. |
| `JsonBuffer.StrBuf.AppendString` | client/3rd/lua-cjson/strbuf.c:182-198 | The bytes are appended, and the array only changes when they did not fit. |
| `JsonBuffer.StrBuf.AppendMem` | client/3rd/lua-cjson/strbuf.h:132-137 | The bytes are appended, in a larger array if needed. |
| `JsonBuffer.StrBuf.AppendChar` | client/3rd/lua-cjson/strbuf.h:121-125 | The character is appended, in a larger array if needed. |
| `JsonBuffer.StrBuf.constructor` | client/3rd/lua-cjson/strbuf.c:44-66 | An empty buffer of the length asked for and one, or the default size. |
| `Des.TextRoundTrip` | client/3rd/lua-crypt/lua-crypt.c:378-451 | Decoding the encoding of any text gives it back, for every choice of S-boxes and subkeys. |
| `DesSpec.CryptBack` | client/3rd/lua-crypt/lua-crypt.c:329-350 | Decrypting an encrypted block with the subkeys in reverse pairs gives the block, whatever the round function. |
| `DesSpec.RoundsBack` | client/3rd/lua-crypt/lua-crypt.c:242-255 | Each round on the way back undoes one round of the way there. |
| `DesSpec.PermutationsInvert` | client/3rd/lua-crypt/lua-crypt.c:216-240 | The initial and the final permutation undo each other. |
| `Des.DesCrypt` | client/3rd/lua-crypt/lua-crypt.c:329-350 | The block goes to its place in the output and nothing before it changes. |
| `Des.DesEncode` | client/3rd/lua-crypt/lua-crypt.c:379-411 | The blocks of the padded text, encrypted one by one. |
| `Des.DecodeLeaves` | client/3rd/lua-crypt/lua-crypt.c:436-447 | The scan for the padding leaves its buffer if and only if the text is one block that decrypts to eight zeros, as `textsz-8` is unsigned. |
| `Des.ZerosLeave` | client/3rd/lua-crypt/lua-crypt.c:436-447 | For all subkeys there is such a text: the encrypted block of zeros. |
| `Des.ScanLeaves` | client/3rd/lua-crypt/lua-crypt.c:436-447 | For any data of whole blocks and from any place of the scan: it leaves the buffer if and only if there is one block and what is still to be scanned is all zeros. |
| `Des.DesDecode` | client/3rd/lua-crypt/lua-crypt.c:414-451 | The text with its padding taken off, or the error, or that the scan for the padding leaves the buffer, for any input. |
| `Des.EncodeThenDecode` | client/3rd/lua-crypt/lua-crypt.c:378-451 | A text through both in-place routines comes back. |
| `LuaRef.Registry.Ref` | client/3rd/lua/lauxlib.c:595-613 | In any table: the head of the free list, or one more than whichever border the length operator gives. In a sound table the reference returned was not live, every live value stays, and the table stays sound. |
| `LuaRef.Registry.Unref` | client/3rd/lua/lauxlib.c:616-624 | A live reference is free afterwards, a negative one changes nothing, any other is linked into the free list as well; the table stays sound under the condition of `UnrefSound`, and no other live value changes. |
| `LuaRef.Registry.FreeTwice` | client/3rd/lua/lauxlib.c:595-624 | A live reference freed twice is returned by each of the next two calls of `luaL_ref`, and the second value overwrites the first. |
| `LuaRef.UnrefSound` | client/3rd/lua/lauxlib.c:616-624 | Exactly which references may be freed: after freeing any that is not negative, the table is sound for the values still live if and only if the reference was live, is one more than the slots in use, or is 0 while no slot is free but perhaps the last one, holding nothing. |
| `LuaRef.Registry.constructor` | client/3rd/lua/lauxlib.c:595-613 | A table without holes and with an empty free list: what it holds is live. |
| `LuaRef.NoHoles` | client/3rd/lua/lauxlib.c:609-610 | When the free list is empty the table has one border only, so length plus one is fresh. |

## Left out

KCP

- KcpSystem.EndToEnd: for fewer than 2^31 segments in each direction, as serial numbers repeat beyond.
- KcpProgress.RoundAdvances: beyond `rcv_nxt - snd_una + rcv_wnd` of 2^31 the round advances only if something else makes the
  receiver answer; the condition is exact, and `KcpStuck.StuckRound` is a run where nothing does.
- KcpEndpoint.Ikcp.Send: message mode only; stream mode, where `ikcp_send` can fail after it has already extended the last
  segment, is left out.
- Changes of mtu, windows and intervals in the middle of a run, `ikcp_check`, logging, failing allocation, `buffer == NULL`.
- Datagrams of 2^31 bytes or more, list counters beyond the `int` range, and signed overflow in the round-trip arithmetic, which
  `KcpControl.RttFits` excludes for times below 2^28.

Lua code generator

- The meaning of the instructions is fixed in `LuaMachine`; lvm.c and the parser lparser.c are not part of this model.
- LuaFuncState.FuncState.Infix: the cases of and, or and comparisons; those of arithmetic and concatenation are left out.
- LuaFuncState.FuncState.Posfix: as above.
- Upvalues, globals, indexing, calls, varargs, arithmetic, concatenation, constant folding, line information.
- The limits on registers, constants and jump distances, `OP_LOADKX` with its extra argument, and growth of the code array.

Protobuf

- The hash table: slots are counted rather than bytes; deletion, iteration and failing allocation; resizing to anything but twice
  the size; `has_zero` is set by growing even where key 0 was never inserted, its payload being empty then.
- PbEncode.EncodeTable: says nothing for buffers beyond half the size limit, where the source drops appends silently.
- PbEncode.EncodeOne: as above.
- PbEncode.EncodeTagField: as above.
- PbEncode.EncodeRepeated: as above.
- PbEncode.AddType: as above, and without enumerations given by name.
- PbRoundTrip.MessageRoundTrip: for messages up to the size limit of a buffer.
- Field and type names (numbers stand for them), enumerations by name, maps, hooks, defaults, omission of zeros, keys of a table
  that name no field, integers given as strings; floating-point numbers are their bits.
- The unrolled readers join groups of seven bits by addition where the source uses shifts and or; the bits are disjoint.

dtoa

- DtoaScale.Convert: mode 2 only, for a given estimate of the decimal exponent; computing the estimate in floating point, the
  fast paths and the other modes are left out, and so is `strtod`.
- The free list of `Balloc` and `Bfree`: a number is a new object each time. The two subtraction loops of `quorem` share a method.

sproto

- Maps, main indices and decimal fractions, the limit on nesting, `import_protocol`, types without fields, callbacks that fail.
- SprotoPack.Pack: only the size is known when the buffer is too small for the packing.

cjson

- JsonDecode.Parser.Decode: a text with a floating-point number is an error here, as what `strtod` would read is refused.
- JsonDecode.Parser.NextNumberToken: as above.
- JsonDecode.Parser.NextToken: as above.
- JsonDecode.Parser.ProcessValue: as above.
- JsonDecode.Parser.ParseArrayContext: as above.
- JsonDecode.Parser.ParseObjectContext: as above.
- Number keys, sparse arrays, metatables, and the settings that print invalid numbers; a table is an array or has string keys.
- JsonBuffer.StrBuf.NewSize: doubling growth only; the linear growth of `strbuf.c` rounds the old size, not the one asked for.
- Texts so long that six times their length does not fit an `int`, error messages, and the Lua stack.

DES and the allocator

- The tables of the S-boxes and the key schedule are parameters. Arguments of the wrong length raise an error in the source
  before the code modelled here.
- The width of `int` references.
