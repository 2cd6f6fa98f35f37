# Verified models of three SCST target drivers

This project models, in Dafny, the parts of three storage target drivers that are hardest to get right, and proves what
they are meant to guarantee. A target driver sits between a transport (Fibre Channel over Ethernet, an LSI MPT adapter,
a Marvell SAS/SATA controller) and SCST, the SCSI target engine that executes the commands.

**The FCoE target (`fcst/`).**

- `Buffers`, `Memory`: scatter lists as lists of non-empty segments, and their flattened bytes, as values and in
  memory.
- `FcpData`: data frames with relative offsets. `Tiled` says what the initiator must have seen after a number of bytes
  of a read went out; `Receive` says what one write frame does to the receiving side.
- `SendLoop`: the loop that cuts read data into frames: its place, its passes, and frames it cannot fill.
- `FtCmd`: the per-command object with its send and receive loops, its locked state changes and its responder, in
  place, and two such objects joined into a transfer.
- `Reassembly`: write frames in any order, overlapping or not, and the round trip from the read sender to the write
  receiver.
- `Response`: responses that fail and are called again, the residual count, and status frames that overtake data.
- `CmdProtocol`: the command state machine, first as locked sections in any order whatsoever, then as overlapping
  calls issue them, then under the order in which SCST calls the target.
- `Sessions`, `FtSess`: the session hash of a local port, as a value and in place, and the map that it refines.
- `Disable`: disabling a port, which walks the table without the lock, against logins and logouts.
- `SessionLife`, `SessionRuns`: reference counts, RCU readers, deferred freeing and a release that walks the table,
  step by step and over every interleaving.

**The MPT target (`mpt/mpt_scst.c`).**

- `SglList`, `SglBuild`: the chained scatter/gather list: its layout, the loop that builds it in place, its two kinds of
  reader, its flags, headers and size.
- `IoState`, `CmdBuffer`: the flag word of a command buffer, where an abort must override a retransmission, and which
  recovery a retransmission request gets.
- `IoCycle`: one I/O after another through a command buffer: what the flag word means, and whether the buffer comes
  back.
- `SenseCache`: sense data kept for an initiator that has to ask for it.

**The Marvell 64xx (`mvsas_tgt/mv_64xx.c`).**

- `RegSets`: the allocator of SATA register sets, a bitmap split over two registers.

Code that changes things step by step is a class or a method on arrays, proved equal to a function of the old state; the
properties over runs are lemmas about those functions. Allocations, sends, the arrival of frames and events, the
scheduling of threads and the content of memory nobody initialised are parameters, so every statement is for all of them.
A `BUG_ON` or `WARN_ON` is an assertion, a precondition that is shown to hold in every run, or a flag that is shown to
stay down. Counters that the source keeps in 32 bits wrap explicitly where that can matter. Protocol terms are those of
FCP-4 (sections 9.4 and 9.5) and SPC-4 (section 4.5.3).

Nine things that one might expect do not hold of the code. Each has a concrete case or run and the exact condition:

- A read response can send status before data, with nothing failing. It does with every buffer that is shorter than
  the response, a multiple of the payload limit long, and without a frame over more than 10000 segments
  (`FtCmd.FtCmd.StatusBeforeData`); with no other buffer can it, whatever fails
  (`Response.PrematureOnlyOnExactMultiple`). Its residual is wrong exactly then (`Response.ReadResidual`).
- The iteration guard of the send loop can stop a response for good: no run gets past a frame that lies over more than
  10000 segments (`Response.StuckForGood`). One-byte segments and a payload limit of 10001 make such a frame
  (`SendLoop.TinySegmentsStuck`). With equal segments exactly the frames longer than 10000 of them are stuck
  (`SendLoop.EqualSegmentsStuck`), and frames of up to 10000 bytes never are (`SendLoop.ShortNeverStuck`).
- Overlapping write frames can complete a command early (`Reassembly.OverlapCompletesEarly`). As long as the frames
  add up to less than 4 GB, a reported success means a whole buffer exactly if no byte was written twice
  (`Reassembly.SuccessIsWholeIffDisjoint`).
- SCST can be told about the data of a command twice (`CmdProtocol.ArrivedToldTwice`). That needs a transfer ready
  that comes back for want of memory after the command has been failed (`CmdProtocol.OrderlyRunsTellOnce`), and every
  run up to such an event goes on to it (`CmdProtocol.OvertakenTellsTwice`). The warnings never fire
  (`CmdProtocol.OrderlyRunsNeverWarn`).
- A release reads each session's link after closing it, outside any RCU read section. Before it ends it can come to
  read freed memory exactly if somebody is logged in when it begins (`SessionRuns.ReleaseStraysIff`); a run from the
  start needs one login and one release (`SessionRuns.StartCanStray`). Runs in which every release holds a read
  section or finds nobody logged in are safe (`SessionRuns.ShelteredReleaseIsSafe`).
- Disabling a port takes no lock, and can leave it disabled with somebody logged in. It can exactly if a login that
  can add a session is past its test when the disable begins (`Disable.DisableLeavesIff`).
- A logout in the middle of a close takes the session out twice, and is harmless exactly if it is of another port
  (`Disable.LogoutInTheMiddle`, `Disable.TwiceOut`).
- A command buffer of the MPT target need not come back. An error that ends an I/O leaves the pointer to its command, so
  the next command in the buffer is taken for a reply; an error status, or status in place of a transfer, for a write
  that waits for data leads into a BUG_ON; and a command that is done again, or a transfer with status held back that is
  turned into status, leaves a flag that no completion clears. Runs without these are right
  (`IoCycle.CyclesAreClean`), and each of these goes wrong with the next reply (`IoCycle.HarmGoesWrong`).
- A cached REQUEST SENSE can return bytes that are not sense data of the failed command (`SenseCache.StaleBytes`). It
  returns a beginning of that sense data exactly if the data covers the request (`SenseCache.ServedSense`).

## Model

| member | source | states |
|---|---|---|
| Memory.CopyInto | fcst/ft_io.c:269-276 | copying into one mapped segment changes exactly that part of the flattened buffer |
| FcpData.TiledPayloads | fcst/ft_io.c:107-191 | the payloads of a tiling, end to end, are the sent prefix of the buffer |
| FcpData.TiledFrames | fcst/ft_io.c:124-177 | every frame of a tiling carries the buffer's bytes at its own offset, frames do not overlap, and END_SEQ is on the finishing frame only |
| FcpData.TiledAt | fcst/ft_io.c:124-137 | frame i of a tiling starts i payload limits into the buffer and is as long as the limit and the response allow |
| FcpData.TiledMultiple | fcst/ft_io.c:124-126 | a transfer that is not complete has stopped on a multiple of the payload limit |
| FcpData.ReceiveAt | fcst/ft_io.c:231-277 | one write frame changes exactly the bytes from its offset to its clipped end, to its own payload |
| FcpData.ReceiveDelivers | fcst/ft_io.c:231-292 | a frame without relative offset, empty or behind the end changes nothing; of any other, what is within the buffer is put in place, the rest cut off, the counter grows by as much, and SCST is told if that completes the data |
| FtCmd.FtCmd.SkipSent | fcst/ft_io.c:80-92 | resuming finds the segment and the offset in it that hold the first unsent byte, or reports that the buffer ended |
| FtCmd.FtCmd.CurrentSegment | fcst/ft_io.c:115-123 | moving to the next segment keeps the place in the flattened buffer; it fails only at its end |
| FtCmd.FtCmd.Transmit | fcst/ft_io.c:173-190 | an accepted frame extends the tiling, a refused one changes nothing |
| FtCmd.FtCmd.CopyStep | fcst/ft_io.c:138-169 | the copy of a pass meets the four BUG_ONs and moves segment, frame and place by what it copied |
| FtCmd.FtCmd.Pass | fcst/ft_io.c:107-191 | one pass keeps the frames sent a tiling, gets further, and stops without a change only at the end of the buffer or for want of a frame |
| FtCmd.FtCmd.SendFrames | fcst/ft_io.c:107-198 | whatever fails, the frames sent tile the read; success exactly if all of it went out; if the next frame could be made, it was not accepted, and the result is fatal exactly if it failed for another reason than memory; the iteration guard fires only if more than 10000 segments and frames were left; if everything is accepted the loop gets to the last full frame, or, out of passes without a single frame, the next frame is stuck |
| FtCmd.FtCmd.SendReadData | fcst/ft_io.c:31-199 | one call only appends to the tiling, reports success exactly if the response is complete or the buffer ends at the resume point and otherwise how the next frame fared, never sends a frame over more than 10000 segments, and, if everything is accepted, gets as far as buffer and passes allow |
| SendLoop.FramesForIsCeiling | fcst/ft_io.c:124-126 | the number of frames in the loop bound is the remaining length over the payload limit, rounded up |
| SendLoop.BudgetStep | fcst/ft_io.c:107-171 | every pass of the send loop uses up a segment or a frame |
| SendLoop.StepDone | fcst/ft_io.c:138-171 | a copy leaves the open frame filled with the buffer's bytes, or completes it, which one call then had passes enough for |
| SendLoop.LimitHit | fcst/ft_io.c:108-114 | when the guard fires there were more segments and frames than passes, and if no frame is out yet the frame is stuck |
| SendLoop.EqualSegmentsStuck | fcst/ft_io.c:107-123 | over equal segments a frame is stuck exactly if it is longer than 10000 of them and the buffer has as many |
| SendLoop.ShortNeverStuck | fcst/ft_io.c:107-123 | a frame of up to 10000 bytes is never stuck |
| SendLoop.TinySegmentsStuck | fcst/ft_io.c:107-123 | one-byte segments and a payload limit of 10001 make a stuck frame |
| FtCmd.FtCmd.CopyPiece | fcst/ft_io.c:269-276 | one pass of the copy loop extends the overwritten part and the 32-bit byte counter by what it copied |
| FtCmd.FtCmd.CopyPayload | fcst/ft_io.c:245-277 | the copy loop overwrites the flattened buffer at the frame's offset with as much of the payload as memory holds, and counts it |
| FtCmd.FtCmd.RecvWriteData | fcst/ft_io.c:204-295 | receiving a frame in place delivers it as ReceiveDelivers says, and is the abstract receive step: buffer, counter, command state and calls of SCST |
| FtCmd.FtCmd.DataArrived | fcst/ft_io.c:284-292 | SCST is told of success exactly if the counter equals the buffer length and the command waits for data |
| FtCmd.ReceiveTakesDataSection | fcst/ft_io.c:284-292 | the end of the receiver is the data section of the command state machine |
| FtCmd.FtCmd.SetCmdState | fcst/ft_cmd.c:175-187 | sets any state but never leaves DONE, and returns the previous state |
| FtCmd.FtCmd.TestAndSetCmdState | fcst/ft_cmd.c:194-209 | sets the state exactly if it was the expected one, and says so |
| FtCmd.FtCmd.AbortCmd | fcst/ft_cmd.c:211-250 | fails a command that waits for data, with a fatal call of SCST, and makes no other call; leaves a new, executing, managing or answered one alone; warns on the states it does not expect and ends in DONE |
| FtCmd.FtCmd.SendXferRdy | fcst/ft_cmd.c:465-504 | a new command waits for data exactly if transfer ready went out, and is new again otherwise; in any other state only a failed send changes it |
| FtCmd.FtCmd.SendStatusFrame | fcst/ft_cmd.c:352-410 | the status frame with its residual goes out once, or the command is back in its previous state |
| FtCmd.FtCmd.DataThenStatus | fcst/ft_cmd.c:322-410 | read data goes out in front of status; a failed read's result, fatal or to be retried, is the call's result; with everything accepted the call sends status or more data, or the next frame is stuck or incomplete |
| FtCmd.FtCmd.SendResponse | fcst/ft_cmd.c:286-412 | one call is one attempt of a retried response; an aborted one sends nothing and succeeds, one without status sends nothing and fails; once the data is out the result is how the status frame fared; SCST is told the command is done exactly on success; a failed call leaves the command state as it was |
| FtCmd.FtCmd.Respond | fcst/ft_cmd.c:286-412 | calling again after every QUEUE_FULL, whatever happens in the calls, is a retried response, and has status in front of data only if the buffer ends on a frame |
| FtCmd.FtCmd.StatusBeforeData | fcst/ft_io.c:80-92 | with every buffer that ends on a frame, short of the response, accepted calls end with status in front of data |
| FtCmd.FtCmd.RecvAll | fcst/ft_io.c:204-295 | frames placed one after another in place are the abstract receiver's frames in that order |
| FtCmd.FtCmd.ReceiveAndRespond | fcst/ft_cmd.c:286-412 | a write whose frames arrive in any way and whose response is retried in any way: the residual of the status that goes out is the buffer length minus the bytes copied exactly if that fits a signed 32-bit integer |
| FtCmd.SendAndReceive | fcst/ft_io.c:31-295 | two commands, any scatter lists, any failures and retries, any order of arrival: a response that was sent completely is in the destination byte for byte, and SCST there has been told so once |
| Reassembly.CopiedVersusCovered | fcst/ft_io.c:242-276 | the byte counter never lags behind the bytes in place and equals them exactly if no byte was written twice |
| Reassembly.CompletionIsCoverage | fcst/ft_io.c:231-292 | for disjoint frames in any order the counter is the number of bytes in place, and SCST is told of success, once, exactly if the whole buffer is there |
| Reassembly.ContentsAreFrames | fcst/ft_io.c:231-277 | after disjoint frames every covered byte is the byte of the frame that covers it |
| Reassembly.RestIsUntouched | fcst/ft_io.c:231-277 | bytes that no frame covers are left alone |
| Reassembly.SuccessIsWholeIffDisjoint | fcst/ft_io.c:276-292 | when any frames, also overlapping ones, make the receiver report success, they were disjoint exactly if the buffer is whole and nothing was copied beyond it, and below 4 GB exactly if it is whole |
| Reassembly.WrittenIsCopied | fcst/ft_io.c:276 | the counter is the number of bytes copied modulo 2 to the 32 |
| Reassembly.OverlapCompletesEarly | fcst/ft_io.c:276-292 | a byte delivered twice completes a two-byte command with one byte missing |
| Reassembly.ArrivalDisjoint | fcst/ft_io.c:31-199 | the frames of a complete read, in any order of arrival, are disjoint at the receiver |
| Reassembly.ArrivalCovers | fcst/ft_io.c:31-199 | and they cover the whole destination |
| Reassembly.RoundTrip | fcst/ft_io.c:31-295 | the frames of a complete tiling, delivered in any order, leave the destination with exactly the source bytes; SCST is told once, by the last frame |
| Response.RetriedRoundTrip | fcst/ft_io.c:31-295 | so do the frames of any retried response, from any scatter list, that was sent completely |
| Response.ResidualDecodes | fcst/ft_cmd.c:332-382 | the decoded residual is the buffer length minus the length moved exactly if that fits a signed 32-bit integer |
| Response.CopiedResidual | fcst/ft_cmd.c:332-334 | for any write frames, overlapping or not, the residual is the buffer length minus the bytes copied exactly if that fits a signed 32-bit integer, and then an overrun is claimed exactly if more was copied than the buffer holds |
| Response.WriteResidual | fcst/ft_cmd.c:332-334 | after disjoint write frames the residual decodes to the bytes that did not arrive and never claims an overrun |
| Response.RetriesKeepTiling | fcst/ft_cmd.c:335-412 | every call of a retried response leaves a tiling, and no status is out before the last call |
| Response.RetriedResponse | fcst/ft_cmd.c:286-412 | exactly-once resumable send: the frames tile the sent prefix; at most one status goes out, from a last call that was not aborted; with a buffer that covers the response it goes out after all data; its residual decodes to buffer length minus response length, for a write minus the bytes counted |
| Response.ReadResidual | fcst/ft_cmd.c:335-349 | for a read the residual is the buffer length minus the bytes really sent exactly if status is not in front of data |
| Response.StuckForGood | fcst/ft_io.c:107-114 | no run of a response gets past a stuck frame or, with a buffer that covers it, to its status |
| Response.PrematureOnlyOnExactMultiple | fcst/ft_io.c:80-92 | status before data needs a buffer shorter than the response, a multiple of the payload limit long and without a stuck frame |
| CmdProtocol.RunSound | fcst/ft_cmd.c:175-250 | in any order of the locked sections, a command that waits for data has an unanswered entry to NEED_DATA |
| CmdProtocol.AtMostOneCallPerEntry | fcst/ft_cmd.c:211-250 | in any order of the locked sections, two calls of scst_rx_data have an entry to NEED_DATA between them |
| CmdProtocol.ToldWhatHappened | fcst/ft_cmd.c:211-250 | over any run SCST is told of success exactly if a frame that completes the data finds the command waiting, and of failure exactly if an abort does |
| CmdProtocol.NoDataNoSuccess | fcst/ft_io.c:284-292 | so without such a frame it is never told of success |
| CmdProtocol.DoneAbsorbs | fcst/ft_cmd.c:175-250 | DONE is absorbing and silent |
| CmdProtocol.ScsiStaysScsi | fcst/ft_cmd.c:211-504 | however many responses and transfer readies overlap, each restoring what it found, a SCSI command is never in a management state or DONE, so the abort handler never takes its default arm |
| CmdProtocol.CallsAreSections | fcst/ft_cmd.c:211-504 | overlapping calls are a run of locked sections, so SCST is told at most once per entry to NEED_DATA in them too |
| CmdProtocol.ManagementStaysManagement | fcst/ft_cmd.c:579-669 | a task management request never enters a data state and never calls scst_rx_data; it meets the default arm of the abort handler exactly if it is aborted after it was completed |
| CmdProtocol.AdvanceKeepsToldOnce | fcst/ft_cmd.c:286-504 | an event keeps SCST told at most once exactly if it is not a transfer ready that comes back for want of memory after SCST was told |
| CmdProtocol.OrderlyRunsNeverWarn | fcst/ft_cmd.c:286-504 | under SCST's call order with QUEUE_FULL retries, and with data, timeouts and exchange errors at any moment, no call meets the state its WARN_ON is about, the abort handler meets no unexpected state, and the command waits for data exactly while SCST does |
| CmdProtocol.OrderlyRunsAreCalls | fcst/ft_cmd.c:286-504 | runs in SCST's order are runs of overlapping calls in which at most one is inside the target |
| CmdProtocol.UndisturbedCalls | fcst/ft_cmd.c:286-504 | with nothing in between, a failed transfer ready leaves the command new, a failed response leaves it as it was, and an accepted one leaves it waiting for data or answered |
| CmdProtocol.OrderlyRunsTellOnce | fcst/ft_cmd.c:286-504 | SCST is told about the data at most once, unless a transfer ready is overtaken |
| CmdProtocol.OvertakenTellsTwice | fcst/ft_cmd.c:482-503 | every run up to an overtaken transfer ready goes on to one that tells SCST twice |
| CmdProtocol.ArrivedToldTwice | fcst/ft_cmd.c:482-503 | such a run of a newly arrived command |
| Sessions.LookupAgrees | fcst/ft_sess.c:198-211 | the walk of a bucket finds exactly the session the map holds for the port id |
| Sessions.InsertKeeps | fcst/ft_sess.c:264-276 | a new session keeps every entry in the bucket of its hash, the port ids distinct and the count right |
| Sessions.CreateAgrees | fcst/ft_sess.c:222-282 | creating a session updates the map at its port id, with the same answer; a repeated login changes only the parameters |
| Sessions.CreateMeans | fcst/ft_sess.c:222-282 | case by case: a zero frame size is a conflict, a repeated login changes the parameters only, a first one needs memory and gets the parameters, the frame size and as payload limit the offload limit or else the frame size; nobody else changes |
| Sessions.PrliMeans | fcst/ft_sess.c:380-440 | the answer to every service parameter page; only one that asks for an image pair, names an initiator and no process associator, on an enabled port, gets as far as a session |
| Sessions.UnhashKeeps | fcst/ft_sess.c:288-297 | taking out a session keeps the table well formed and its references, clears its port id and parameters, and the count it decrements is not zero |
| Sessions.CreatedPayload | fcst/ft_sess.c:256-260 | a new session has a payload limit above zero, as the read sender demands, exactly if the port's offload limit is not zero |
| SessionLife.PrliKeeps | fcst/ft_sess.c:380-440 | a login request does to the table, and answers, what the map version does; a refused one changes nothing |
| SessionLife.PrloKeeps | fcst/ft_sess.c:303-323 | a logout removes exactly its port id from the map |
| SessionLife.CloseKeeps | fcst/ft_sess.c:330-341 | a release closes the session at the head of its bucket, which takes exactly that session out of the map |
| SessionLife.BucketKeeps | fcst/ft_sess.c:576-582 | behind the last bucket the table is empty |
| SessionRuns.DemandsMet | fcst/ft_sess.c:288-297 | in every state of a safe run the table is well formed and its sessions have references, as the BUG_ONs of a release demand |
| SessionLife.StepKeeps | fcst/ft_sess.c:180-610 | with releases under the lock, every step of every thread keeps reference counts, reader safety and the table's meaning as a map, except that a release may read a link from freed memory |
| SessionRuns.SessionsAreSafe | fcst/ft_sess.c:180-610 | in every interleaving, with releases under the lock, in which no release reads a freed session's link: no event touches an unallocated session or meets a BUG_ON; a count is the table's reference plus those in flight; the table is the map that logins, logouts, closes and enables alone would make; sess_count is its size; it is empty while the port is disabled and no release is under way |
| SessionRuns.OnlyTheLostFault | fcst/ft_sess.c:180-610 | the one event that can touch an unallocated session or meet a BUG_ON is a release that reads a freed link |
| SessionRuns.ShelteredReleaseIsSafe | fcst/ft_sess.c:576-582 | every interleaving is safe in which every release holds a read section or begins with nobody logged in |
| SessionRuns.ReleaseCanStray | fcst/ft_sess.c:576-582 | a release that holds none, with a session to close, can read that session's link from freed memory |
| SessionRuns.AnyReleaseCanStray | fcst/ft_sess.c:563-586 | so can every release, as the source does it, of a port with somebody logged in |
| SessionRuns.ReleaseStraysIff | fcst/ft_sess.c:563-586 | and none of a port with nobody logged in |
| SessionRuns.StartCanStray | fcst/ft_sess.c:563-606 | one login and one release are enough |
| SessionRuns.VisitIsCurrent | fcst/ft_sess.c:198-211 | a lock-free lookup settles on a session exactly if the map holds it for the port id at that moment |
| SessionRuns.LookupGets | fcst/ft_sess.c:180-216 | an undisturbed lookup of somebody who is logged in gets a reference to the session of the map |
| SessionLife.FreedOnce | fcst/ft_sess.c:464-487 | memory is freed only after exactly one release of the session, when no reference is left and no reader can reach it |
| SessionRuns.FrozenStep | fcst/ft_sess.c:199-204 | a session whose count reached zero does not change any more while its memory lasts |
| SessionRuns.NeverHandedOut | fcst/ft_sess.c:199-204 | over whole runs no reference to such a session is handed out |
| FtSess.Tport.constructor | fcst/ft_sess.c:77-79 | a new port has 64 empty buckets |
| FtSess.Tport.Walk | fcst/ft_sess.c:198-211 | the bucket walk stops at the first session with the port id |
| FtSess.Tport.SessGet | fcst/ft_sess.c:180-216 | a lookup takes a reference to the session found unless it has none left |
| FtSess.Tport.SessCreate | fcst/ft_sess.c:222-282 | creates a session in place as specified: a new one has the parameters, frame size and payload limit of its login and one reference |
| FtSess.Tport.PrliLocked | fcst/ft_sess.c:380-440 | answers a login request in place as specified; one that is not admitted changes nothing |
| FtSess.Tport.SessUnhash | fcst/ft_sess.c:288-297 | unlinks a session in place; the count is not zero |
| FtSess.Tport.SessDelete | fcst/ft_sess.c:303-323 | unlinks the session that a lookup would find, and returns it |
| FtSess.Tport.SessPut | fcst/ft_sess.c:471-487 | drops a reference; dropping the last one releases the session |
| FtSess.Tport.Prlo | fcst/ft_sess.c:489-514 | logs a port out: unlinks its session and drops the table's reference |
| FtSess.Tport.SessClose | fcst/ft_sess.c:330-341 | closes a session that is still in the table |
| FtSess.Tport.CloseHead | fcst/ft_sess.c:576-582 | the link of a closed head, read after it was closed, leads to what is now the head |
| FtSess.Tport.CloseBucket | fcst/ft_sess.c:576-582 | closes a bucket by following the links of the sessions it has closed |
| FtSess.ReleaseEmpties | fcst/ft_sess.c:563-586 | a release leaves nobody logged in, a count of zero and the port disabled |
| FtSess.Tport.TgtRelease | fcst/ft_sess.c:563-586 | closes all sessions, one bucket after another: the map is empty, the count zero, the port disabled |
| FtSess.Tport.TgtEnable | fcst/ft_sess.c:589-610 | enabling keeps everybody who is logged in, disabling, undisturbed, empties the map |
| Disable.OnlyTheLateLogin | fcst/ft_sess.c:404-429 | however a login overlaps a disable, no BUG_ON fires, and whoever is logged in at the end is the login that was added behind the walk |
| Disable.DisableLeavesIff | fcst/ft_sess.c:404-429 | a disable can leave somebody logged in exactly if a login that can add a session is past its test when it begins |
| Disable.LogoutInTheMiddle | fcst/ft_sess.c:288-341 | a logout between the test and the unhashing of a close keeps the table right exactly if it is of another port |
| Disable.TwiceOut | fcst/ft_sess.c:288-297 | a session taken out twice fires the BUG_ON on the count if it was the only one, and leaves the count wrong otherwise |
| SglBuild.Clip | mpt/mpt_scst.c:1078-1110 | the clipped list keeps its addresses and describes exactly the first bufflen bytes of the scatter list |
| SglBuild.ChainOutOfFrame | mpt/mpt_scst.c:1207-1235 | the first chain replaces the last slot of the frame, whose element starts the chain area |
| SglBuild.FixChain | mpt/mpt_scst.c:1240-1246 | a chain element gets the length and next offset of the segment it leads to |
| SglBuild.OverwriteLast | mpt/mpt_scst.c:1247-1266 | a further chain replaces the last slot of a full segment, whose element starts the next one |
| SglBuild.Build | mpt/mpt_scst.c:1201-1288 | the loop leaves exactly the intended layout in the frame and in the chain area |
| SglBuild.SendTargetData | mpt/mpt_scst.c:1358-1393 | clipping and building together fit the driver's chain area and describe exactly the first bufflen bytes, the announced length |
| SglBuild.Walk | mpt/mpt_scst.c:4955-4981 | the driver's walk passes the original elements in order and stops at the one that holds the offset |
| SglList.ReadBack | mpt/mpt_scst.c:1201-1288 | a reader that follows chain addresses and one that steps over chain elements both get the original list |
| SglList.ListFlags | mpt/mpt_scst.c:1223-1288 | LAST_ELEMENT is on exactly the last simple element of each segment, END_OF_LIST on the final element only |
| SglList.ListHeaders | mpt/mpt_scst.c:1240-1282 | every chain element of the area names the next slot, and every chain element's length and next offset match its segment, which is full if the list goes on behind it |
| SglList.AreaFits | mpt/mpt_scst.h:140-146 | with at most NUM_SGES elements and segments of at least 9 slots the chain area holds the list |
| IoState.StepKeeps | mpt/mpt_scst.c:2338-2432 | every handler upholds an abort: it sets no recovery flag on an aborted I/O, reissues nothing, and ABORTED goes only with cleanup or a restart |
| IoState.AbortOverridesRecovery | mpt/mpt_scst.c:4720-4748 | no reachable flag word has ABORTED together with a recovery flag |
| IoState.AbortedStays | mpt/mpt_scst.c:2402-2432 | over whole runs ABORTED stays until a cleanup or a restart of the adapter |
| IoState.AbortedIsNeverReissued | mpt/mpt_scst.c:2366-2396 | after an ABTS for an active I/O it is never reissued, converted or redone, whatever SRRs came before or after |
| IoState.SrrRecovers | mpt/mpt_scst.c:4803-4880 | an accepted SRR does lead to a reissue, and an ABTS in between prevents it |
| IoState.SrrAsks | mpt/mpt_scst.c:4803-4880 | an SRR for data asks for the whole transfer, the rest behind its offset, status alone at its end, or the command again from a block boundary in front of it; one for status has that sent, alone or behind the data; anything else asks for nothing |
| IoState.RecoveryDone | mpt/mpt_scst.c:2366-2396 | the error reply adjusts, reissues, converts or redoes as asked; sent again, the I/O is as it was; done again or converted, its data is not out any more |
| IoState.SrrDoes | mpt/mpt_scst.c:4754-4898 | an SRR and the error reply together give an active I/O exactly the recovery that is for it, or leave it unchanged if there is none |
| IoCycle.HappeningCleansIff | mpt/mpt_scst.c:702-882 | a command, an answer, a completion, an error or a retransmission takes the buffer to the stage it should be at, exactly if it is not one of the harmful ones |
| IoCycle.CyclesAreClean | mpt/mpt_scst.c:702-882 | over every run without a harmful event the flag word shows how far the I/O is, no WARN_ON or BUG_ON of the reply handler fires, and the firmware has the buffer whenever there is no command |
| IoCycle.HarmGoesWrong | mpt/mpt_scst.c:5165-5261 | after the first harmful event something is wrong at once or with the next reply |
| IoCycle.NotSentCompletes | mpt/mpt_scst.c:5243-5255 | on parallel SCSI, status whose sense data stayed behind is handled as a completion |
| IoCycle.CleanedUp | mpt/mpt_scst.c:2402-2432 | an error that ends an I/O has the driver post the buffer, with no flag left but the priority one |
| IoCycle.FirmwareReposts | mpt/mpt_scst.c:3027-3070 | the firmware posts the buffer behind status exactly if the priority is high, or status goes out by itself and neither the adapter is exiting nor a parallel SCSI status carries sense data |
| IoCycle.AbortEnds | mpt/mpt_scst.c:2119-2175 | the reply to an abort posts the buffer of an aborted I/O with nothing on its way, and otherwise only calls off a recovery |
| IoCycle.PriorityAnswers | mpt/mpt_scst.c:2277-2335 | a high-priority reply to a posted buffer is a command that keeps the priority, or is answered with a status behind which the firmware posts the buffer |
| CmdBuffer.CmdBuffer.CmdBufPost | mpt/mpt_scst.c:2813-2879 | posting marks the buffer posted, keeps every other flag but the priority one, and that only if the adapter is exiting or SAS |
| CmdBuffer.CmdBuffer.TargetCleanup | mpt/mpt_scst.c:2402-2432 | cleanup ends an abort and all recovery, forgets what was sent, and reposts an idle buffer |
| CmdBuffer.CmdBuffer.SendTgtData | mpt/mpt_scst.c:1179-1334 | sending data upholds an abort |
| CmdBuffer.CmdBuffer.SendTargetStatus | mpt/mpt_scst.c:3010-3151 | sending status, deferred behind data, upholds an abort |
| CmdBuffer.CmdBuffer.Reply | mpt/mpt_scst.c:702-882 | the reply handler upholds an abort |
| CmdBuffer.CmdBuffer.Error | mpt/mpt_scst.c:5111-5262 | the error handler upholds an abort: it ends one only by cleaning up |
| CmdBuffer.CmdBuffer.ReplyError | mpt/mpt_scst.c:2338-2399 | the error reply reissues, converts or redoes only an I/O that is not aborted |
| CmdBuffer.CmdBuffer.ReplyHighPriority | mpt/mpt_scst.c:2277-2335 | the high-priority reply upholds an abort |
| CmdBuffer.CmdBuffer.TargetModeAbortReply | mpt/mpt_scst.c:2119-2175 | the abort reply upholds an abort, ending it only by cleaning up |
| CmdBuffer.CmdBuffer.AbtsProcess | mpt/mpt_scst.c:4708-4751 | after an ABTS an active I/O is aborted and has no recovery in progress, and all other flags; one that is posted or aborted already is unchanged |
| CmdBuffer.CmdBuffer.SrrProcess | mpt/mpt_scst.c:4754-4898 | an SRR changes nothing on an aborted I/O or if there is no recovery for it, otherwise asks for its recovery, and is accepted exactly if there is one, one was asked for before, or the I/O is aborted |
| CmdBuffer.CmdBuffer.XmitResponse | mpt/mpt_scst.c:1626-1660 | a response from SCST upholds an abort |
| SenseCache.StepKeeps | mpt/mpt_scst.c:796-835 | every event keeps the cache consistent with what SCST and the initiator have been told |
| SenseCache.RunKeeps | mpt/mpt_scst.c:796-835 | over every run scst_tgt_cmd_done is called once for each command that went to SCST, in order, and for no other; containers of locally served commands are freed once each, by their own completion |
| SenseCache.OthersGoToScst | mpt/mpt_scst.c:1544-1550 | a command that is no REQUEST SENSE goes to SCST and is not served, whatever is cached |
| SenseCache.DriverAnswersExactly | mpt/mpt_scst.c:1475-1562 | over every run the driver serves exactly the REQUEST SENSE commands, with a container to be had, directly behind a completion whose sense data was not sent, each with that sense data; SCST gets exactly the others that it takes |
| SenseCache.ServedSense | mpt/mpt_scst.c:1513-1528 | a served REQUEST SENSE stays within its allocation length and returns a beginning of the preceding command's sense data exactly if that covers the request |
| SenseCache.StaleBytes | mpt/mpt_scst.c:3059-3085 | 14 bytes of sense data that announce 18, and a response that still carries an earlier command's 18, have bytes sent that are not the command's sense data |
| SenseCache.Initiator.TgtCommand | mpt/mpt_scst.c:1456-1562 | a new command is served from the cache or passed on, in place as specified; one that is no REQUEST SENSE is passed on and the cache given up |
| SenseCache.Initiator.SendStatus | mpt/mpt_scst.c:3047-3086 | the response's sense area is cached in place as specified |
| SenseCache.Initiator.StatusReply | mpt/mpt_scst.c:5243-5255 | a completion, with or without its sense data, updates the cache in place as specified |
| RegSets.LowestFree | mvsas_tgt/mv_64xx.c:534-551 | the search returns the first clear bit of the split bitmap |
| RegSets.RunsStayConsistent | mvsas_tgt/mv_64xx.c:483-552 | over every run of assign, free and the other writers a bit is set exactly if a device holds its register set, and no two devices hold the same |
| RegSets.AssignIsLowestFree | mvsas_tgt/mv_64xx.c:523-552 | an assignment gives the lowest register set nobody holds and fails exactly if all are held |
| RegSets.AssignTouchesOne | mvsas_tgt/mv_64xx.c:523-552 | a device that holds a register set keeps it; otherwise no other device and no register bit but the one enable bit changes |
| RegSets.FreeTouchesOne | mvsas_tgt/mv_64xx.c:498-521 | a release clears the enable bit of what the device held and changes no other bit or device |
| RegSets.Mvs.constructor | mvsas_tgt/mv_init.c:31-33 | a chip with 16 or 32 register sets starts with none taken |
| RegSets.Mvs.AssignRegSet | mvsas_tgt/mv_64xx.c:523-552 | the search loop over both registers assigns in place as specified, leaves a device that holds one alone, and reports failure exactly if it is left with none |
| RegSets.Mvs.FreeRegSet | mvsas_tgt/mv_64xx.c:498-521 | the device holds nothing any more, the bit of what it held is clear, no other device is touched, and bitmap and devices still agree |
| RegSets.Mvs.StopIssue | mvsas_tgt/mv_64xx.c:483-496 | stopping sets the eight stop bits and no other, so it marks and frees no register set, and bitmap and devices still agree |
| RegSets.Mvs.ClearActiveCmds | mvsas_tgt/mv_64xx.c:702-712 | pulsing the enable bits leaves both registers as they were |

## Left out

- The scatter/gather branch of the read sender (`fcst/ft_io.c` lines 144-159): it is switched off at line 105.
- Bidirectional commands: the write path and the response use different buffer lengths for them; all claims are for
  one-direction commands.
- Mapping and unmapping of buffers, freeing of frames and exchanges, sequence numbers.
- The sense data and response code fields of an FCP response, and responses sent on allocation failures.
- FtCmd.FtCmd.SendXferRdy: the burst length and the offset in the transfer-ready payload are not modelled, because
  they are constants of the command.
- CmdProtocol.DoneAbsorbs: excludes a test-and-set that expects DONE, because the source itself warns about one
  (`fcst/ft_cmd.c` line 199) and none of its callers makes one.
- CmdProtocol.ManagementStaysManagement: the task management functions themselves are not modelled, only the states.
  The source never aborts such a request; the statement covers the case that something does.
- FtCmd.FtCmd.SendStatusFrame: status and sense fields of the response are not modelled.
- FtCmd.FtCmd.SendResponse: for one-direction commands.
- Sessions.LookupAgrees: for 24-bit port ids, which is what the fabric assigns. The hash is the kernel's
  multiplicative one; no proof depends on which it is.
- Creation and deletion of local ports, so the answer to a login on a port without a target; the service parameter
  bits of the answer; `prli_count`, which a release does not maintain.
- SessionRuns.SessionsAreSafe: for releases under the lock that excludes logins and logouts, as the comment on the
  release demands of its caller and as unregistering a target does; the source's own disable (`fcst/ft_sess.c` line
  605) takes none, and `Disable` says what follows. The waiting at the end of a release is not modelled. Session
  memory is a map from addresses to records, in which an address may be used again after it was freed.
- SessionLife.StepKeeps: for releases under the lock, likewise.
- FtSess.Tport.TgtEnable: as one undisturbed operation; `Disable` has the disturbed one.
- Disable.DisableLeavesIff: with one login and no logout under way, and the login's search and insertion one step; the
  logout is in Disable.LogoutInTheMiddle. Freeing of closed sessions is in `SessionRuns`.
- FtSess.Tport.CloseBucket: a hash chain is a sequence, with the link of a session that has left it kept beside it.
- SglBuild.Clip: under an identity DMA mapping, in which every scatter entry is mapped to one entry of its own length.
- SglBuild.SendTargetData: for up to 64 scatter entries, the size of the driver's own list, although it lets SCST hand
  over 128 (`mpt/mpt_scst.c` line 294).
- SglBuild.Build: a slot is a simple or a chain element; the byte layout, address width and direction flag within it,
  the 24-bit width of an element's length and the request's offset of its first chain are not modelled.
- The half of the SRR offset adjustment behind the walk (`mpt/mpt_scst.c` lines 4983-5023): its new offset is fixed at
  0.
- Message frames, deferred frames and the MPT hardware queues, task management, configuration pages, link services; a
  response without status or on a session that is shutting down.
- IoState.AbortedIsNeverReissued: the conditions a handler finds, such as whether a command is waiting for data, are
  arbitrary, which only adds runs.
- IoState.SrrDoes: for an I/O with no other recovery in progress, and offsets and lengths whose sum stays within 32 bits.
- IoCycle.CyclesAreClean: an SRR and the reply to the request that it aborts count as one event, with nothing in between,
  and aborts are left to IoCycle.AbortEnds and IoState.AbortedIsNeverReissued. Commands that the driver cannot hand over
  (no memory, a session that is being set up or shut down) and task management are not modelled, nor are high-priority
  replies other than commands, about which the source itself warns (`mpt/mpt_scst.c` line 2302); IoCycle.PriorityAnswers
  has their flags.
- SenseCache.RunKeeps: with one outstanding command per initiator, sense data that fits the response's sense area, and
  no error reply other than the one for sense data that was not sent; bus resets are not modelled.
- RegSets.Mvs.FreeRegSet: the interrupt status register of the register sets, which is only acknowledged, is not
  modelled; neither are the 94xx chips.