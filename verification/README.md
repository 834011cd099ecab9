# Verified model of wanctl's protocols and state machines

wanctl lets a controller run commands, move files and drive a desktop on a remote device.
This project models the parts of it that are hard to get right - protocols between
goroutines, bounded and expiring permissions, nested framings, exact arithmetic - and
proves properties of every run, every input and every interleaving of these models.

Every component that the program changes in place has two forms here: a class whose
methods make one critical section, one loop or one call each, and a state with pure step
functions that those methods refine (`Abs() == DoX(old(Abs()), ...)`). Runs are sequences
of steps of all threads, and the theorems are lemmas about all of them.

| files | component |
|---|---|
| `Workspace`, `WorkspaceVerdicts`, `WorkspaceDevice`, `WorkspacePages`, `Utf8` | the remote workspace: request ledger, approvals racing cancel and close, output budgets, paging, the controller's polling loop |
| `Wire`, `ShellPackets`, `StreamRead`, `StreamWire`, `StreamInput`, `StreamAcks`, `LittleEndian` | the ADB transport: messages, shell packets, the incremental reader, stdin and its acknowledgements |
| `Engine`, `Pointer` | the desktop input engine and where it moves the pointer |
| `OpenCU`, `OpenCUCalls`, `OpenCUService` | the stop latch of computer-use sessions |
| `LateGrants`, `LateGrantBooks`, `LateGrantStore` | one-shot approvals that arrive late, and the gate that uses them |
| `Pairing`, `PairingOutcomes`, `PairingService` | pairing an unknown controller |
| `WorkspaceLink`, `WorkspaceLinkUse`, `WorkspaceLinkObject` | the reusable connection of a conversation |
| `Spake2`, `AdbKey`, `Modular` | SPAKE2 as BoringSSL plays it, and adb's public-key encoding with its Montgomery constants |
| `Jobs`, `JobStore` | background jobs and their collector |
| `Wrap`, `Quote`, `Verbs` | word wrap, shell quoting, the Android verbs |
| `Common` | bytes, options, sequence lemmas |

`dafny verify dfyconfig.toml` checks the whole project.

Parameters of the model: the results of shell execution and of system calls, the policy
engine and its labels and tokens, clock readings, which fingerprints and directories are
valid, the owner's answers, random identifiers and scalars, the hash function and the
encoding of curve points. Times are whole seconds.

## Where the code and its promises differ

- A person's OpenCU stop can be lost. When a stop is announced after the person answered the
  direct approval of an earlier stop with yes and before that call's dispatch section runs,
  the section clears it together with the old one (`internal/desktop/opencu.go:132-153`).
  `OpenCU.WindowIsReachable` is such a run, `OpenCU.StopLostExactly` shows that nothing else
  loses a stop, and `OpenCU.StopsSurviveExactly` is the condition over whole runs.
- The input engine may send one press behind a stop latch: the one that had passed its check
  before the latch was set (`internal/desktop/engine.go:96-105`). `Engine.LateDownExactly` is
  the exact condition, `Engine.LateDownIsReachable` a history that meets it, and `Engine.Run`
  shows that its own histories are of that kind. The same goes for one other call, such as a
  pointer move (`Engine.OneLateCall`).
- `readMessage` reports a plain EOF for a connection that ends right behind a header with a
  payload to come; `Wire.EofExactly` is the exact condition, `Wire.EofBehindHeader` such a
  header. So the strict reader may report success with a last message missing:
  `StreamWire.ReadWire` with `StreamWire.EndsExactly` is the exact condition over the bytes,
  `StreamWire.MissingMessageUnnoticed` such connections.
- A job's poller that read past the place of the truncation marker keeps bytes that the marker
  later replaces; `Jobs.SeenStays` is the exact condition, `Jobs.SeenIsLost` such a poll.
- Small-order components change SPAKE2's transcript, which holds the peer's message as it was
  received, although they leave the shared point alone (`Spake2.SmallOrderIsNeutral`,
  `Spake2.SmallOrderChangesTranscript`).
- `drainShellPackets` computes in 32 bits (`internal/adb/conn.go:346-360`). With 4 GiB or more
  behind a header a packet that has arrived may seem incomplete, and is held back
  (`ShellPackets.WholePacketStalls`); the end of a packet of 2^32 - 5 bytes or more wraps, and
  the slice panics (`ShellPackets.HugePacketPanics`). `ShellPackets.Drain` has the exact
  condition, `ShellPackets.SoundExactly` says it in terms of the packets.
- `message.write` converts the payload's length to 32 bits; `Wire.LengthWraps` says what the
  peer reads of a payload of 4 GiB or more.
- Pixels of a virtual desktop wider than 32768 may not survive normalization
  (`Pointer.PixelSurvivesExactly`, `Pointer.WidePixelLost`).

## Model

| member | source | states |
|---|---|---|
| `WorkspacePages.NextOffset` | internal/agent/workspace.go:156-180 | the next offset lies between the offset polled and the retained end |
| `WorkspacePages.FindPageEnd` | internal/agent/workspace.go:159-180 | the two backward scans stop exactly at NextOffset, without reading outside the output |
| `WorkspacePages.PageIsValid` | internal/agent/workspace.go:160-180 | a page of an untruncated valid UTF-8 stream, polled from a character boundary, is valid UTF-8 and ends on a boundary, also while the last character is still being written |
| `WorkspacePages.StallsExactlyMidCharacter` | internal/agent/workspace.go:159-180 | a poll below the retained end makes no progress if and only if the command still writes, nothing was dropped and all that is left is the beginning of one character; a finished job always advances |
| `WorkspacePages.PagesReassemble` | workspace.go:184-208 | over every interleaving of writes, finish and polls the pages concatenate to exactly the retained bytes before the next offset |
| `WorkspacePages.EveryPageIsValid` | internal/agent/workspace.go:160-180 | over every such interleaving, every page of an untruncated stream that is (or can still become) valid UTF-8 is valid by itself |
| `WorkspacePages.PollingIsLossless` | workspace.go:184-208 | both, from the first poll at offset 0 |
| `Utf8.FullRuneIsExact` | internal/agent/workspace.go:172-177 | the full-rune test of the hold-back rejects exactly the proper prefixes of characters (section 4 of RFC 3629) |
| `Utf8.BoundaryIsRuneStart` | internal/agent/workspace.go:160-165 | inside valid text the rune starts are exactly the character boundaries |
| `Utf8.BetweenBoundaries` | internal/agent/workspace.go:160-165 | text between two boundaries of a valid text is valid |
| `Workspace.LedgerPromises` | internal/agent/workspace.go:212-272 | in every interleaving each request id is dispatched at most once and its finished channel closed at most once, active names exactly the unfinished request, at most 128 requests, inputBytes and outputBytes equal the ledger sums and respect 1 MiB and 8 MiB, each output is a prefix of what its job wrote |
| `Workspace.InvKept` | internal/agent/workspace.go:227-355 | every critical section keeps the invariant those promises follow from |
| `Workspace.InvAlways` | internal/agent/workspace.go:227-355 | and so does every run |
| `Workspace.NoDispatchAfterStop` | internal/agent/workspace.go:319-334 | once cancel or close has taken effect no run ever starts a command |
| `Workspace.QuietForever` | internal/agent/workspace.go:429-436 | when cancel or close has returned no command runs, then or at any later point |
| `Workspace.FinishedIsFinal` | internal/agent/workspace.go:257-272 | a finished request's record never changes in any continuation |
| `Workspace.ReplayNeverStarts` | internal/agent/workspace.go:233-238 | however a run goes on, delivering a recorded id again starts nothing: same input is a duplicate, other input a conflict |
| `Workspace.CancelBeatsApproval` | internal/agent/workspace.go:540-555 | a request cancelled while its approval was pending is never dispatched, and stays finished as cancelled |
| `WorkspaceVerdicts.ReservedExactly` | internal/agent/workspace.go:227-255 | a request is recorded, and then waits for its approval as the active one, if and only if its id is good and new and the workspace is open, idle and within its budgets; otherwise nothing changes |
| `WorkspaceVerdicts.AnswersExactly` | internal/agent/workspace.go:227-250 | a replay is told from a conflict by the recorded input, and a refusal names the first reason there is |
| `WorkspaceVerdicts.DispatchedExactly` | internal/agent/workspace.go:319-332 | over every run, the requests dispatched are exactly those whose yes of the gate arrived while the workspace was open |
| `WorkspaceVerdicts.YesStarts` | internal/agent/workspace.go:319-332 | such a yes starts the command |
| `WorkspaceVerdicts.NoIsFinal` | internal/agent/workspace.go:319-328 | a refused request is dispatched in no continuation; an undecided one ends with -1, as denied or, behind a stop, as stopped before execution, and stays so |
| `WorkspaceVerdicts.VerdictsFromStart` | internal/agent/workspace.go:257-355 | over every run a request is finished if and only if some step gave it a verdict, and its record carries the first one: code, failure and directory of the exit, or why it never ran |
| `WorkspaceVerdicts.OutputIsEmitted` | internal/agent/workspace.go:210-223 | over every run the output of a request is the beginning of what its command wrote, and all of it while the budget is not used up |
| `WorkspaceVerdicts.StopIsForGood` | internal/agent/workspace.go:135-143 | behind a cancel, a close or the death of the shell nothing is dispatched and nothing recorded any more |
| `WorkspaceVerdicts.ReturnedMeansQuiet` | internal/agent/workspace.go:429-436 | when a cancel or close has returned, the shell is shut and no command runs at any later point |
| `WorkspaceVerdicts.CancelExactly` | internal/agent/workspace.go:540-551 | a cancel stops the workspace, ends a request that waits for its approval and leaves a running one to its command |
| `WorkspaceVerdicts.StopCanReturn` | internal/agent/workspace.go:331-355 | the commands' goroutines alone can always empty the wait group |
| `WorkspaceDevice.Device.constructor` | internal/agent/workspace.go:126-132 | a new workspace is the empty open ledger |
| `WorkspaceDevice.Device.ReserveRequest` | internal/agent/workspace.go:227-255 | reserve answers and changes the fields exactly as its step says |
| `WorkspaceDevice.Device.CheckRequest` | internal/agent/workspace.go:230-250 | the six refusals in the order of the source, or fresh |
| `WorkspaceDevice.Device.FinishLocked` | internal/agent/workspace.go:257-272 | finishLocked performs its step: the first verdict wins and closes the channel once |
| `WorkspaceDevice.Device.ResolveFailed` | internal/agent/workspace.go:290-297 | a directory that cannot be resolved ends the request |
| `WorkspaceDevice.Device.DecideRequest` | internal/agent/workspace.go:319-330 | the section after the gate starts the command only if allowed and still open; else it dispatches nothing and finishes the request with the right reason |
| `WorkspaceDevice.Device.Write` | internal/agent/workspace.go:212-223 | the writer accepts all of p and retains what fits the shared budget |
| `WorkspaceDevice.Device.CommandExit` | internal/agent/workspace.go:348-351 | the end of the command records its directory and its verdict |
| `WorkspaceDevice.Device.LeaveWaitGroup` | internal/agent/workspace.go:331-332 | the goroutine leaves the wait group |
| `WorkspaceDevice.Device.BeginCancel` | internal/agent/workspace.go:540-551 | cancel takes effect exactly for the active request |
| `WorkspaceDevice.Device.BeginClose` | internal/agent/workspace.go:429-432 | close marks the workspace |
| `WorkspaceDevice.Device.ReturnFromStop` | internal/agent/workspace.go:433-436 | cancel and close return behind an empty wait group with the shell shut |
| `WorkspaceDevice.Device.StateLocked` | internal/agent/workspace.go:135-143 | closed, else invalid, else open: open exactly when a command could be reserved |
| `WorkspaceDevice.Device.Snapshot` | internal/agent/workspace.go:145-188 | a poll answers the state, the active request and the page of the job at that offset, or the error |
| `WorkspaceDevice.Device.Take` | internal/agent/workspace.go:212-355 | every step of every thread is taken by the critical section it stands for |
| `WorkspaceDevice.PollOnce` | workspace.go:184-208 | one poll appends its page; it advances whenever a finished job has bytes left |
| `WorkspaceDevice.OutputGrows` | internal/agent/workspace.go:212-223 | in every run a recorded request stays recorded and its output only grows |
| `WorkspaceDevice.AwaitWorkspace` | workspace.go:184-208 | for a request in any phase and any steps of all threads between the polls that finish it, the loop ends; what it copied is exactly the output of the final record, whose verdict it reports |
| `Wire.ComputeChecksum` | internal/adb/wire.go:88-94 | the accumulating loop, wrapping at every step, computes the sum of the bytes modulo 2^32 |
| `Wire.Write` | internal/adb/wire.go:97-120 | the header filled in place and the payload are the encoding of the message |
| `Wire.Reader.ReadFull` | internal/adb/wire.go:138-169 | io.ReadFull tells nothing read (EOF) from a short read |
| `Wire.ReadMessage` | internal/adb/wire.go:138-169 | consuming the reader step by step is Decode of the bytes, with every error case |
| `Wire.RoundTrip` | internal/adb/wire.go:97-169 | an encoded message of any size reads back, checksum on or off, exactly when its payload is within the limit |
| `Wire.LengthWraps` | internal/adb/wire.go:97-169 | a payload of 4 GiB or more reads back cut to its length modulo 2^32, the rest of it as what follows |
| `Wire.DecodeIsFaithful` | internal/adb/wire.go:138-169 | whatever is read was on the wire, behind the header that carries it and with the right checksum when verified |
| `Wire.EofExactly` | internal/adb/wire.go:138-158 | EOF is reported exactly at the end of the bytes or right behind a valid header whose payload never came |
| `Wire.EofBehindHeader` | internal/adb/wire.go:138-158 | such a header |
| `Wire.ErrorsExactly` | internal/adb/wire.go:138-169 | every other error exactly when it is the first thing wrong |
| `Wire.TrafficRoundTrip` | internal/adb/wire.go:97-169 | any sequence of messages within the limit reads back as itself, then EOF |
| `LittleEndian.FromToLE` | internal/adb/wire.go:97-112 | decoding the little-endian encoding of a number that fits gives the number |
| `LittleEndian.ToFromLE` | internal/adb/wire.go:138-150 | encoding what was decoded gives the same bytes |
| `LittleEndian.PutUint32` | internal/adb/wire.go:97-112 | a 32-bit store in place writes exactly four bytes |
| `ShellPackets.ParseIsUnique` | internal/adb/conn.go:342-363 | nothing but the parse itself splits a buffer into whole packets and an incomplete rest |
| `ShellPackets.ParseCovers` | internal/adb/conn.go:342-363 | packets and rest together are the whole buffer, and the rest holds no whole packet |
| `ShellPackets.ParseContinues` | internal/adb/conn.go:342-363 | parsing the leftover with the next chunk continues the parse of the whole |
| `ShellPackets.SoundExactly` | internal/adb/conn.go:343-360 | in terms of the packets in a buffer: it is sound exactly when each packet is shorter than 2^32 - 5 and no longer than what is behind its header, modulo 2^32 |
| `ShellPackets.SoundBelow` | internal/adb/conn.go:343-360 | every buffer below 2^32 bytes is sound |
| `ShellPackets.WholePacketStalls` | internal/adb/conn.go:346-348 | a packet that has arrived whole, with 2^32 bytes behind its header, and seems incomplete |
| `ShellPackets.HugePacketPanics` | internal/adb/conn.go:349-360 | a packet of 2^32 - 3 bytes whose end wraps to 2, so that the slice panics |
| `ShellPackets.Drain` | internal/adb/conn.go:342-363 | with the 32-bit arithmetic of the source, for buffers of any size: it delivers exactly the parsed packets and keeps exactly the rest if and only if the buffer is sound or a write fails first; else it panics over a packet whose end wraps or stops before one that seems incomplete; what was delivered and what is kept always make up the whole |
| `ShellPackets.DrainChunks` | internal/adb/conn.go:280-316 | for any cutting of a stream of any length into WRTE chunks: without a panic no packet is lost or reordered, and each is delivered with the chunk that completes it if and only if all buffers are sound; with less than 4 GiB buffered at a time folding the drain equals one parse of the whole |
| `ShellPackets.ShellMeaning` | internal/adb/conn.go:258-363 | output is the stdout and stderr payloads in wire order, the status the first byte of the last exit packet that has one |
| `ShellPackets.DeliversExactly` | internal/adb/conn.go:349-358 | a writer that takes so many writes gets the first payloads, and the drain fails exactly when there are more |
| `StreamRead.AcceptMeaning` | internal/adb/stream.go:155-190 | packets are accepted if and only if they are well formed with at most one exit and fit the queues |
| `StreamRead.AcceptPacket` | internal/adb/stream.go:157-183 | one packet changes queues and exit as specified, or is refused with its reason |
| `StreamRead.AcceptPackets` | internal/adb/stream.go:155-190 | the incremental parser consumes exactly the whole packets; an oversize length fails as soon as its header is there |
| `StreamRead.Receive` | internal/adb/stream.go:133-192 | one message that carries the stream on changes the reader exactly so |
| `StreamRead.Read` | internal/adb/stream.go:127-195 | an exit code is returned if and only if the stream is clean: well-formed packets, exactly one exit packet, no partial tail; then the queues hold the in-order payloads of each kind |
| `StreamRead.Finish` | internal/adb/stream.go:132-140 | a close or EOF succeeds exactly with an exit code and nothing pending |
| `StreamRead.BadBytes` | internal/adb/stream.go:155-190 | packets refused once stay refused whatever follows, and so does an oversize header |
| `StreamRead.BadPrefix` | internal/adb/stream.go:127-195 | no continuation of a refused beginning is a clean stream |
| `StreamWire.ReceiveAll` | internal/adb/stream.go:131-150 | what the loop sees is the messages that decode from the bytes, each by its ids and command, and then how recv ended |
| `StreamWire.ReadWire` | internal/adb/stream.go:127-195 | on the raw bytes of the connection: an exit code is returned if and only if they decode to messages of this stream that carry well-formed packets with exactly one exit packet and no partial tail, followed by a close or a plain EOF; then the queues hold the in-order payloads |
| `StreamWire.EndsExactly` | internal/adb/wire.go:138-158 | the bytes end in a plain EOF if and only if nothing is left behind the messages, or a lone header whose payload never came |
| `StreamWire.CutBehindHeader` | internal/adb/wire.go:138-158 | cut right behind the header of one more message, a connection reads as if that message had never been sent |
| `StreamWire.MissingMessageUnnoticed` | internal/adb/stream.go:131-141 | so success is reported with any further message missing behind the exit packet |
| `StreamInput.Input.constructor` | internal/adb/stream.go:73-74 | a new stdin is open and has sent nothing |
| `StreamInput.Input.InputPacket` | internal/adb/stream.go:106-125 | one packet goes out and its acknowledgement is awaited, or the reason why not |
| `StreamInput.Input.SendChunk` | internal/adb/stream.go:82-93 | one turn of the loop sends the chunk at n, or ends the write |
| `StreamInput.Input.Write` | internal/adb/stream.go:75-95 | it succeeds exactly when every chunk is acknowledged, and then exactly the chunks of p went out; else exactly those with an acknowledgement and at most one more |
| `StreamInput.Input.Close` | internal/adb/stream.go:96-105 | the first close sends one close-stdin packet and succeeds exactly when that is acknowledged; later ones send none |
| `StreamInput.SessionMeaning` | internal/adb/stream.go:75-105 | a session carries the written bytes in order, in chunks within the limit, and only its last packet closes stdin |
| `StreamInput.ChunksAreFull` | internal/adb/stream.go:82-93 | only the last chunk of a write may be shorter than the limit allows |
| `StreamInput.EndToEnd` | internal/adb/stream.go:75-126 | through both framings: for any bytes, writes and limit above 5 the messages fit the limit, read back as they were, and parse into exactly the original bytes followed by one close |
| `StreamInput.WriteSession` | internal/adb/stream.go:75-105 | the imperative session succeeds exactly when there is an acknowledgement for every packet, and sends exactly that |
| `StreamAcks.InvKept` | internal/adb/stream.go:106-154 | every step of writer, reader, peer and closer keeps the invariant |
| `StreamAcks.OneOutstanding` | internal/adb/stream.go:144-154 | in every interleaving from a new stream at most one stdin packet is unacknowledged and the ack channel never overflows |
| `StreamAcks.NeverStuck` | internal/adb/stream.go:106-125 | while the writer is blocked, the peer or the reader can move |
| `StreamAcks.BlockedBriefly` | internal/adb/stream.go:48-56 | a blocked writer is released within six progress steps, by an ack or by done |
| `Engine.Desk.constructor` | internal/desktop/engine.go:189 | a run begins with nothing held |
| `Engine.Desk.SomeoneMayStop` | internal/desktop/engine.go:30-40 | a latch may be set at any moment and is never reset |
| `Engine.Desk.Check` | internal/desktop/engine.go:41-51 | an error exactly when a latch is set, a person's stop named first |
| `Engine.LateDownExactly` | internal/desktop/engine.go:96-105 | in every history of the input lock, a down follows the latch if and only if the latch fell between that very press's check and its send |
| `Engine.LateDownIsReachable` | internal/desktop/engine.go:96-105 | a history in which it does |
| `Engine.OneLateCall` | internal/desktop/engine.go:204-240 | behind the latch at most one other call is made, whose checkpoint was passed before |
| `Engine.LegalIsSafe` | internal/desktop/engine.go:96-121 | every down was cleared by its own check just before, nothing passes a check behind the latch, and at most one call is made there |
| `Engine.Desk.Press` | internal/desktop/engine.go:96-105 | behind a latch nothing is sent; otherwise the check clears one press, which is recorded as held and sent, with at most the latch in between |
| `Engine.Desk.Release` | internal/desktop/engine.go:106-121 | one up attempt for everything held, last first; what failed stays held; true exactly when nothing is |
| `Engine.Desk.LetAllGo` | internal/desktop/engine.go:106-121 | what is held is let go last first, whatever came before |
| `Engine.Desk.Overtaken` | internal/desktop/engine.go:192-203 | the watcher and other threads keep the invariant at every point |
| `Engine.TrackedAfterRelease` | internal/desktop/engine.go:106-121 | after a release every down so far has a later attempt, and is released or still held |
| `Engine.Desk.Perform` | internal/desktop/engine.go:288-476 | every action, interrupted anywhere: its presses are the first ones of its script, all of them when it succeeds, and without a stop the whole script is played - the moves, presses, waits and releases of that action - and nothing else |
| `Engine.Conclude` | internal/desktop/engine.go:148-163 | the monitor is joined last; a person's stop names the final status unless input may still be held |
| `Engine.Run` | internal/desktop/engine.go:137-489 | over every interleaving: every down - even a failed one - gets a later up attempt before Run returns; every down had passed its check before any latch, and the only one behind a latch is the one whose send the latch overtook; a status other than unknown leaves nothing held; a completed run has played exactly the scripts of all actions, a rejected one nothing; the completed actions are always played in full, and nothing is pressed that is not in the scripts, in their order |
| `OpenCU.ShapeKept` | internal/desktop/opencu.go:60-229 | every critical section keeps sessions, connections, call and timers consistent |
| `OpenCU.StopLostExactly` | internal/desktop/opencu.go:94-213 | a step makes a stop that is owed an answer go unrecorded if and only if it is the dispatch section of a call whose direct yes came before that stop |
| `OpenCU.StopForcesDirectApproval` | internal/desktop/opencu.go:94-119 | while a stop is owed, the next call asks the person directly |
| `OpenCU.NoCallPastAStop` | internal/desktop/opencu.go:132-170 | no call passes the pre-dispatch check with a stop recorded, or owed outside that window |
| `OpenCU.CallKeepsItsConnection` | internal/desktop/opencu.go:99-118 | the connection of a call in progress is closed by nobody but the call and the shutdown |
| `OpenCU.StopsSurvive` | internal/desktop/opencu.go:35-229 | over every run of calls, failures, idle closes, updates and installs that avoids that window, an announced stop stays recorded until a direct approval is answered yes |
| `OpenCU.StopsSurviveExactly` | internal/desktop/opencu.go:35-229 | and over any run, stops stay recorded in every state if and only if no step falls into the window |
| `OpenCU.StopsSurviveFromStart` | internal/desktop/opencu.go:35-229 | so for every run of a new service |
| `OpenCU.WindowIsReachable` | internal/desktop/opencu.go:119-153 | a concrete run in which a second stop, between the direct yes and the dispatch section, is lost |
| `OpenCUCalls.RefusedCallEnds` | internal/desktop/opencu.go:119-131 | a no, or a caller who gave up, ends the call: in no later state before the next call is it past its approval; no stop is settled |
| `OpenCUCalls.NoCallWithoutConsent` | internal/desktop/opencu.go:119-131 | over every run a call goes on to the engine only on a yes of its own |
| `OpenCUCalls.OwedExactly` | internal/desktop/opencu.go:86-190 | over every run a controller is owed an answer if and only if a stop came with no direct yes for it since |
| `OpenCUCalls.BeginExactly` | internal/desktop/opencu.go:75-96 | a call asks the person directly exactly when a stop is recorded |
| `OpenCUCalls.DispatchExactly` | internal/desktop/opencu.go:132-170 | an approved call reaches the engine exactly unless a stop came meanwhile or a connection it needs does not start; the connection is the kept one, or a new one after a direct approval, and then the old one is closed |
| `OpenCUCalls.ReplyIsReused` | internal/desktop/opencu.go:120-215 | the next call uses the connection the last reply came on |
| `OpenCUCalls.BrokenIsReplaced` | internal/desktop/opencu.go:120-215 | after a failure it gets a new one and the broken one is closed |
| `OpenCUCalls.UsedSessionOutlivesTimer` | internal/desktop/opencu.go:98-118 | once a session is used again, an idle timer armed before closes nothing at any later moment |
| `OpenCUCalls.IdleSessionCloses` | internal/desktop/opencu.go:98-118 | a session that nothing uses loses its connection to its timer, and keeps an announced stop |
| `OpenCUCalls.UpdateClosesAll` | internal/desktop/opencu.go:389-423 | an update closes every connection and forgets no stop |
| `OpenCUCalls.ReservedExcludesCalls` | internal/desktop/opencu.go:400-412 | no call begins while an update holds the desktop |
| `OpenCUCalls.ShutClosesAll` | internal/desktop/opencu.go:217-231 | the shutdown closes every connection, and none is opened behind it |
| `OpenCUService.Service.SweepOne` | internal/desktop/opencu.go:35-44 | closeConn closes the session's connection and keeps the stop it announced |
| `OpenCUService.Service.BeginCall` | internal/desktop/opencu.go:75-98 | first critical section |
| `OpenCUService.Service.AnswerApproval` | internal/desktop/opencu.go:119-131 | a no ends the call and settles nothing, a yes lets it go on and settles the stops of a call asked directly |
| `OpenCUService.Service.BeforeEngine` | internal/desktop/opencu.go:132-168 | second critical section: last check, renewal after a direct approval, start |
| `OpenCUService.Service.AfterEngine` | internal/desktop/opencu.go:170-214 | section after the reply or the failure |
| `OpenCUService.Service.EndCall` | internal/desktop/opencu.go:99-118 | the deferred end arms the idle timer for its generation |
| `OpenCUService.Service.IdleTimer` | internal/desktop/opencu.go:111-117 | the timer closes only what nothing has used since |
| `OpenCUService.Service.CloseAllIdle` | internal/desktop/opencu.go:389-423 | the loop over all sessions closes every idle connection and keeps every stop |
| `LateGrants.OneShot` | internal/agent/approvals.go:395-553 | in every concurrent run late approvals per (kind, controller, key, directory) plus live grants never exceed the installs; each use is unexpired; live grants are distinct and at most 32; at most 64 scripts |
| `LateGrants.InvKept` | internal/agent/approvals.go:395-553 | every locked section keeps that conservation |
| `LateGrants.TakeInv` | internal/agent/approvals.go:523-535 | take succeeds exactly for a grant that is live and unexpired, and it is gone then |
| `LateGrants.MineStays` | internal/agent/approvals.go:541-553 | what a request found stays with it while the others move |
| `LateGrants.ResolveExactly` | internal/agent/approvals.go:455-470 | a label resolves to the token of the scripts it was shown for, to itself when there is none, and to nothing exactly when two differ |
| `LateGrants.ScriptGrantIsWhole` | internal/agent/approvals.go:395-470 | a grant for a remembered script carries its whole token, and no other script of that controller has the label |
| `LateGrants.FindsItsOwn` | internal/agent/approvals.go:498-519 | find returns exactly a live grant for the very request |
| `LateGrants.FailedChecksSpendNothing` | internal/agent/approvals.go:541-553 | a request whose checks failed uses no grant in any continuation unless it asks again, and every grant stays where it was |
| `LateGrantBooks.UsesAreApproved` | internal/agent/approvals.go:390-535 | over every concurrent run each live, found or used grant is that of one recorded approval, for its request and its window; every use falls within that window; no approval is used twice |
| `LateGrantBooks.RefusalExactly` | internal/agent/approvals.go:390-420 | what an approval must name, and the first reason to refuse it |
| `LateGrantBooks.InstallOther` | internal/agent/approvals.go:390-441 | an approval of a path or of logs makes one grant for exactly that, from now until its window is over; the others stay, but for the oldest of 32 |
| `LateGrantBooks.InstallCommand` | internal/agent/approvals.go:390-477 | an approval of a command makes such a grant for the label, or for the whole token of the remembered script under it, and fails exactly when two are remembered |
| `LateGrantBooks.AskedThenInstalled` | internal/agent/approvals.go:443-498 | within a day of the question the approval of a script's card makes a grant for the whole script unless another one shares its label |
| `LateGrantBooks.FindExactly` | internal/agent/approvals.go:498-519 | finding spends nothing and disturbs no live grant |
| `LateGrantBooks.TakeExactly` | internal/agent/approvals.go:520-535 | taking spends the found grant exactly if it is still live, and no other |
| `LateGrantStore.FoundExactly` | internal/agent/approvals.go:498-519 | find returns a live grant for that very request, whenever there is one |
| `LateGrantStore.Store.constructor` | internal/agent/approvals.go:311-319 | an empty store |
| `LateGrantStore.Store.PruneLocked` | internal/agent/approvals.go:532-535 | prunes grants and scripts |
| `LateGrantStore.Store.ResolveLocked` | internal/agent/approvals.go:455-470 | the scanning loop computes Resolve |
| `LateGrantStore.Store.Install` | internal/agent/approvals.go:395-441 | refuses as the source does, or installs |
| `LateGrantStore.Store.InstallLocked` | internal/agent/approvals.go:421-441 | the locked part replaces the slot, keeps the bound, and records the approval with its time and window |
| `LateGrantStore.Store.AskedAbout` | internal/agent/approvals.go:475-494 | remembers a script whose card shows only a label |
| `LateGrantStore.Store.FindGrant` | internal/agent/approvals.go:498-519 | find |
| `LateGrantStore.Store.TakeGrant` | internal/agent/approvals.go:523-530 | take |
| `LateGrantStore.Store.Spend` | internal/agent/approvals.go:546-552 | checks first; then the grant is spent exactly when it still lives |
| `LateGrantStore.Store.UseLateGrant` | internal/agent/approvals.go:541-553 | with any run of other requests in between: the grant found is spent if and only if the checks passed and it was still there, unexpired |
| `LateGrantStore.Gate` | internal/agent/agent.go:366-399 | the decision for every case: a bypass or rule, else a late approval exactly when the grant found passed its checks and still lived, else the owner's answer after the checks |
| `Pairing.PairingIsSafe` | internal/console/console.go:238-386 | over all dials, decisions and times: every verdict is the owner's decision on that entry and fingerprint, made after a dial that asked for it and within the TTL of that dial; a verdict on arrival is a yes at most the TTL old; no entry is decided twice; undecided requests and notification records stay at most 16 |
| `Pairing.InvKept` | internal/console/console.go:238-386 | every critical section keeps the invariant |
| `Pairing.CollectedOnce` | internal/console/console.go:243-305 | once some dial has received a verdict, no dial that starts later can |
| `Pairing.ApprovalReaches` | internal/console/console.go:344-386 | a yes reaches the next dial of its fingerprint if and only if that comes within the TTL |
| `Pairing.RefusalForgets` | internal/console/console.go:344-386 | a no gives the next dial no verdict but a fresh request, unless 16 are waiting |
| `PairingOutcomes.DialCollects` | internal/console/console.go:238-256 | a dial that finds a decided request gets one verdict, its own, and takes it out of the table |
| `PairingOutcomes.DialRefused` | internal/console/console.go:264-268 | a new controller is refused exactly while 16 live requests wait, and leaves none |
| `PairingOutcomes.DialAsks` | internal/console/console.go:257-291 | any other dial leaves one undecided request that lives five minutes from now, the one that waits already or a fresh one |
| `PairingOutcomes.DecisionCounts` | internal/console/console.go:344-364 | an answer counts exactly for a live undecided request |
| `PairingOutcomes.DecisionRecorded` | internal/console/console.go:364-376 | then it is on record; a yes stays five minutes, a no takes the request away |
| `PairingOutcomes.CollectExactly` | internal/console/console.go:293-300 | a dial that collects gets its own entry's verdict, that entry leaves the table and the others stay |
| `PairingOutcomes.CollectedForGood` | internal/console/console.go:293-300 | after that no dial that starts later gets a verdict of that entry, however the run goes on |
| `PairingOutcomes.DoneWaiting` | internal/console/console.go:292-305 | a dial that timed out or collected gets nothing more |
| `PairingOutcomes.AnswerReachesWaiting` | internal/console/console.go:292-376 | the owner's answer reaches every dial that waits for that request, whatever happens until it wakes up |
| `PairingOutcomes.ClaimExactly` | internal/console/console.go:325-337 | a controller notifies the owner exactly if it has not within half an hour and fewer than 16 have |
| `PairingOutcomes.NewRequestsNotify` | internal/console/console.go:264-283 | a request notifies the owner when a dial has just made it, and at no other moment |
| `PairingOutcomes.ClaimStands` | internal/console/console.go:325-337 | over every run a notification stands for half an hour |
| `PairingService.Service.constructor` | internal/console/console.go:197-203 | no request, no notification |
| `PairingService.Service.PruneExpiredPairsLocked` | internal/console/console.go:379-386 | the loop removes exactly the expired requests |
| `PairingService.Service.UndecidedPairsLocked` | internal/console/console.go:310-320 | the loop counts exactly the undecided requests |
| `PairingService.Service.ClaimPairNotifyLocked` | internal/console/console.go:325-337 | claims exactly once a window for each fingerprint and at most 16 in all |
| `PairingService.Service.AskPair` | internal/console/console.go:238-291 | the dial up to its wait: verdict, refusal, or a waiting request |
| `PairingService.Service.Collect` | internal/console/console.go:293-300 | a waiting dial takes its own entry's verdict, which is recorded, and removes that entry only |
| `PairingService.Service.DecidePair` | internal/console/console.go:344-375 | the decision counts only for a live undecided request |
| `WorkspaceLink.InvKept` | internal/client/workspace_link.go:29-161 | every critical section, dial and close keeps the invariant |
| `WorkspaceLink.LinkIsSound` | internal/client/workspace_link.go:52-161 | in every interleaving requests are sent only on a connection dialed for their own scope, a stored connection was dialed under the stored key, nothing overtaken is stored, and a cancellation closes a transport only while its own request holds the gate |
| `WorkspaceLink.CloseLeavesNothingOpen` | internal/client/workspace_link.go:29-45 | after Close, with nothing under way, every connection ever dialed is closed |
| `WorkspaceLink.OvertakenDialIsClosed` | internal/client/workspace_link.go:131-147 | an overtaken dial stores and sends nothing, and what it dialed is closed before its request leaves |
| `WorkspaceLink.DropOvertakesDial` | internal/client/workspace_link.go:29-45 | so does every dial under way when Drop or Close comes, however the run goes on |
| `WorkspaceLink.GateIsReleased` | internal/client/workspace_link.go:52-102 | the gate is free again within 21 steps of the request and its callback |
| `WorkspaceLinkUse.ReusesConnection` | internal/client/workspace_link.go:107-150 | a request with its scope on the link dials nothing and sends on that connection |
| `WorkspaceLinkUse.DialsWhenThereIsNone` | internal/client/workspace_link.go:107-150 | without one it dials, stores what it dialed under its scope and sends on that |
| `WorkspaceLinkUse.ReplacesOtherScope` | internal/client/workspace_link.go:107-150 | a connection of another scope is closed first |
| `WorkspaceLinkUse.SuccessKeepsConnection` | internal/client/workspace_link.go:74-102 | a good reply leaves the connection for the next request |
| `WorkspaceLinkUse.FailedIsForgotten` | internal/client/workspace_link.go:74-102 | after a failure, a rejection or a cancellation the connection is never again stored or sent on, however the run goes on |
| `WorkspaceLinkUse.FailedIsClosed` | internal/client/workspace_link.go:74-102 | and it is closed before that request leaves |
| `WorkspaceLinkUse.DropExactly` | internal/client/workspace_link.go:29-38 | Drop takes the stored connection off, closes it, and overtakes what is under way |
| `WorkspaceLinkUse.CancelExactly` | internal/client/workspace_link.go:63-73 | a cancellation during an exchange closes that request's own transport |
| `WorkspaceLinkUse.CloseExactly` | internal/client/workspace_link.go:29-45 | Close is for good and ends with a Drop |
| `WorkspaceLinkObject.Link.constructor` | internal/client/workspace_link.go:17-26 | an empty open link |
| `WorkspaceLinkObject.Link.DropLocked` | internal/client/workspace_link.go:29-34 | Drop's critical section |
| `WorkspaceLinkObject.Link.Drop` | internal/client/workspace_link.go:29-38 | Drop closes exactly the stored connection and advances the generation |
| `WorkspaceLinkObject.Link.CloseMarkLocked` | internal/client/workspace_link.go:40-44 | Close marks the link before it drops |
| `WorkspaceLinkObject.Link.Look` | internal/client/workspace_link.go:107-130 | first section of connFor |
| `WorkspaceLinkObject.Link.Recheck` | internal/client/workspace_link.go:126-130 | the recheck after a replaced connection was closed |
| `WorkspaceLinkObject.Link.Dial` | internal/client/workspace_link.go:131-136 | the dial outside the lock |
| `WorkspaceLinkObject.Link.Store` | internal/client/workspace_link.go:137-145 | stores only when neither closed nor overtaken |
| `WorkspaceLinkObject.Link.Reply` | internal/client/workspace_link.go:74-102 | a failure, a rejection or a done context takes the connection off the link |
| `WorkspaceLinkObject.Link.Stop` | internal/client/workspace_link.go:66-73 | stop joins a callback that has begun |
| `WorkspaceLinkObject.Link.Exchange` | internal/client/workspace_link.go:52-102 | a whole request with arbitrary interference: it ends, frees the gate, leaves no callback, and sends at most one message, on a connection dialed for its scope, and exactly one when it was answered |
| `Spake2.SharedIsProduct` | internal/adb/spake2.go:131-140 | unmasking and the cofactor leave 64 times both scalars times the base point |
| `Spake2.Agreement` | internal/adb/spake2.go:86-140 | both roles compute the same point for all ephemeral scalars and any mask points |
| `Spake2.SmallOrderIsNeutral` | internal/adb/spake2.go:135-140 | adding a component to the peer's point leaves dh unchanged for every scalar if and only if eight times it vanishes |
| `Spake2.TranscriptInjective` | internal/adb/spake2.go:142-156 | equal length-prefixed transcripts come from equal fields, for any number of fields |
| `Spake2.AgreeExactly` | internal/adb/spake2.go:86-156 | Alice and Bob hash the same bytes if and only if the names mirror, both messages arrived unaltered and the password digests agree |
| `Spake2.HonestRunAgreesExactly` | internal/adb/spake2.go:86-156 | in an honest run nobody refuses, and the parties hash the same bytes if and only if names mirror and password digests agree |
| `Spake2.SeenIsHashed` | internal/adb/spake2.go:142-156 | another accepted message gives other bytes to hash |
| `Spake2.SmallOrderChangesTranscript` | internal/adb/spake2.go:131-156 | a point of order eight added to the message leaves dh alone and changes what is hashed |
| `Spake2.SameRoleNeverAgrees` | internal/adb/spake2.go:142-150 | two parties of one role never hash the same bytes |
| `Spake2.HashedHoldsAll` | internal/adb/spake2.go:142-156 | any two parties hash the same bytes if and only if they agree on both names, both messages, the shared point and the password digest |
| `Spake2.WrongPasswordExactly` | internal/adb/spake2.go:86-140 | with another password's scalar a party shares the honest point exactly if the difference of the masks vanishes |
| `Spake2.Session.constructor` | internal/adb/spake2.go:81-83 | no message yet |
| `Spake2.Session.GenerateMsg` | internal/adb/spake2.go:86-116 | sets the session up as the party with that scalar and password |
| `Spake2.Session.ProcessMsg` | internal/adb/spake2.go:119-156 | the key is the hash of the party's transcript; refuses before generate, on a wrong size and off the curve |
| `AdbKey.InverseIs` | internal/adb/key.go:94-98 | for every odd number an inverse below 2^32, whose product with it is 1 modulo 2^32 |
| `AdbKey.InverseIsUnique` | internal/adb/key.go:94-98 | there is no other below 2^32 |
| `AdbKey.N0InvIs` | internal/adb/key.go:94-99 | 0 < n0inv < 2^32 and n * n0inv = -1 modulo 2^32 |
| `AdbKey.StepDivides` | internal/adb/key.go:94-99 | a Montgomery step T + (T * n0inv mod 2^32) * n is divisible by 2^32 |
| `AdbKey.ReduceIs` | internal/adb/key.go:90-103 | k such steps divide T plus a multiple of n, smaller than n times the radix, exactly by the radix |
| `AdbKey.EntersMontgomeryForm` | internal/adb/key.go:101-103 | reducing x * rr gives x times the radix modulo n, below 2n: what n0inv and rr are precomputed for |
| `AdbKey.BytesNeeded` | internal/adb/key.go:119-130 | a number has at most size bytes if and only if it is below 256^size |
| `AdbKey.LittleEndianPadded` | internal/adb/key.go:119-130 | the loop writes the little-endian bytes; its index is out of range exactly when the number does not fit |
| `AdbKey.LayoutRoundTrip` | internal/adb/key.go:105-110 | reading the struct gives back words, n0inv, n, rr and e; 12 + 8 words bytes, 524 for 64 words |
| `AdbKey.PublicKey` | internal/adb/key.go:90-110 | the appended buffer is that struct, with no panic exactly when n fits |
| `Jobs.WriteKeeps` | internal/agent/jobs.go:72-92 | one write takes what is kept of a stream to what is kept of the longer stream |
| `Jobs.OutputIsKept` | internal/agent/jobs.go:72-92 | for any cutting into writes the output is the stream or, past the limit, its first bytes and the marker |
| `Jobs.SeenStays` | internal/agent/jobs.go:96-108 | what a poll returned stays a prefix of the output if and only if the marker was not written over it |
| `Jobs.SeenIsLost` | internal/agent/jobs.go:72-108 | a poll whose bytes are lost |
| `Jobs.CollectionIsFair` | internal/agent/jobs.go:204-234 | unfinished jobs stay, expired ones go, what is kept meets both budgets, evicted jobs finished no later than kept ones, and one eviction fewer would exceed a budget |
| `JobStore.Job.constructor` | internal/agent/jobs.go:51-68 | a new job has no output |
| `JobStore.Job.Write` | internal/agent/jobs.go:72-92 | the writer keeps the output in step with the stream and accepts all of p |
| `JobStore.Job.Snapshot` | internal/agent/jobs.go:96-108 | output from an offset clamped into range |
| `JobStore.SortByFinished` | internal/agent/jobs.go:227 | a permutation sorted by finishing time, ties in any order |
| `JobStore.Store.constructor` | internal/agent/jobs.go:120-122 | an empty store |
| `JobStore.Store.DropExpired` | internal/agent/jobs.go:205-226 | the first loop drops exactly the expired jobs and lists exactly the other finished ones |
| `JobStore.Store.Evict` | internal/agent/jobs.go:228-233 | evicts the fewest oldest; retained[0] is out of range exactly when a budget is negative |
| `JobStore.Store.GcLocked` | internal/agent/jobs.go:204-234 | the whole collection |
| `JobStore.Store.GetFor` | internal/agent/jobs.go:134-150 | collects, then another controller's job looks like none |
| `JobStore.Store.Start` | internal/agent/jobs.go:155-172 | collects, then adds just the new job to what is left, exactly while fewer than the maximum run |
| `JobStore.Job.Finish` | internal/agent/jobs.go:185-189 | the end of a command is recorded |
| `JobStore.Store.Leave` | internal/agent/jobs.go:194-197 | the goroutine stops counting, then the store collects |
| `JobStore.RunAll` | internal/agent/jobs.go:155-200 | over every interleaving of starts, polls, writes, ends and leaving goroutines: running counts exactly the goroutines that have not left, at most maxConcurrent commands run, and every stored job that has not finished is one of them |
| `Wrap.FieldsExactly` | internal/catalog/render.go:357 | the fields of a text are the one list of words of which it consists, but for white space around them and between every two |
| `Wrap.GreedyArranges` | internal/catalog/render.go:361-371 | the lines hold the words in order, each within the width or a single word |
| `Wrap.StaysAhead` | internal/catalog/render.go:363-370 | greedy wrapping started no earlier than an arrangement needs no more lines |
| `Wrap.FewestLines` | internal/catalog/render.go:356-372 | no arrangement under the same rule has fewer lines |
| `Wrap.WrappedKeepsWords` | internal/catalog/render.go:356-372 | the wrapped text has exactly the words of the text |
| `Wrap.WrappingIsIdempotent` | internal/catalog/render.go:356-372 | wrapping again changes nothing |
| `Wrap.WrapPlain` | internal/catalog/render.go:356-372 | the loop computes the greedy wrapping |
| `Quote.ReadQuoted` | internal/androidverb/verb.go:145-147 | a shell reads a quoted argument as one word, every character of it quoted |
| `Quote.QuotingRoundTrips` | internal/androidverb/verb.go:149-155 | for every argument list, empty strings and quotes included, the shell reads exactly the arguments and none of their characters outside quotes |
| `Quote.QuotingIsInjective` | internal/androidverb/verb.go:149-155 | different argument lists are quoted differently |
| `Quote.QuoteAll` | internal/androidverb/verb.go:149-155 | the loop over an array and the join compute that text |
| `Quote.CommandReads` | internal/androidverb/verb.go:178-204 | fixed words followed by quoted arguments expand to just these words and those arguments |
| `Quote.SandwichReads` | internal/androidverb/verb.go:248 | the same with fixed words behind the argument |
| `Verbs.VerbExpands` | internal/androidverb/verb.go:169-330 | every command a verb builds expands to its own fixed words and exactly the caller's |
| `Verbs.AppReads` | internal/androidverb/verb.go:207-264 | for every subcommand of app |
| `Verbs.RefusedExactly` | internal/androidverb/verb.go:169-330 | a verb refuses exactly what its usage does not allow |
| `Pointer.CoordinateProgress` | internal/desktop/engine.go:371-390 | a coordinate stays between its ends, never turns back, arrives exactly |
| `Pointer.DragStaysInBox` | internal/desktop/engine.go:371-390 | every point of a drag lies in the box of its ends, later points are nearer the destination, the last one is it |
| `Pointer.Path` | internal/desktop/engine.go:371-390 | the loop's points, their number, and the end at the destination |
| `Pointer.NormalizedInRange` | internal/desktop/input_windows.go:46-54 | a pixel on the desktop normalizes to 0..65535 |
| `Pointer.PixelSurvivesExactly` | internal/desktop/input_windows.go:46-54 | it is found again if and only if the division leaves at most 65536 |
| `Pointer.PixelsSurvive` | internal/desktop/input_windows.go:46-54 | and always on a desktop up to 32768 wide |
| `Pointer.WidePixelLost` | internal/desktop/input_windows.go:46-54 | beyond that not: 32771 wide, pixel 21847 |

## Left out

- OpenCU.StopsSurvive: holds outside the window named above, where the code loses a stop; OpenCU.StopsSurviveExactly is the two-way statement.
- WorkspaceDevice.AwaitWorkspace: a transport error, a failing writer and a workspace removed from the device between two polls, each of which ends the wait with an error.
- Pairing.PairingIsSafe: every critical section reads the clock once; the original may read it again within one.
- Pairing.CollectedOnce: dials that were already waiting together may share one verdict, as in the code.
- WorkspaceLink.LinkIsSound: says nothing about whether a stored connection is still alive; a late cancellation can leave a dead one stored, as in the code.
- AdbKey.PublicKey: the base64 text, the name behind it and the trailing NUL; the arithmetic is shown for every number of words, adb's being 64.
- Engine.Desk.Perform: hit tests, focus and window checks and backend calls are nondeterministic successes and failures; the points that screenshot coordinates map to, the keys of a key string and how often a window is polled or activated are parameters of the action.
- Spake2.Session.ProcessMsg: curve and field arithmetic are the group Z_L x Z_8 that they implement; SHA-512 and point encodings are parameters, keys are compared by what is hashed.
- Quote.QuotingRoundTrips: the reader covers quoting and blanks, and refuses every other construct of the shell's grammar instead of modelling it.
- JobStore.Store.Start: running the command, its time-out, its final error line, which is one more write to the job, and the onDone callback.
- Wrap.WrapPlain: text is a sequence of Unicode characters, so bytes that are not UTF-8 do not occur; `wrap`, which only splits paragraphs around it, is not modelled.
- LateGrantStore.Store.Install: fingerprint syntax, canonical directories and the clamping of the window are decided by the caller.
- The JSON transport of workspace pages: Go's encoder replaces invalid UTF-8, so reassembly is stated on the pages returned, not on the wire.
- Workspace file actions, opening and limits of several workspaces, and the directory a shell is in: calls into the file system and the shell.
- The approval phone's outbox and its line protocol, the console's other requests and its subscriptions.
- The ADB handshake, key authentication, TLS upgrade and pairing packets around SPAKE2.
- HTTP and WebSocket carriers, the relay, TLS, certificates, AES-GCM: library calls.
- Win32 calls, GDI, hooks, service and process management: foreign calls.
- CLI parsing, help text, prompts, the command catalog's contents and status printing.
- Update selection, settings precedence and window clamps: decision tables.
- `shellOutput`, `firstDiagnostic`, `installerOutput` and `limitedOutput`: easier than the parsers proved here.
