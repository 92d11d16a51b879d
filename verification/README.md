# Theater in Dafny

Theater runs WebAssembly actors. Everything an actor does is recorded in a hash chain, so
that a run can be replayed and checked; actors talk over a message router, own TCP
connections through a shared table, and are spawned, stopped and shut down by one command
loop. This project models the parts of Theater whose correctness hangs on state carried
across many steps, and proves what they keep over every run and every interleaving.

| files | part of Theater |
|---|---|
| Base64, Json, Frames, FragmentingCodec, Reassembly, WireRoundTrip, FramedDriver, ExpiryRuns | the fragmenting wire codec of the management server, and its reader |
| HashChain | the generic hash chain |
| StateChain, Replay, ReplayRuns | the runtime's own chain, the interceptors, the replay handler |
| ChainFormat, ChainFiles | the text form of a chain |
| Tcp, TcpRuns, TcpHistory | the TCP handler's connection table and its interleavings |
| Router | the message router |
| Shutdown | the shutdown controller and the message server's hand-over of receivers |
| Registry | the runtime's command loop |
| ModuleCache | the compile cache |
| Prelude | bytes, options, index sets |

State that the source updates in place is a class whose methods are proved against functions
on values; the theorems are about runs of those functions, compared with references that
look only at the history of steps. Work done under different locks is cut into separate
steps, and a run is any interleaving of them. Foreign code comes in as parameters: SHA-1,
SHA-256, the compiler, the guest program, and the value language with its codec, printer and
parser, each with its hypotheses spelled out where it is used. Clocks, expiry, timeouts,
handshakes, which receivers are alive and what actors answer are unconstrained choices of the
environment.

## What the code does not do

Where a property one would expect is false of the code, the code is modelled as it is; the
project shows a failing case and proves exactly when the property holds.

- A message between 8 MiB minus 3 bytes and 8 MiB may be refused by the encoder
  (`WireRoundTrip.EncodeFailsExactly`), and one of 2^32 chunks or more does not come back
  (`WireRoundTrip.RoundTripExactly`). The comment on the chunk size says 12 MB; the constant,
  and so the model, says 8 MiB.
- A decode call may answer that nothing is complete while a whole frame is buffered
  (`WireRoundTrip.QuietWithFramesBuffered`), and the reader in front of the codec then waits for
  more input: it gets everything only if the fragments are spread over enough pieces
  (`FramedDriver.GetsAllExactly`).
- The generic chain's verification accepts grafted remainders (`HashChain.GraftVerifies`);
  the runtime's own chain does not have this gap (`StateChain.SameHeadSameChain`).
- The chain of an actor that was stopped from outside does not replay, whereas one stopped
  because of a trap does (`ReplayRuns.ReplayExactly`); but a replay with a trapped call is
  reported as a failure even though every hash matches (`ReplayRuns.FinishedReport`). `ResumeActor`
  always starts from the default state; a replay from another state than the recording's may
  diverge (`ReplayRuns.OtherStateDiverges`) and succeeds exactly if the chain could have been
  recorded from that state too (`ReplayRuns.ReproducedFromExactly`).
- The text form is described as lossless and its parsed chains as verifying; it drops event
  types, events with an empty hash and undecodable payloads (`ChainFormat.LosslessExactly`), and
  what it gives back verifies only if the types were blank and the payloads empty or decodable
  (`ChainFiles.FileVerifiesExactly`).
- A once-mode read returns a connection to passive mode but not to a readable stream
  (`TcpRuns.OnceLeavesUnreadable`). Cleanup, read loops and failed callbacks may remove a
  connection that has been transferred meanwhile (`TcpRuns.RemovesForeignExactly`), and a read
  loop goes on pushing the new owner's data to the old one (`TcpRuns.PushedToOwnerExactly`). An
  actor may be left with a connection after its cleanup (`TcpRuns.AfterCleanupExactly`).
- A close by an outsider is refused and yet closes the channel (`Router.RefusedStillCloses`).
- An actor that registers between two steps of setup leaves a receiver behind, and the
  controller's call in the actor's own control loop waits for it forever
  (`Shutdown.ShutdownCompletesExactly`, `Shutdown.StuckForGood`); `stop_actor`, which waits for that
  loop, gives up after ten seconds.
- A failed spawn leaves its chain behind (`Registry.FailedSpawnLeavesChain`). The
  documentation of `stop_actor` says it stops children too; the code leaves that to the
  supervisor handler, and so does the model.

## Model

| member | source | states |
|---|---|---|
| `WireRoundTrip.RoundTrip` | crates/theater-server/src/fragmenting_codec.rs:236-361 | Encode any list of messages (each of fewer than 2^32 chunks, all encodable), cut the byte stream anywhere, and decode after every piece until no whole frame remains: the same messages come out in order, nothing is left over and nothing fails |
| `WireRoundTrip.RoundTripExactly` | crates/theater-server/src/fragmenting_codec.rs:177-215 | One encodable message comes back as itself if and only if it has fewer than 2^32 chunks; beyond that the 32-bit total wraps |
| `WireRoundTrip.WrappedTotal` | crates/theater-server/src/fragmenting_codec.rs:184-198 | At 2^32 chunks or more the decoder yields nothing, if the total wraps to 0; otherwise exactly one item, the proper prefix of as many chunks as the wrapped total says, and then an error |
| `WireRoundTrip.FeedIsDrain` | crates/theater-server/src/fragmenting_codec.rs:286-361 | Chunk independence for any bytes, well-formed or not: feeding a stream piece by piece yields the same items and the same failure as decoding it at once |
| `WireRoundTrip.DrainAppend` | crates/theater-server/src/fragmenting_codec.rs:286-361 | Decoding a stream in two pieces, with any decoder state, is decoding it at once, a half-read length prefix included |
| `WireRoundTrip.DrainFrames` | crates/theater-server/src/fragmenting_codec.rs:286-361 | On the wire, a list of encoded frames does to the partial-message table exactly what the frames do one after the other |
| `WireRoundTrip.AcceptMessage` | crates/theater-server/src/fragmenting_codec.rs:305-355 | The frames of a message yield it once and leave the table as it was, whatever other messages are in progress |
| `WireRoundTrip.QuietWithFramesBuffered` | crates/theater-server/src/fragmenting_codec.rs:286-361 | For every message that travels in fragments, the first call leaves a whole further frame in the buffer and answers that nothing is complete if and only if the 32-bit total is not 1; what this costs a reader is FramedDriver's subject |
| `WireRoundTrip.NothingHalfWritten` | crates/theater-server/src/fragmenting_codec.rs:239-280 | A message that cannot be encoded leaves nothing behind in the destination buffer |
| `FramedDriver.GetsAllExactly` | crates/theater-server/src/server.rs:536-540 | A reader that waits for more input at the first answer that nothing is complete, as Framed does, never fails and never gets a wrong message; for any messages and any cut of the stream it gets all of them if and only if in every tail of the pieces fewer message-incomplete fragments become whole than there are pieces |
| `FramedDriver.OnePieceExactly` | crates/theater-client/src/tcp.rs:60-62 | When everything arrives in one piece that reader gets exactly the messages before the first one longer than a chunk, so all of them if and only if none is |
| `FramedDriver.TwoPiecesExactly` | crates/theater-server/src/fragmenting_codec.rs:345-354 | A message of two fragments arriving in two pieces comes out if and only if the first piece holds the whole first fragment |
| `FramedDriver.EndExactly` | crates/theater-server/src/fragmenting_codec.rs:345-354 | The counting argument behind it: a reader that stops behind every quiet frame gets to the end if and only if the quiet frames are spread over the pieces in that sense |
| `FramedDriver.ReaderAt` | crates/theater-server/src/fragmenting_codec.rs:286-361 | After every piece the reader stands at exactly the frame this counting says, with the messages up to it, half-read length prefixes included |
| `WireRoundTrip.FragmentsFit` | crates/theater-server/src/fragmenting_codec.rs:194-212 | Every fragment frame is at most 11 184 931 bytes, so the 31 MiB warning cannot fire and fragments always encode |
| `WireRoundTrip.EncodeFailsExactly` | crates/theater-server/src/fragmenting_codec.rs:239-280 | Encoding fails if and only if the message is at most 8 MiB and its JSON number array is over the 32 MiB frame limit |
| `WireRoundTrip.CompleteLimitTight` | crates/theater-server/src/fragmenting_codec.rs:243-253 | 8 MiB minus 4 bytes always fit in one frame, and above that, up to 8 MiB, three-digit bytes never do |
| `Reassembly.StoreOutcome` | crates/theater-server/src/fragmenting_codec.rs:63-98 | For any table and any fragment from the wire: a message comes out exactly when the indices held are 0..total, an error exactly when the count is reached with an index out of range, otherwise the fragment is kept |
| `Reassembly.CompleteInRangeReassembles` | crates/theater-server/src/fragmenting_codec.rs:67-98 | Pigeonhole: a partial message that counts as complete reassembles if and only if all its indices are in range |
| `Reassembly.JoinedInOrder` | crates/theater-server/src/fragmenting_codec.rs:83-97 | Part i of a reassembled message sits right behind parts 0..i-1 |
| `Reassembly.YieldExactly` | crates/theater-server/src/fragmenting_codec.rs:305-355 | Any interleaving, reordering and repetition of the fragments of any set of messages, with expiry at any time: an arrival yields a message exactly when it supplies the last missing fragment since the message was last whole or expired, the message is the original, and nothing fails |
| `Reassembly.YieldedExactlyOnce` | crates/theater-server/src/fragmenting_codec.rs:305-355 | Without expiry, a message all of whose fragments arrive (repeats while incomplete allowed) is yielded exactly once, by its last missing fragment |
| `Reassembly.TableHolds` | crates/theater-server/src/fragmenting_codec.rs:326-344 | After any run the table entry of each message holds exactly the chunks an independent account of the arrivals says it does |
| `ExpiryRuns.CallsExactly` | crates/theater-server/src/fragmenting_codec.rs:286-361 | Any fragments of any messages on the wire, the stream cut anywhere, anything expired before each decode call: a call takes the next fragment if it is whole, and answers with its message if and only if that fragment is the last one missing since the message was last whole or expired, this call's own expiry included; otherwise it answers that nothing is complete |
| `ExpiryRuns.StartsAfresh` | crates/theater-server/src/fragmenting_codec.rs:125-152 | A fragment of a message that expires in the same call starts the message afresh |
| `WireRoundTrip.AnyText` | crates/theater-server/src/fragmenting_codec.rs:286-311 | A whole frame with any text whatever: the text of a frame is taken as that frame, any other fails the call and is consumed; expiry comes first in either case |
| `WireRoundTrip.TooLongFails` | crates/theater-server/src/fragmenting_codec.rs:166-169 | A length prefix over the limit fails the call and stays in the buffer |
| `WireRoundTrip.AnyFragment` | crates/theater-server/src/fragmenting_codec.rs:318-324 | A fragment is stored if and only if its text is the base64 of some bytes, as those bytes; any other fails the call and leaves the table alone |
| `Reassembly.JoinedChunks` | crates/theater-server/src/fragmenting_codec.rs:194-199 | Joining the chunks cut from a message gives the message back |
| `FragmentingCodec.Reassemble` | crates/theater-server/src/fragmenting_codec.rs:75-98 | The loop over indices succeeds exactly when the keys are 0..total, and returns their concatenation in order |
| `FragmentingCodec.Codec.FragmentMessage` | crates/theater-server/src/fragmenting_codec.rs:177-215 | The fragmenting loop produces the fragments of the specification under a fresh id; the counter wraps at 2^64 |
| `FragmentingCodec.Codec.Encode` | crates/theater-server/src/fragmenting_codec.rs:239-280 | Encoding fails exactly when a frame is too long, and the buffer then holds the frames before it |
| `FragmentingCodec.Codec.Decode` | crates/theater-server/src/fragmenting_codec.rs:286-361 | One decode call lets partial messages expire, consumes at most one frame, and moves buffer, pending length and table as the specification says, error paths included; over runs of calls that is ExpiryRuns.CallsExactly |
| `FragmentingCodec.Codec.ReceiveFragment` | crates/theater-server/src/fragmenting_codec.rs:305-355 | A fragment is base64-decoded, stored, and the message taken out when its count is reached |
| `FragmentingCodec.Codec.DecodeFrame` | crates/theater-server/src/fragmenting_codec.rs:166-169 | The length-delimited layer takes a frame when it is whole and refuses one over the limit |
| `Frames.ParseExactly` | crates/theater-server/src/fragmenting_codec.rs:22-42 | The frame parser is the exact inverse of the frame printer: a text parses to a frame if and only if it is that frame's JSON |
| `Frames.CompleteSize` | crates/theater-server/src/fragmenting_codec.rs:243-253 | The exact length of a complete frame: its digits, its commas and 14 bytes |
| `Frames.FragmentSize` | crates/theater-server/src/fragmenting_codec.rs:194-205 | A fragment frame is at most 119 bytes longer than its base64 text |
| `Base64.DecodeOfEncode` | crates/theater-server/src/fragmenting_codec.rs:194-205 | Section 4 of RFC 4648: decoding undoes encoding, for every byte string |
| `Base64.DecodeOnlyEncodings` | crates/theater-server/src/fragmenting_codec.rs:318-324 | The decoder accepts nothing but canonical encodings |
| `HashChain.SameHead` | crates/theater-chain/src/chain.rs:34-62 | Tamper evidence: two verified non-empty chains with the same head hash are equal, or exhibit a SHA-1 collision at equal distance from the head, or the shorter is the longer one cut and grafted onto a root whose text begins with the missing 20-byte parent hash |
| `HashChain.GraftVerifies` | crates/theater-chain/src/chain.rs:34-62 | The grafting exception is real: the remainder of any verified chain verifies under the same head |
| `HashChain.Chain.AddTypedEvent` | crates/theater-chain/src/chain.rs:24-32 | Appending hashes the event over its parent's hash and keeps the whole chain verified |
| `HashChain.Chain.Verify` | crates/theater-chain/src/chain.rs:34-62 | The verification loop accepts a list of events if and only if every hash is right and every event names the one before it |
| `HashChain.VerifiedAppend` | crates/theater-chain/src/event.rs:39-63 | A verified chain extended by an event that verifies and names its head is verified |
| `StateChain.SameHeadSameChain` | crates/theater/src/chain/mod.rs:127-173 | For the runtime's own chain the head pins down every event, whatever the lengths, up to an exhibited collision: its roots cannot be grafted |
| `StateChain.SerializeInjective` | crates/theater/src/events/mod.rs:156-165 | The JSON text that is hashed determines parent, type and data |
| `StateChain.EscapeInjective` | crates/theater/src/chain/mod.rs:132-137 | No two strings escape to texts that could be confused inside the JSON |
| `StateChain.ActorChain.AddTypedEvent` | crates/theater/src/chain/mod.rs:127-173 | The new event is linked to the head, goes to exactly the open subscribers in order, and exactly those stay subscribed |
| `StateChain.EvictClosed` | crates/theater/src/chain/mod.rs:157-159 | Swap-removing the closed subscribers from the highest index down leaves exactly the open ones |
| `StateChain.Dispatch` | crates/theater/src/chain/mod.rs:147-156 | The dispatch loop sends to every open subscriber and lists the closed indices in increasing order |
| `Replay.LookupsInOrder` | crates/theater/src/interceptor.rs:113-130 | Over any sequence of lookups: each answers with the first matching call from the cursor on, and the cursor moves right behind it; positions strictly grow, nothing is handed out twice, and one miss moves the cursor to the end and exhausts the log |
| `Replay.NextMatch` | crates/theater/src/interceptor.rs:113-130 | The first matching host call at or after the cursor, or the end if there is none |
| `Replay.ReplayInterceptor.FindNextHostCall` | crates/theater/src/interceptor.rs:113-130 | The search loop moves the cursor as the specification says |
| `Replay.ReplayInterceptor.BeforeImport` | crates/theater/src/interceptor.rs:135-144 | Before an import the recorded output of the next matching call is answered, if there is one |
| `Replay.ReplayInterceptor.AfterImport` | crates/theater/src/interceptor.rs:146-157 | After an import the host call is appended to the new chain with its input and output |
| `Replay.PayloadReadsBack` | crates/theater/src/events/mod.rs:60-114 | Host calls, guest calls, results and failures read back from their value form with all their fields, and every other payload reads as none of these |
| `Replay.HostCallRoundTrip` | crates/theater/src/replay/mod.rs:80-124 | A host call reads back from its record, field by field by name |
| `Replay.WasmCallRoundTrip` | crates/theater/src/events/wasm.rs:31-125 | A guest call reads back from its record |
| `Replay.WasmResultRoundTrip` | crates/theater/src/events/wasm.rs:48-64 | A result reads back from its record: function, new state and response |
| `Replay.WasmErrorRoundTrip` | crates/theater/src/events/wasm.rs:65-79 | A failure reads back from its record |
| `ReplayRuns.ReplayExactly` | crates/theater/src/interceptor.rs:113-157 | For every deterministic guest, every sequence of calls, host outputs and stops from outside, cut off anywhere: a replay from the same initial state, of at least as many steps, reproduces every event in type, data, parent and hash and is judged complete if every stop in the recording follows a trap; otherwise it reproduces the events before the first other stop and is judged diverged there, or the two texts collide under SHA-1 |
| `ReplayRuns.ReplayMirrors` | crates/theater/src/interceptor.rs:113-157 | Step by step: as long as nobody outside stops the recorded actor, the replay is at the same point of the same call with the same outputs and the same chain, the stop after a trap included |
| `ReplayRuns.ChainIsTheGuests` | crates/theater/src/actor/runtime.rs:1058-1122 | After any run, recording or replaying, the actor's state is that of the last result in its chain, it is in the call the chain says, and every call, import, result and failure recorded is what the guest does from the state, and with the outputs, recorded before it |
| `ReplayRuns.StateIsLastResult` | crates/theater/src/actor/runtime.rs:1085-1098 | The state read off a chain is the one its last result brought, or the initial one if there is none |
| `ReplayRuns.CallsAndEnds` | crates/theater/src/actor/runtime.rs:1058-1122 | After any run, in either mode, the calls in the chain are the given ones in order as far as they were started, at most the stop follows a failure, and there is at most one stop |
| `ReplayRuns.HostsRecorded` | crates/theater/src/interceptor.rs:55-65 | Where every step of a recording adds an event, the event of an import carries the host's answer at that step |
| `ReplayRuns.OutsideByChain` | crates/theater/src/theater_runtime.rs:1121-1143 | Which stops came from outside can be told from the chain alone: those that do not stand right behind a failure |
| `ReplayRuns.StoppedAtOnce` | crates/theater/src/theater_runtime.rs:1121-1143 | The smallest failing case: an actor stopped before its first call |
| `ReplayRuns.ReproducedFromExactly` | crates/theater/src/theater_runtime.rs:483-496 | For any chain in which every stop follows a trap and any initial state: the replay from that state reproduces the chain if and only if the chain could have been recorded from it |
| `ReplayRuns.OtherStateDiverges` | crates/theater/src/theater_runtime.rs:483-496 | A replay from any other initial state, for a guest that hands its state back, makes the same call and is judged diverged at its result, or the two texts collide under SHA-1 |
| `ReplayRuns.FinishedReplay` | crates/theater/src/actor/runtime.rs:918-933 | A recording not cut off within a call or between a trap and its stop is reproduced to the point, with the same final state |
| `ReplayRuns.ReportReplay` | crates/theater/src/replay/handler.rs:312-374 | The handler's loop reports success if and only if all calls returned and verification is complete, or it was interrupted before anything failed |
| `ReplayRuns.ReportExactly` | crates/theater/src/replay/handler.rs:312-374 | A replay that runs to its end uninterrupted is reported successful if and only if none of its calls trapped and no stop from outside was recorded, up to a collision at such a stop |
| `ReplayRuns.FinishedReport` | crates/theater/src/replay/handler.rs:341-348 | For a recording that is over: success if and only if it ended idle, so a faithfully replayed trap is reported as a failure |
| `ReplayRuns.VerifyStream` | crates/theater/src/replay/handler.rs:245-310 | Complete if and only if every expected event is matched hash by hash (and no event is new when none is expected); diverged at n if and only if n is the first position that differs or is past an empty expectation; short at n if and only if the new chain ends at n, before the expected one, and agrees up to there |
| `ReplayRuns.JudgeExactly` | crates/theater/src/replay/handler.rs:245-310 | The same three equivalences for the verdict that the theorems on replay speak of |
| `ReplayRuns.StepTells` | crates/theater/src/actor/runtime.rs:1058-1122 | Until it is stopped, an actor has trapped if and only if its last event is a failure |
| `TcpRuns.RunKeepsInv` | crates/theater-handler-tcp/src/lib.rs:132-175 | In every interleaving each mapped connection keeps: pending implies passive and whole; active or once mode implies write-only |
| `TcpRuns.EvolvesOver` | crates/theater-handler-tcp/src/lib.rs:1118-1225 | Between any two moments of a run: active never returns to pending, a stream that is not whole never becomes whole, an id that left never comes back |
| `TcpRuns.SplitOnce` | crates/theater-handler-tcp/src/lib.rs:1140-1201 | Over a whole run each connection is split at most once |
| `TcpRuns.RunOneLoop` | crates/theater-handler-tcp/src/lib.rs:1914-2017 | At any moment at most one task holds the read half of a connection |
| `TcpRuns.LoopNeedsSplit` | crates/theater-handler-tcp/src/lib.rs:1140-1201 | A read loop is started only by the call that split the stream, for its caller; any other one is that loop going on |
| `TcpRuns.NotWholeAfterSplit` | crates/theater-handler-tcp/src/lib.rs:1651-1692 | After a split the stream is never whole again, upgrades included |
| `TcpRuns.NoReceiveAfterSplit` | crates/theater-handler-tcp/src/lib.rs:1445-1490 | No passive receive reads once the split has happened, even when its check ran before |
| `TcpRuns.WriteOnlyExactly` | crates/theater-handler-tcp/src/lib.rs:1118-1225 | A mapped connection is write-only if and only if an earlier step of the run split it |
| `TcpRuns.ReadableExactly` | crates/theater-handler-tcp/src/lib.rs:1680-1690 | A mapped connection can be read if and only if it was never split and no handshake on it failed |
| `TcpRuns.SendableExactly` | crates/theater-handler-tcp/src/lib.rs:1400-1420 | A mapped connection can be sent on if and only if no handshake on it failed, split or not |
| `TcpRuns.OnceLeavesUnreadable` | crates/theater-handler-tcp/src/lib.rs:1980-1989 | A finished once-mode read leaves a connection that passes the passive check and cannot be read |
| `TcpRuns.Authority` | crates/theater-handler-tcp/src/lib.rs:1377-1420 | Every send, receive, upgrade and pushed read that touches a stream is on behalf of an actor that owned the connection while active at some earlier moment, whatever transfers happened between check and I/O |
| `TcpRuns.OwnerExactly` | crates/theater-handler-tcp/src/lib.rs:1244-1266 | Between two moments the owner is exactly what the transfers issued by the then owners make it |
| `TcpRuns.RemovesForeignExactly` | crates/theater-handler-tcp/src/lib.rs:1876-1909 | Every removal other than a close (by cleanup, by a read loop at its end or cancelled, by a failed callback): it takes away another actor's connection if and only if the transfers since the step that gave the connection to the removing activity have moved it |
| `TcpRuns.LeavesOnlyBy` | crates/theater-handler-tcp/src/lib.rs:1538-1585 | A connection leaves the map only by a close of its owner or by one of those removals |
| `TcpRuns.PushedToOwnerExactly` | crates/theater-handler-tcp/src/lib.rs:1959-1978 | Pushed data goes to the actor that split the stream, which is the owner of the moment if and only if the transfers since the split left it so |
| `TcpRuns.HasOrigin` | crates/theater-handler-tcp/src/lib.rs:1185-1195 | Everything in flight that acts without asking for the owner again has a step from which it got the connection, when its actor owned it |
| `TcpRuns.CleanupRace` | crates/theater-handler-tcp/src/lib.rs:709-723 | A run in which cleanup removes a connection already handed to another actor |
| `TcpRuns.ReadLoopRace` | crates/theater-handler-tcp/src/lib.rs:1932-1936 | A run in which the old owner's read loop removes a connection from its new owner |
| `TcpRuns.AfterCleanupExactly` | crates/theater-handler-tcp/src/lib.rs:698-723 | In any interleaving, when an actor's cleanup is over, the actor owns exactly what came to it after the collection, by an insert or a transfer, and has stayed with it |
| `TcpRuns.ReservedEscapes` | crates/theater-handler-tcp/src/lib.rs:709-723 | The failing case: an id taken before the collection and inserted after it leaves the actor a connection |
| `TcpHistory.MappedExactly` | crates/theater-handler-tcp/src/lib.rs:354-376 | In any interleaving a connection is mapped if and only if it has been inserted and not been taken out since, by its owner's close or one of the removals |
| `TcpHistory.HeldExactly` | crates/theater-handler-tcp/src/lib.rs:1244-1266 | It has one insert, and its owner is what the transfers since then make it |
| `TcpHistory.ActiveExactly` | crates/theater-handler-tcp/src/lib.rs:1065-1086 | A mapped connection is active if and only if it was inserted so, its owner of some moment activated it, or its owner of some moment handed it on |
| `TcpHistory.ModeExactly` | crates/theater-handler-tcp/src/lib.rs:1118-1225 | A mapped connection pushes data in the mode it was split for, until a once-mode read on it finishes |
| `TcpHistory.StreamExactly` | crates/theater-handler-tcp/src/lib.rs:1651-1692 | A stream, mapped or not, is closed if and only if a handshake on it failed or it was shut down, whole if and only if neither that nor a split has happened, and then encrypted if and only if it was inserted so or a handshake succeeded |
| `TcpHistory.CheckAnswers` | crates/theater-handler-tcp/src/lib.rs:1377-1398 | The check before any I/O answers with the first reason the history gives: not mapped, held by another, not active, or, for a receive or an upgrade, pushing; otherwise it lets the actor pass |
| `TcpHistory.ActivateAnswers` | crates/theater-handler-tcp/src/lib.rs:1065-1086 | The same for an activation: refused as not mapped, held by another or already active, otherwise done |
| `TcpHistory.OwnerAnswers` | crates/theater-handler-tcp/src/lib.rs:1538-1585 | A transfer or a close is refused to all but the owner by the history, and to the owner never |
| `TcpHistory.SetActiveAnswers` | crates/theater-handler-tcp/src/lib.rs:1118-1222 | Every answer of a mode change from the history: once split, a connection can be put in no new mode, even after a once-mode read has finished |
| `TcpHistory.IoAnswers` | crates/theater-handler-tcp/src/lib.rs:1400-1490 | Whatever has happened since its check, only a lost stream stops a send; a receive is also stopped by a split; an upgrade also by TLS |
| `TcpHistory.TasksExactly` | crates/theater-handler-tcp/src/lib.rs:1914-2017 | For every activity (I/O behind a check, read loop, callback, cleanup, closing): as many were begun, each by the step that calls for it, as have been continued or are still in flight |
| `TcpHistory.ClosingExactly` | crates/theater-handler-tcp/src/lib.rs:1538-1585 | The shutdown of a stream is in flight, once, exactly from the step that takes its connection out of the map until it is carried out |
| `TcpHistory.LeftIsClosed` | crates/theater-handler-tcp/src/lib.rs:500-515 | The stream of a connection no longer mapped is closed or about to be, unless the connection was dropped because its callback failed |
| `Tcp.SharedTcpState.NextId` | crates/theater-handler-tcp/src/lib.rs:205-207 | The id has no connection and no stream, and is never handed out again |
| `Tcp.SharedTcpState.Insert` | crates/theater-handler-tcp/src/lib.rs:489-498 | Under an id taken earlier: owner, passive mode and a whole stream; the table stays in order and no other connection is touched |
| `Tcp.SharedTcpState.Activate` | crates/theater-handler-tcp/src/lib.rs:1065-1086 | Only the owner of a pending connection activates it; the table stays in order and connections of other actors are untouched |
| `Tcp.SharedTcpState.SetActive` | crates/theater-handler-tcp/src/lib.rs:1118-1222 | Mode changes, refusals and the split; a loop is spawned exactly on a split with an actor handle; the table stays in order and connections of other actors are untouched |
| `Tcp.SharedTcpState.Transfer` | crates/theater-handler-tcp/src/lib.rs:1244-1266 | Only the owner transfers; the connection becomes the target's and active; connections of other actors are untouched; what that means over runs is TcpHistory.ActiveExactly and TcpHistory.CheckAnswers |
| `Tcp.SharedTcpState.CheckIo` | crates/theater-handler-tcp/src/lib.rs:1377-1398 | The check before I/O, every refusal in its order |
| `Tcp.SharedTcpState.Upgrade` | crates/theater-handler-tcp/src/lib.rs:1651-1692 | A handshake turns a plain whole stream into TLS or, failing, leaves nothing; a split stream is put back; the table stays in order |
| `Tcp.SharedTcpState.Close` | crates/theater-handler-tcp/src/lib.rs:1538-1585 | A close by the owner unmaps the connection and shuts its stream down; any other changes nothing |
| `Tcp.SharedTcpState.CloseAndRemove` | crates/theater-handler-tcp/src/lib.rs:354-376 | Whoever finds the entry unmaps it and shuts its stream down; for everybody else nothing changes; no other connection is touched |
| `Tcp.SharedTcpState.CleanUp` | crates/theater-handler-tcp/src/lib.rs:707-723 | Cleanup that nobody gets in the way of leaves the actor no connection, shuts down all it had, and leaves those of other actors as they were |
| `Router.TablesMatchHistory` | crates/theater-handler-message-server/src/lib.rs:227-463 | After any command sequence the actor table, the channel table and every mailbox are what the history alone says: a channel is tracked, always open, if and only if its last accepted open is not followed by a close by anybody, and each mailbox holds, in processing order, what the commands deliver to it |
| `Router.MailMoves` | crates/theater-handler-message-server/src/lib.rs:271-459 | Each command puts at most one message into at most one mailbox; a channel message or close goes to the participant opposite its sender in the last accepted open |
| `Router.PlaceInMailbox` | crates/theater-handler-message-server/src/lib.rs:234-258 | Every delivered message has its own place: behind all earlier and before all later deliveries to that mailbox |
| `Router.SendAnswered` | crates/theater-handler-message-server/src/lib.rs:271-286 | A send is answered Ok if and only if it was put into a mailbox, refused if and only if the actor is not registered, and otherwise left unanswered |
| `Router.OpenAnswered` | crates/theater-handler-message-server/src/lib.rs:288-357 | An open is answered yes if and only if it opens the channel, no if and only if the target was reached and refused, left unanswered if and only if the target is a registered actor whose mailbox is gone, and otherwise fails |
| `Router.SendOnAnswered` | crates/theater-handler-message-server/src/lib.rs:359-413 | A channel message is answered Ok if and only if the channel is open, the sender is a participant, and the other one got it or is external; it fails if and only if the channel is not open, the sender is an outsider or the other one is not registered; otherwise it is left unanswered |
| `Router.CloseAnswered` | crates/theater-handler-message-server/src/lib.rs:415-459 | A close is answered Ok if and only if the channel is open and the sender is a participant |
| `Router.RefusedStillCloses` | crates/theater-handler-message-server/src/lib.rs:420-430 | A refused command changes the channel table if and only if it is a close of an open channel by an outsider |
| `Router.OutsiderCuts` | crates/theater-handler-message-server/src/lib.rs:420-430 | After such a close nobody can send on the channel |
| `Router.OutsiderExample` | crates/theater-handler-message-server/src/lib.rs:420-430 | A concrete history in which a third actor cuts the channel of two others |
| `Router.MessageRouter.Handle` | crates/theater-handler-message-server/src/lib.rs:265-463 | Every branch of every command, replies included, as the specification says; a registration is answered Ok and holds, a removal is silent |
| `Router.MessageRouter.HandleOpen` | crates/theater-handler-message-server/src/lib.rs:288-357 | A channel is tracked only after the target accepted; every refusal leaves the table alone; the answers are those of Router.OpenAnswered |
| `Router.MessageRouter.HandleSendOn` | crates/theater-handler-message-server/src/lib.rs:359-413 | A channel message changes no table and at most one mailbox |
| `Router.MessageRouter.HandleClose` | crates/theater-handler-message-server/src/lib.rs:415-459 | A close removes the entry first and checks the sender after |
| `Router.MessageRouter.RouterTask` | crates/theater-handler-message-server/src/lib.rs:227-262 | The router's loop folds the commands in order and answers each as the specification says |
| `Shutdown.ShutdownCompletesExactly` | crates/theater-handler-message-server/src/lib.rs:694-743 | In every interleaving of setup, register (any outcome, cancellation included) and shutdown that has come to rest, all receivers have been let go, unless register took its receiver before setup parked the passed one and setup left by the notification; then exactly the passed one is left |
| `Shutdown.StuckSchedule` | crates/theater-handler-message-server/src/lib.rs:819-852 | A schedule that comes to rest with the passed receiver still held and from which no step is possible |
| `Shutdown.StuckForGood` | crates/theater-handler-message-server/src/lib.rs:819-852 | In every such case no run goes on from there, so that the controller's call never returns |
| `Shutdown.ShutDownHandler` | crates/theater/src/shutdown.rs:75-104 | The controller's call over any run that comes to rest returns if and only if register did not take its receiver before setup parked, or setup did not leave by the notification |
| `Shutdown.RunsAreShort` | crates/theater-handler-message-server/src/lib.rs:694-743 | No schedule has more than fourteen steps |
| `Shutdown.ComesToRest` | crates/theater-handler-message-server/src/lib.rs:694-743 | Every schedule, however far, can be brought to rest |
| `Shutdown.RegistersExactly` | crates/theater-handler-message-server/src/lib.rs:819-855 | register goes on to the router if and only if there is a controller, setup had stored the handle when register came for it, and setup had not been signalled when it came for the receiver; without an actor id it never comes that far |
| `Shutdown.RunKeepsInv` | crates/theater-handler-message-server/src/lib.rs:770-779 | Where each of the three receivers is at every moment of every run |
| `Shutdown.ShutdownController.SignalShutdown` | crates/theater/src/shutdown.rs:75-104 | Every subscriber is signalled once, in order, the list is emptied, and the two loops return if and only if every one of them lets go in time |
| `Shutdown.ShutdownController.Subscribe` | crates/theater/src/shutdown.rs:68-72 | A subscription is appended and never confused with another |
| `Registry.TablesMatchHistory` | crates/theater/src/theater_runtime.rs:498-645 | After any command run, late and stray completion reports included: the live actors are exactly those spawned and not removed since, and the chains are exactly theirs plus those of failed spawns nobody reported complete |
| `Registry.EveryActorHasChain` | crates/theater/src/theater_runtime.rs:868-978 | Every registered actor has a chain, so the missing-chain branch of a stop is unreachable |
| `Registry.EffectsAreSound` | crates/theater/src/theater_runtime.rs:498-645 | Actors ever registered are the live ones plus those whose handlers were signalled, each exactly once; at most one external-stop or error notice per actor; nothing is told to a supervisor after that notice or after the signal |
| `Registry.NoticeExactly` | crates/theater/src/theater_runtime.rs:498-645 | A supervisor notice goes out if and only if the command calls for that kind and the actor is live, by the history, and was spawned with a supervisor |
| `Registry.LogExactly` | crates/theater/src/theater_runtime.rs:1107-1245 | Everything that goes out over any run, in order: what the history of commands calls for, a stop being notice, chain event, request and handler signal in this order |
| `Registry.FailedSpawnLeavesChain` | crates/theater/src/theater_runtime.rs:868-960 | A failed spawn leaves its chain in the table until a completion is reported for an actor that was never registered |
| `Registry.LoopEndsExactly` | crates/theater/src/theater_runtime.rs:608-637 | The loop ends if and only if the runtime is told to shut down or a completion report finds no live actor; the last actor's leaving by another command does not end it |
| `Registry.TheaterRuntime.Run` | crates/theater/src/theater_runtime.rs:498-645 | The loop handles a prefix of the queue, all of it unless it breaks, and is in the state the specification gives for that prefix |
| `Registry.TheaterRuntime.Handle` | crates/theater/src/theater_runtime.rs:498-645 | Each command moves both tables and emits its effects as the specification says |
| `Registry.TheaterRuntime.SpawnActor` | crates/theater/src/theater_runtime.rs:813-978 | The chain is entered before setup is known to succeed, the actor only after |
| `Registry.TheaterRuntime.StopActor` | crates/theater/src/theater_runtime.rs:1107-1245 | A stop of an unknown actor does nothing; otherwise record, remove and signal in that order |
| `Registry.TheaterRuntime.Notify` | crates/theater/src/theater_runtime.rs:1274-1290 | A notice is issued only for a live actor with a supervisor |
| `Registry.TheaterRuntime.CompleteShutdown` | crates/theater/src/theater_runtime.rs:608-637 | A completion removes actor and chain if present and breaks the loop when no actor is left |
| `ChainFormat.ParseOfFormat` | crates/theater-chain-format/src/lib.rs:36-136 | If every value prints on one line that is not one of the file's own: parsing the format of any events gives back, in order, hash and parent of every event with a non-empty hash, its payload re-encoded (empty if undecodable) and a blank type; events with an empty hash are lost |
| `ChainFormat.LosslessExactly` | crates/theater-chain-format/src/lib.rs:36-136 | With such a printer, and a value language that loses nothing of the payloads at hand, the file is lossless if and only if every event has a hash, a blank type and a payload that is empty or decodable |
| `ChainFormat.BlockExactly` | crates/theater-chain-format/src/lib.rs:66-136 | A block of any lines whatever yields one event if its last hash line is not empty: last hash, last parent and the last line read as a value count, blank lines are skipped, and bad hexadecimal counts as no bytes |
| `ChainFormat.PreambleSkipped` | crates/theater-chain-format/src/lib.rs:93-100 | What stands before the first separator is skipped |
| `ChainFormat.FourthLine` | crates/theater-chain-format/src/lib.rs:36-52 | A block ends with the printed value, or, for a payload that is not empty and cannot be decoded, with a raw line that gives its length in decimal; otherwise it has three lines |
| `ChainFiles.FileVerifiesExactly` | crates/theater-chain-format/src/lib.rs:19-22 | The chain read back from the file of any verified chain verifies if and only if every event had a blank type and a payload that is empty or decodable, up to SHA-1 collisions at the others |
| `ChainFiles.OneEventFails` | crates/theater-chain-format/src/lib.rs:46-50 | The smallest failing cases: one event with a type, or with a payload that cannot be decoded and is written as a raw line |
| `ChainFiles.FileReplaysExactly` | crates/theater-chain-format/src/lib.rs:66-136 | Record, write, read back, replay: the replay of what is read back is that of the recording itself, with the same verdict, so it reproduces the recording exactly when every stop in it follows a trap |
| `ChainFormat.ParsedAppend` | crates/theater-chain-format/src/lib.rs:93-134 | A text that starts with a separator line parses independently of what stands before it |
| `ChainFormat.ParseEvents` | crates/theater-chain-format/src/lib.rs:66-136 | The line loop with its two flags computes the specification's parse |
| `ChainFormat.FinalizeEvent` | crates/theater-chain-format/src/lib.rs:74-91 | A block without a hash yields no event; bad hex becomes empty bytes |
| `ChainFormat.HexRoundTrip` | crates/theater-chain-format/src/lib.rs:39-43 | Section 8 of RFC 4648: hexadecimal decoding undoes encoding |
| `ChainFormat.HexExactly` | crates/theater-chain-format/src/lib.rs:74-91 | A text decodes if and only if it has an even number of hexadecimal digits of either case, two to a byte, the high one first |
| `ChainFormat.SplitOfJoin` | crates/theater-chain-format/src/lib.rs:93-95 | Reading lines undoes writing them |
| `ModuleCache.ReturnsCompiled` | crates/theater/src/pack_bridge.rs:121-143 | Under any interleaving of lookups, compiles, failures and last-wins inserts, what a load returns is what compiling its bytes gives, or the run holds other bytes, inserted earlier, with the same SHA-256 (section 6.2 of FIPS 180-4) |
| `ModuleCache.HitExactly` | crates/theater/src/pack_bridge.rs:125-131 | A lookup hits if and only if bytes with its key were inserted before it |
| `ModuleCache.HitsAfterLoad` | crates/theater/src/pack_bridge.rs:121-143 | In any interleaving, once a load of some bytes has returned a module, every later lookup of them is a hit with the same module, or the run holds other bytes with the same SHA-256 |
| `ModuleCache.LoadIsRun` | crates/theater/src/pack_bridge.rs:121-143 | A load that nobody overtakes, in any run and whatever other loads are under way, changes the table and returns as the sequential load does |
| `ModuleCache.TableAgrees` | crates/theater/src/pack_bridge.rs:134-141 | The table holds, under exactly the keys inserted, the compilation of the bytes last inserted under each |
| `ModuleCache.KeysStay` | crates/theater/src/pack_bridge.rs:138-141 | Keys are never removed |
| `ModuleCache.CachingPackRuntime.LoadModuleCached` | crates/theater/src/pack_bridge.rs:121-143 | A load nobody overtakes does what the three steps do in a row; it fails if and only if its key is not in the table afterwards, and otherwise the table holds what it returned and has changed nowhere else |

## Left out

- Frames.ParseExactly: is about the compact JSON that the serializer writes; other spellings of the same value (white space, reordered fields, string escapes), which serde would also read, are not part of this model.
- Reassembly.YieldExactly: which partial messages have expired is a choice of the environment; the clock and the interval between cleanups are not part of this model.
- HashChain.SameHead: an event keeps only the rendered text of its data, which is all that is hashed, so it says nothing about two different data with the same rendering.
- ReplayRuns.ReplayExactly: guests and codecs are parameters, the guest deterministic and the codec lossless; nobody stops the replay itself while it runs.
- ReplayRuns.ReportReplay: whether the shutdown signal that follows a trap is noticed before the failed call is left to the environment, which may therefore turn a failure into an interruption.
- FramedDriver.GetsAllExactly: is about the stream while it lasts; what the reader does with bytes left over at its end is not part of this model, and expiry is the subject of ExpiryRuns, where every call is told of separately; an empty piece stands for a wake-up without new bytes, of which a socket gives none.
- FragmentingCodec.Codec.ReceiveFragment: leaves out the log line that adds one to the fragment index, which overflows at the largest index where arithmetic is checked and debug logging is on.
- Tcp.SharedTcpState.NextId: the id counter is unbounded, its wrap-around at 2^64 is not modelled.
- Tcp.SharedTcpState.CloseAndRemove: sockets, buffers and TLS handshakes are not part of this model; a handshake succeeds or fails and consumes the plain stream.
- Router.MessageRouter.HandleOpen: waits for the target's answer as one step with a given answer; that the answer arrives at all is not stated.
- Shutdown.ShutdownCompletesExactly: message handling in progress is taken to end, so that the consumption loop comes back to its signal.
- Registry.TheaterRuntime.SpawnActor: identifiers come from a counter instead of a random generator, so that they never repeat; init calls, manifests and handler registries only matter through success or failure.
- Registry.TheaterRuntime.CompleteShutdown: the runtime's channels map is not part of this model, because nothing inserts into it.
- The TCP listeners map, manual accept and the connection limit: nothing inserts a listener, and the limit is constructed as absent.
- ChainFormat.ParseOfFormat: the value printer is foreign and taken to print every value on one line that is not one of the file's own, as the format's description says.
- WebAssembly execution, epochs, linking and interface hashes: foreign code.
- The management server loop, the command line, stores, timers, configuration, metrics and the remaining handlers: mostly forwarding and input/output.
