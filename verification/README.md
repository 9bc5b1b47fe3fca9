# WayRay, modelled and proved

WayRay is a thin-client display server: a compositor keeps the desktop sessions, a network thread serves one
client at a time, and clients show the frames they are sent and return their input. This project models the parts
of it whose correctness spans several functions or whole runs, and proves what they promise.

- **Display** (`Encoding`, `Checksum`, `Regions`, `Display`, `Pictures`): the loops that cut damage regions out of a
  frame, copy them into a framebuffer and hash it; the compositor's choice between keyframe and delta; the gate in the
  network thread; the client. `Resync`, `ResyncProofs`, `ResyncRuns`, `ResyncHeals` and `ResyncSends` put these together
  as one transition system with a FIFO channel, connects, disconnects, preemptions and lost frames, and prove what is
  sent and what clients see in every run.
- **Sessions** (`Sessions`, `Registry`, `Recovery`): the session registry, the ordered queue of writes to the durable
  table, crash and restart. `NetworkLoop`, `Driver`, `DriverProofs`, `DriverOps`, `DriverRuns`, `DriverTheorems` and
  `DriverHistory` compose the registry with the compositor's event handling and the serve loop. `LoadBalance` is the
  placement of new sessions on peers. In this composition a client is only ever connected while no session is active, so the server's
  load is then zero and the branch that sends a new session to a lighter peer is never taken.
- **Windows** (`Tiling`, `Stacking`, `SpaceOrder`, `Floating`): the tiling layout, z-order directives and the raises
  that realise them, the built-in floating window manager.
- **Streams** (`Framing`, `Clipboard`, `KnownHosts`, `Modifiers`, `ModifierRuns`, `PhysicalKeys`): message framing,
  clipboard payloads, the pin store and its file, keys and modifiers from client to server.

Objects that the source updates in place are classes whose methods are proved against functions on values; the
theorems are lemmas about those functions. A run is a sequence of states, each reached from the one before by a step.

What the model takes as given: zstd is the identity; the renderer's damage rectangles cover every visible pixel that
changed since the previous render (`Pictures.DamageCovers`); messages are written whole or not at all; the database
applies every write it is handed, in order; clocks are readings of one monotone clock; what peers, the pipe, the disk
and the random generator answer are parameters.

Where the source and its documentation disagree the model follows the code: frames carry absolute pixels of
rectangles (a comment at `headless.rs:503-509` and older documents speak of XOR deltas); a fingerprint's `sha256:`
prefix is only recognised in lower case and stripped once, although the comment above `normalize_fingerprint` says any.

Some promises hold only under a condition; each is then proved as an equivalence, and a lemma beside it gives an input
that fails: clamping a damage rectangle right of the output (`ClampInBoundsIff`), sending no more than the damage
(`NothingAddedIff`), creating a session for an indexed token
(`CreatedKeepsInvIff`), editing a destroyed session (`WithUserKeepsMirrorIff`), keeping the next id over a second restart
(`SecondRestart`), what peers are told after a restart (`BootHidesRestored`), tiling a small output (`LayoutPlacedIff`),
announcing a window twice (`EventKeepsIff`), the focused window on top after a close (`ClosingKeepsTopIff`), the z order
while the focus is cycled (`CyclingKeepsZOrderIff`), fingerprint prefixes (`PrefixToleratedIff`), pins that do not survive
their own file (`FileRoundTripsIff`), messages longer than their prefix (`FrameRoundTripsIff`), key releases taken by a
binding (`SticksIff`), modifiers held over a reconnect (`MaskAgreesIff`), and the case of letters (`LetterRightIff`).

`dafny verify dfyconfig.toml` checks the project.

## Model

| member | source | states |
|---|---|---|
| `Encoding.EncodeRegion` | crates/wayray-protocol/src/encoding.rs:19-45 | the row loop with stride arithmetic yields the rows of the box, packed, for every box whose last row can be sliced |
| `Encoding.PackedAt` | crates/wayray-protocol/src/encoding.rs:33-39 | byte `c` of packed row `row` is the buffer's byte at that row and column of the box |
| `Encoding.ApplyRegion` | crates/wayray-protocol/src/encoding.rs:74-85 | the copying loop on the array equals the specification applied to its old contents |
| `Encoding.ApplyRow` | crates/wayray-protocol/src/encoding.rs:78-84 | one row of a region is copied to its place and nothing else changes |
| `Encoding.AppliedRowsAt` | crates/wayray-protocol/src/encoding.rs:74-85 | for a box that ends within its rows, after any number of rows a byte is the region's if the box hits it and the old one otherwise |
| `Encoding.AppliedRowsOver` | crates/wayray-protocol/src/encoding.rs:74-85 | for every box that can be applied, also one running past the end of its rows: a byte comes from the last row copied over it, or from the old buffer |
| `Encoding.EncodedThenApplied` | crates/wayray-protocol/src/encoding.rs:1-8 | cutting a region out of one buffer and applying it to another copies exactly the pixels of the box, for any two strides |
| `Checksum.ComputeWord` | crates/wayray-protocol/src/encoding.rs:53-60 | up to eight bytes are assembled little-endian |
| `Checksum.ComputeLine` | crates/wayray-protocol/src/encoding.rs:50-65 | the chunk loop folds a row eight bytes at a time |
| `Checksum.ComputeChecksum` | crates/wayray-protocol/src/encoding.rs:50-65 | the nested loops compute the hash of the visible rows only |
| `Checksum.SamePictureSameChecksum` | crates/wayray-protocol/src/encoding.rs:47-65 | equal visible pixels have equal checksums whatever the two strides and paddings |
| `Checksum.MixInjective` | crates/wayray-protocol/src/encoding.rs:60-61 | mixing a word into the hash can be undone: neither two hashes nor two words are made equal by it |
| `Checksum.WordInjective` | crates/wayray-protocol/src/encoding.rs:56-59 | the little-endian word tells any two chunks of one length apart |
| `Checksum.FirstByteLowest` | crates/wayray-protocol/src/encoding.rs:56-59 | the first byte of a chunk is the lowest of its word |
| `Checksum.OneWordChangesHash` | crates/wayray-protocol/src/encoding.rs:50-65 | two pictures that differ only within one aligned word of one row, a single byte included, have different 64-bit hashes, whatever their strides |
| `Checksum.FoldCollidesIff` | crates/wayray-protocol/src/encoding.rs:64 | folding to 32 bits confuses two hashes if and only if they differ in the lower half exactly as they do in the upper |
| `Regions.ClampInBoundsIff` | crates/wrsrvd/src/backend/headless.rs:979-991 | exactly when a clamped damage rectangle can be cut out of the frame: not for one that starts right of the output and reaches too far down |
| `Regions.ClampOutOfBoundsExample` | crates/wrsrvd/src/backend/headless.rs:979-991 | a rectangle whose encoding would run off the end of the buffer |
| `Regions.ClampCovers` | crates/wrsrvd/src/backend/headless.rs:979-991 | the clamped box covers all of the rectangle that lies on the output |
| `Regions.ClampExact` | crates/wrsrvd/src/backend/headless.rs:979-991 | on the output the clamped box is exactly the rectangle, one that starts off the output pushed in with its size |
| `Regions.NothingAddedIff` | crates/wrsrvd/src/backend/headless.rs:979-991 | exactly when no undamaged pixel is sent for a rectangle |
| `Regions.PushedInCarriesMore` | crates/wrsrvd/src/backend/headless.rs:979-991 | a rectangle for which undamaged pixels are sent |
| `Regions.DamageBoxesCover` | crates/wrsrvd/src/backend/headless.rs:975-993 | every output pixel inside some damage rectangle is in the union of the boxes that are sent |
| `Regions.DamageBoxesTight` | crates/wrsrvd/src/backend/headless.rs:979-993 | every box of a delta is one of the clamped rectangles and is not empty |
| `Regions.DamageBoxesOnOutput` | crates/wrsrvd/src/backend/headless.rs:975-993 | no box that is sent leaves the output |
| `Regions.AppliedAllAt` | crates/wrclient/src/main.rs:346-349 | applying the regions encoded from one frame sets every pixel of their union to that frame's and leaves all others |
| `Regions.SameCoverageSameResult` | crates/wayray-protocol/src/encoding.rs:3-8 | only the union matters: order, overlap and repetition of regions do not |
| `Regions.ApplyingTwice` | crates/wayray-protocol/src/encoding.rs:3-8 | applying a frame is idempotent |
| `Display.Compositor.SendFrameToNetwork` | crates/wrsrvd/src/backend/headless.rs:950-1050 | what is skipped, what becomes a keyframe, the whole new encoder state and the message sent |
| `Display.Compositor.EncodeDamage` | crates/wrsrvd/src/backend/headless.rs:979-992 | the regions of a delta are those of its boxes, in order, empty ones dropped |
| `Display.Compositor.EncodeFrame` | crates/wrsrvd/src/backend/headless.rs:975-1004 | a keyframe, or a frame without damage information, is one region with everything; others carry their damage |
| `Display.Relay.CheckCompositorCommands` | crates/wrsrvd/src/network.rs:864-903 | the gate loop: what reaches the display stream, with and without the display capability |
| `Display.GateOpensAtKeyframe` | crates/wrsrvd/src/network.rs:874-903 | a connection gets exactly the messages from the first keyframe in the channel on |
| `Display.NothingWithoutDisplay` | crates/wrsrvd/src/network.rs:881-903 | a connection without the display capability gets no frame |
| `Display.DisplayClient.ApplyAll` | crates/wrclient/src/main.rs:346-349 | the client's loop over the regions of a frame |
| `Display.DisplayClient.Receive` | crates/wrclient/src/main.rs:339-371 | the new framebuffer; one request on the first mismatch, none while one is pending, cleared by a match |
| `Pictures.DeltaKeepsSync` | crates/wrsrvd/src/backend/headless.rs:971-993 | a delta that covers the change, applied to the picture it was made against, gives the new picture |
| `Pictures.KeyframeRestores` | crates/wrsrvd/src/backend/headless.rs:993-1004 | a keyframe gives its picture on any framebuffer |
| `Pictures.UpdatedPixel` | crates/wayray-protocol/src/encoding.rs:3-8 | every pixel is left alone or, exactly where a box of the frame covers it, replaced as a whole by the frame's, whatever the client held |
| `Pictures.InSyncMatches` | crates/wrclient/src/main.rs:351-371 | a client showing the frame computes the server's checksum, across padding |
| `Pictures.MatchesIff` | crates/wrclient/src/main.rs:351-371 | a client finds a checksum right if and only if the hashes of its screen and of the frame fold alike |
| `Pictures.OnePixelNoticed` | crates/wrclient/src/main.rs:351-371 | a screen with one wrong pixel hashes differently, and is found wrong unless the folding loses just that difference |
| `Pictures.BoxesCoverChange` | crates/wrsrvd/src/backend/headless.rs:975-1004 | however a frame is encoded, its boxes cover every changed pixel |
| `Pictures.FrameCarriesExactly` | crates/wrsrvd/src/backend/headless.rs:975-1004 | a frame carries everything, if it is a keyframe or nothing is known of the damage, and otherwise exactly the damage rectangles, pushed in |
| `ResyncProofs.StepKeepsInv` | crates/wrsrvd/src/network.rs:397-453 | every step of compositor, channel, network thread and clients keeps the protocol invariant, and no received frame is out of bounds |
| `ResyncRuns.RunKeepsInv` | crates/wrsrvd/src/network.rs:397-453 | the invariant in every run, with any preemptions and losses |
| `ResyncRuns.LosslessRunsStayExact` | crates/wrclient/src/main.rs:339-371 | without losses every client shows, after any frame, exactly the frame's visible pixels; it was sent a contiguous stretch of the send order starting with a keyframe (possibly one left over by an earlier connection) and never asks for one |
| `ResyncRuns.StepKeepsLossless` | crates/wrsrvd/src/network.rs:874-903 | the inductive step for the above |
| `ResyncRuns.GaplessIsExact` | crates/wrsrvd/src/network.rs:799-855 | with any losses: a client whose last frames continue a keyframe without a gap shows exactly the server's picture |
| `ResyncRuns.NoPixelOlderThanKeyframe` | crates/wayray-protocol/src/encoding.rs:3-8 | with any losses: once a keyframe was applied every pixel shown is, as a whole, the server's in the last applied frame that carries it, and that frame is no older than the last keyframe applied |
| `ResyncRuns.KeyframeResyncs` | crates/wrclient/src/main.rs:351-371 | applying a keyframe restores equality and ends the pending request, whatever was shown before |
| `ResyncRuns.ExactMatches` | crates/wrclient/src/main.rs:351-371 | a client in sync never finds its checksum wrong |
| `ResyncRuns.RequestsAreSpaced` | crates/wrclient/src/main.rs:357-371 | between two keyframe requests of a connection some frame matched |
| `ResyncHeals.RequestIsAnswered` | crates/wrsrvd/src/backend/headless.rs:958-1015 | in every run the first frame sent after a keyframe request was read is a keyframe, whatever happens in between |
| `ResyncHeals.RequestHeals` | crates/wrclient/src/main.rs:351-371 | from the moment a request is read, as long as nothing is lost from there on: every client that has applied a frame sent later shows exactly the server's picture and waits for no keyframe |
| `ResyncRuns.KeyframeEvery121` | crates/wrsrvd/src/backend/headless.rs:966-1015 | any 121 consecutive frames of any run contain a keyframe |
| `ResyncRuns.FirstAfterBindIsKeyframe` | crates/wrsrvd/src/backend/headless.rs:503-511 | the first frame sent after each bind is a keyframe |
| `ResyncSends.RenderSends` | crates/wrsrvd/src/backend/headless.rs:950-1050 | in every run a rendered frame is sent if and only if a client is connected and a keyframe is owed to it, whatever the pixels, or they differ from the last frame sent; it is a keyframe if and only if one is owed or 120 deltas went before |
| `ResyncSends.ForcedIffOwed` | crates/wrsrvd/src/backend/headless.rs:506-511 | a keyframe is forced exactly while a bind or a request has not been followed by a frame |
| `ResyncSends.ConnectedIff` | crates/wrsrvd/src/backend/headless.rs:498-560 | frames are sent to a client exactly from a bind until the next disconnect |
| `ResyncSends.BaseIsShared` | crates/wrsrvd/src/backend/headless.rs:503-511 | frames are compared with the last one sent since the bind, and with black before that |
| `ResyncSends.RequestsAreAsked` | crates/wrclient/src/main.rs:357-371 | every check that asks for a keyframe sends exactly one request |
| `ResyncSends.RequestsArrive` | crates/wrsrvd/src/network.rs:799-822 | every request read from a client is queued for the compositor once |
| `ResyncSends.EveryMessageTaken` | crates/wrsrvd/src/network.rs:864-903 | every message is taken off the channel once |
| `ResyncSends.DisplayAsOpened` | crates/wrsrvd/src/network.rs:690-694 | the connection in hand has the display capability that its client advertised |
| `ResyncSends.FramesNeedDisplay` | crates/wrsrvd/src/network.rs:758-766 | in every run only clients that advertised the display capability are sent frames |
| `ResyncSends.ForwardedThroughGate` | crates/wrsrvd/src/network.rs:874-903 | in the transition system a message reaches the client as the gate loop lets it |
| `Sessions.StateRoundTrip` | crates/wrsrvd/src/session/persistence.rs:328-345 | a state's display string parses back to it |
| `Sessions.LifecycleLaws` | crates/wrsrvd/src/session/types.rs:67-78 | the lifecycle by its laws: everything live can be destroyed, destroyed is final, nothing is created again or moves to itself, suspension comes from activity only |
| `Sessions.SqliteStore.Persist` | crates/wrsrvd/src/session/persistence.rs:210-215 | a save is queued behind everything before it |
| `Sessions.SqliteStore.WriteOne` | crates/wrsrvd/src/session/persistence.rs:183-203 | applying the oldest queued write never changes what the table will be once the queue is empty |
| `Sessions.SqliteStore.Flush` | crates/wrsrvd/src/session/persistence.rs:252-260 | a flush applies everything queued, in order |
| `Sessions.ApplyOpsConcat` | crates/wrsrvd/src/session/persistence.rs:131-138 | the queue may be applied in any two parts |
| `Registry.SessionRegistry.CreateSession` | crates/wrsrvd/src/session/registry.rs:236-250 | the whole new registry and the write queued |
| `Registry.SessionRegistry.Transition` | crates/wrsrvd/src/session/registry.rs:280-305 | refused for unknown ids and forbidden transitions, leaving everything unchanged; otherwise the new state, index and write |
| `Registry.SessionRegistry.CollectExpired` | crates/wrsrvd/src/session/registry.rs:340-345 | lists exactly the expired sessions, each once |
| `Registry.SessionRegistry.CleanupExpired` | crates/wrsrvd/src/session/registry.rs:339-356 | the loop destroys exactly those |
| `Registry.LiveTokensUnique` | crates/wrsrvd/src/session/registry.rs:45-62 | no two live sessions share a token |
| `Registry.IndexedIsLive` | crates/wrsrvd/src/session/registry.rs:45-62 | every indexed token leads to the live session that carries it |
| `Registry.ResumableTokensExact` | crates/wrsrvd/src/session/registry.rs:271-277 | a token is listed for peers if and only if `is_resumable` answers it |
| `Registry.CreatedKeepsInvIff` | crates/wrsrvd/src/session/registry.rs:236-250 | creating keeps the registry invariant if and only if the token is not indexed yet |
| `Registry.SecondSessionBreaksIndex` | crates/wrsrvd/src/session/registry.rs:236-250 | a token given two sessions, and the invariant broken |
| `Registry.CreatedKeepsMirror` | crates/wrsrvd/src/session/registry.rs:236-250 | the write queued is the difference between the old and new live sessions |
| `Registry.TransitionedKeepsInv` | crates/wrsrvd/src/session/registry.rs:280-305 | every transition, allowed or refused, keeps the invariant |
| `Registry.TransitionedKeepsMirror` | crates/wrsrvd/src/session/registry.rs:296-303 | destroying deletes the row, every other transition saves it, and nothing else |
| `Registry.WithUserKeepsMirrorIff` | crates/wrsrvd/src/session/registry.rs:323-328 | setting the user keeps the table a mirror if and only if the session is unknown or not destroyed |
| `Registry.DestroyedRowComesBack` | crates/wrsrvd/src/session/registry.rs:323-328 | a run in which setting the user of a destroyed session brings its row back |
| `Registry.WithTimeoutKeepsMirrorIff` | crates/wrsrvd/src/session/registry.rs:331-336 | likewise for the timeout |
| `Registry.PurgedKeeps` | crates/wrsrvd/src/session/registry.rs:359-362 | purging changes neither the mirror nor the index nor what can be resumed |
| `Recovery.OpKeeps` | crates/wrsrvd/src/session/registry.rs:196-362 | every registry operation used as asked keeps the invariant and the mirror, and queues at most one write |
| `Recovery.RunKeeps` | crates/wrsrvd/src/session/registry.rs:196-362 | likewise for every run of operations |
| `Recovery.SuspendedWasActive` | crates/wrsrvd/src/session/types.rs:67-78 | over every run of operations a suspended session was active before |
| `Recovery.DestroyedIsFinal` | crates/wrsrvd/src/session/types.rs:67-78 | a destroyed session stays so until it is dropped, and its id is not issued again |
| `Recovery.CreatedOnce` | crates/wrsrvd/src/session/types.rs:67-78 | no session is in creation a second time |
| `Recovery.CrashSeesAPastState` | crates/wrsrvd/src/session/persistence.rs:181-221 | with any prefix of the writes applied the table is the mirror of the registry between two operations of the run, never a mixture |
| `Recovery.RestorePersisted` | crates/wrsrvd/src/session/registry.rs:123-172 | the loop over the loaded rows, and the number restored |
| `Recovery.RestoreOne` | crates/wrsrvd/src/session/registry.rs:131-169 | what one row does to registry and store |
| `Recovery.RestoreExact` | crates/wrsrvd/src/session/registry.rs:123-172 | exactly the active and suspended rows come back, suspended, same identity; the invariant holds again and the next id is one above the largest readable row, or 1 |
| `Recovery.IssuableIff` | crates/wrsrvd/src/session/registry.rs:133-136 | an id can be issued after a restart if and only if every readable row has a smaller one |
| `Recovery.RestoreMirrorsIff` | crates/wrsrvd/src/session/registry.rs:155-167 | after a restart the table mirrors the registry again if and only if it held no unreadable rows |
| `Recovery.CrashDuringRestart` | crates/wrsrvd/src/session/registry.rs:131-169 | a crash after any part of the restart's own writes loses and changes no session |
| `Recovery.MirrorRestores` | crates/wrsrvd/src/session/persistence.rs:223-250 | the rows of a consistent registry have distinct tokens, all can be read back, and stand for exactly its active and suspended sessions |
| `Recovery.CrashThenRestart` | crates/wrsrvd/src/session/registry.rs:111-172 | crash at any point of any run with any part of the writes durable, then restart: a consistent, mirrored registry with exactly the sessions of one past moment |
| `Recovery.SettingsSurvive` | crates/wrsrvd/src/session/registry.rs:323-336 | a user and a timeout that were set are still set after a crash and a restart |
| `Recovery.RestoredCount` | crates/wrsrvd/src/session/registry.rs:123-172 | the number a restart reports is that of the sessions it restored |
| `Recovery.SecondRestart` | crates/wrsrvd/src/session/registry.rs:111-172 | a second restart leaves the same sessions, index and rows up to timestamps, and the same next id if and only if the largest readable row was one that comes back |
| `Recovery.NextIdFallsBack` | crates/wrsrvd/src/session/registry.rs:133-136 | a table after which the next id falls from 6 to 1 at the second restart |
| `Recovery.IdsReusedAcrossRestart` | crates/wrsrvd/src/session/registry.rs:133-136 | a destroyed session's id can be issued again after a restart, as its row is gone |
| `NetworkLoop.Server.Wake` | crates/wrsrvd/src/network.rs:397-453 | the serve loop's state, connection numbers and emitted events for every wakeup |
| `NetworkLoop.WakeupKeepsSeparated` | crates/wrsrvd/src/network.rs:397-453 | no wakeup makes two connects follow one another |
| `NetworkLoop.ConnectsAreSeparated` | crates/wrsrvd/src/network.rs:704-708 | in every run a disconnect lies between any two connects |
| `NetworkLoop.EveryConnectionEnds` | crates/wrsrvd/src/network.rs:397-453 | in every run as many disconnects are announced as clients were taken up, less the one in hand, and one connect for each handshake started |
| `Driver.CompositorDriver.OnClientConnected` | crates/wrsrvd/src/backend/headless.rs:389-545 | the whole decision: probe, redirect, resume, offload or create, then bind and publish |
| `Driver.CompositorDriver.OnClientDisconnected` | crates/wrsrvd/src/backend/headless.rs:546-559 | the bound session is suspended, the binding cleared, the state published |
| `Driver.CompositorDriver.DrainNetworkEvents` | crates/wrsrvd/src/backend/headless.rs:381-594 | the loop handles all queued events in order |
| `Driver.CompositorDriver.Cleanup` | crates/wrsrvd/src/backend/headless.rs:330-352 | expired sessions destroyed, then purged, remote locations pruned, nothing published |
| `DriverProofs.ConnectedKeeps` | crates/wrsrvd/src/backend/headless.rs:389-545 | a connect while nothing is bound leaves at most one session active: the bound one, owned by the presented token |
| `DriverProofs.DisconnectedKeeps` | crates/wrsrvd/src/backend/headless.rs:546-559 | a disconnect can always suspend the bound session and leaves none active |
| `DriverProofs.CleanedExactly` | crates/wrsrvd/src/backend/headless.rs:330-352 | the cleanup removes exactly the expired sessions and changes no other |
| `DriverProofs.IndexedIsResumable` | crates/wrsrvd/src/session/registry.rs:271-277 | between events every indexed token can be resumed |
| `DriverProofs.NeverElsewhere` | crates/wrsrvd/src/backend/headless.rs:722-784 | while no client is bound the server's load is zero, so the choice of a less loaded peer never chooses one |
| `DriverOps.HandledIssues` | crates/wrsrvd/src/backend/headless.rs:438-559 | handling an event is exactly a list of registry operations, all of which succeed; a resumed session is never already active |
| `DriverOps.CleanedIssues` | crates/wrsrvd/src/backend/headless.rs:330-352 | so is the cleanup |
| `DriverRuns.NextKeepsInv` | crates/wrsrvd/src/network.rs:397-453 | every step of serve loop, driver and cleanup keeps the invariant that joins queue, reply channel, registry and store |
| `DriverTheorems.RunKeepsInv` | crates/wrsrvd/src/network.rs:397-453 | the invariant in every run |
| `DriverTheorems.ServedSession` | crates/wrsrvd/src/network.rs:677-745 | while a client is served exactly one session is active: the one its reply named, owned by the token it named; peers are told a load of one and that token |
| `DriverTheorems.AtMostOneActive` | crates/wrsrvd/src/backend/headless.rs:438-559 | in every state of every run at most one session is active, and none rests in creation or destroyed |
| `DriverTheorems.NothingFails` | crates/wrsrvd/src/backend/headless.rs:438-559 | no activation, suspension, creation or destruction issued in any run is refused or breaks the registry's demands |
| `DriverTheorems.TokenGetsItsSession` | crates/wrsrvd/src/backend/headless.rs:415-497 | a token with a session here gets it back whatever the cluster says; one without gets a new session unless a peer says it hosts it |
| `DriverTheorems.RedirectedIff` | crates/wrsrvd/src/backend/headless.rs:415-437 | a client is redirected to a server if and only if its token has no session here and that server, by an entry less than 30 seconds old or else by the peers, hosts it and has a known address; otherwise it gets a new session |
| `DriverTheorems.HomeRemembered` | crates/wrsrvd/src/backend/headless.rs:415-437 | a home that the peers named is used again for 30 seconds without asking, over any cleanup |
| `DriverHistory.QueuedTokens` | crates/wrsrvd/src/network.rs:702-708 | in every run every queued connect carries exactly the token its client presented when it was taken up |
| `DriverHistory.OpenedOnce` | crates/wrsrvd/src/network.rs:397-453 | a connection number is used once |
| `DriverHistory.ServedForItsToken` | crates/wrsrvd/src/backend/headless.rs:389-545 | while a connection is served, the one active session is that of the token its client presented, or of one generated for it if it presented none |
| `DriverHistory.SessionWaitsIff` | crates/wrsrvd/src/backend/headless.rs:330-352 | a session whose client left at time t, not resumed since, is there if and only if no cleanup came at t plus its timeout or later |
| `DriverHistory.HotDeskIff` | crates/wrsrvd/src/backend/headless.rs:446-478 | and exactly then is whoever presents its token bound to it |
| `DriverHistory.HotDeskReturns` | crates/wrsrvd/src/backend/headless.rs:446-478 | over any comings and goings: a session once bound here is given to whoever presents its token, as long as no cleanup came when it had been away for its whole timeout |
| `DriverHistory.NewSessionIs` | crates/wrsrvd/src/session/types.rs:110-122 | a session that a connect creates is active, belongs to this server, has no user and waits a day |
| `DriverHistory.RestoredWaitsIff` | crates/wrsrvd/src/session/registry.rs:119 | a restored session waits for its whole timeout from the restart on |
| `DriverHistory.LocalOrRemote` | crates/wrsrvd/src/session/registry.rs:209-222 | in every run no token is taken to be both here and elsewhere; the driver says that a client is connected exactly while a session is bound |
| `DriverHistory.PartedRow` | crates/wrsrvd/src/session/registry.rs:296-303 | once a departure is written, the stored row says that the session has been suspended since then, with its creation and settings |
| `DriverTheorems.NeverOffloads` | crates/wrsrvd/src/backend/headless.rs:479-487 | in no run is a connecting client sent to a less loaded peer |
| `DriverTheorems.RunKeepsSession` | crates/wrsrvd/src/session/registry.rs:339-362 | a session stays, with its token, over any steps until a cleanup lists it |
| `DriverTheorems.PublishedIsEnough` | crates/wrsrvd/src/backend/headless.rs:629-634 | once anything was published, peers are told of every session hosted here, also after cleanups and redirects |
| `DriverHistory.PublishedExactly` | crates/wrsrvd/src/backend/headless.rs:629-634 | after every bind and departure peers are told exactly of the tokens that can be resumed here, and of the true load |
| `DriverTheorems.BootHidesRestored` | crates/wrsrvd/src/backend/headless.rs:629-634 | before that they are told enough if and only if nothing was restored |
| `DriverTheorems.RestoredSessionHidden` | crates/wrsrvd/src/backend/headless.rs:629-634 | a restart after which a resumable session is not published |
| `DriverTheorems.RunOfOps` | crates/wrsrvd/src/backend/headless.rs:381-594 | every run of the server is a run of registry operations |
| `DriverTheorems.CrashThenBoot` | crates/wrsrvd/src/session/registry.rs:111-172 | the server may die anywhere in any run with any part of its writes durable; the next process starts in a state from which all of this holds, with the sessions of the moment whose writes are exactly the durable ones |
| `LoadBalance.PickPeer` | crates/wrsrvd/src/backend/headless.rs:722-784 | the loop over the peers' answers and the final choice |
| `LoadBalance.BestIsLeast` | crates/wrsrvd/src/backend/headless.rs:703-713 | a peer is selected if and only if one is below capacity, and it has the smallest weighted load of those |
| `LoadBalance.BestIsFirst` | crates/wrsrvd/src/backend/headless.rs:703-713 | among equal weighted loads the first peer asked is selected |
| `LoadBalance.PickedIsLighter` | crates/wrsrvd/src/backend/headless.rs:722-784 | a redirect only happens above the threshold and leads to a strictly less loaded peer with the smallest weighted load (a branch the composed server never takes, see `NeverOffloads`) |
| `LoadBalance.EqualWeightsRedirectIff` | crates/wrsrvd/src/backend/headless.rs:703-784 | with equal weights a redirect happens if and only if the server is above the threshold, has the secret, and some answering peer is lighter and below capacity |
| `LoadBalance.LighterPeerNotTaken` | crates/wrsrvd/src/backend/headless.rs:775-784 | with different weights it may keep the session although a lighter peer answered |
| `LoadBalance.RedirectsEnd` | crates/wrsrvd/src/backend/headless.rs:775-784 | with any truthful, unchanging loads a client sent on from server to server meets none twice (servers of this program alone never send one on) |
| `Tiling.BspLayout` | crates/wr-wm-tiling/src/main.rs:88-133 | the recursion appends the layout of its area to the shared list |
| `Tiling.TilingWm.CalculateLayout` | crates/wr-wm-tiling/src/main.rs:54-84 | the special cases for none and one window agree with the general layout |
| `Tiling.OneForEachWindow` | crates/wr-wm-tiling/src/main.rs:54-84 | as many rectangles as windows, for every output size |
| `Tiling.BspArea` | crates/wr-wm-tiling/src/main.rs:88-133 | conservation on all inputs: the cells of the windows have together the area of the cell they divide |
| `Tiling.SplitExact` | crates/wr-wm-tiling/src/main.rs:107-133 | one split with truncating division gives both parts the lengths asked for if and only if the whole has the least length computed from them |
| `Tiling.TowardsZero` | crates/wr-wm-tiling/src/main.rs:107-120 | the division leaves less than one divisor, of the sign of the dividend |
| `Tiling.BspSizesIff` | crates/wr-wm-tiling/src/main.rs:88-133 | no window is smaller than `side` if and only if the area has the length `Need` both ways, for every area |
| `Tiling.LayoutPlacedIff` | crates/wr-wm-tiling/src/main.rs:54-133 | all windows inside the inset output, pairwise a gap apart, none smaller than `side`, if and only if both output sides reach a bound that depends on the number of windows only |
| `Tiling.NeedAtMost` | crates/wr-wm-tiling/src/main.rs:54-133 | that bound is at most linear in the number of windows |
| `Tiling.LayoutPlaced` | crates/wr-wm-tiling/src/main.rs:54-133 | so an output of `(side + 4) * n + 4` pixels each way (for a side of 1: `5n + 4`) always suffices |
| `Tiling.LayoutCoversExactly` | crates/wr-wm-tiling/src/main.rs:54-133 | every point of the output belongs to a window or its gap, and to exactly one where no window has a negative size |
| `Tiling.TooSmallLeavesOutput` | crates/wr-wm-tiling/src/main.rs:107-133 | an output too small for its windows, where a rectangle leaves it |
| `Stacking.Restack` | crates/wrsrvd/src/wm/types.rs:84-120 | the loop over the directives equals the fold of single directives |
| `Stacking.ApplyDirective` | crates/wrsrvd/src/wm/types.rs:86-118 | one directive with its remove and insert positions; unknown windows, unknown siblings and self-references change nothing |
| `Stacking.NothingMoves` | crates/wrsrvd/src/wm/types.rs:86-118 | a directive for an unknown window, to stay, next to an unknown window or next to itself changes nothing |
| `Stacking.RestackPermutes` | crates/wrsrvd/src/wm/types.rs:78-120 | the result is a permutation of the stack for every command list |
| `Stacking.UnmovedKeepOrder` | crates/wrsrvd/src/wm/types.rs:78-120 | windows that no directive moves keep their order among themselves |
| `Stacking.LastDirectiveHolds` | crates/wrsrvd/src/wm/types.rs:78-83 | later commands win: the last one is true of the result (top, bottom, directly above, directly below, unchanged) |
| `Stacking.RaisedOneByOne` | crates/wrsrvd/src/state.rs:289-294 | raising distinct windows one by one puts them on top in that order, the others below in theirs |
| `Stacking.RaisingRealises` | crates/wrsrvd/src/state.rs:276-296 | raising any rearrangement of a stack turns the stack into it |
| `SpaceOrder.Space.RegisterWindow` | crates/wrsrvd/src/state.rs:204-209 | the window gets an id none had; the list stays one-to-one if and only if the window was not registered |
| `SpaceOrder.Space.ApplyZOrder` | crates/wrsrvd/src/state.rs:276-298 | the z-order pass with its raise loop |
| `SpaceOrder.Lookups` | crates/wrsrvd/src/state.rs:212-226 | the two searches of the window list are inverse |
| `SpaceOrder.PassRealisesOrder` | crates/wrsrvd/src/state.rs:276-298 | afterwards the named windows stand in exactly the order the directives ask for; windows without an id are all there, below, in their old order |
| `Floating.BuiltinFloatingWm.OnNewToplevel` | crates/wrsrvd/src/wm/floating.rs:164-204 | the new window's size, place, z index and focus |
| `Floating.BuiltinFloatingWm.CycleFocus` | crates/wrsrvd/src/wm/floating.rs:111-128 | the top window goes to the bottom, the new top gets the next z index |
| `Floating.BuiltinFloatingWm.OnPointerFocus` | crates/wrsrvd/src/wm/floating.rs:267-274 | only managed windows are raised |
| `Floating.BuiltinFloatingWm.OnFullscreenRequest` | crates/wrsrvd/src/wm/floating.rs:211-220 | a managed window fills the output and is raised |
| `Floating.BuiltinFloatingWm.OnKeyBinding` | crates/wrsrvd/src/wm/floating.rs:237-265 | which chords cycle, snap or do nothing, and which presses are taken |
| `Floating.EventKeepsIff` | crates/wrsrvd/src/wm/floating.rs:164-274 | every event keeps the focus stack a duplicate-free list of the managed windows with distinct, issued z indices, except exactly announcing a managed window again |
| `Floating.AnnouncedTwice` | crates/wrsrvd/src/wm/floating.rs:164-204 | a window announced twice, and listed twice |
| `Floating.RunKeepsInv` | crates/wrsrvd/src/wm/floating.rs:164-274 | likewise over every run with fresh ids |
| `Floating.CycledStack` | crates/wrsrvd/src/wm/floating.rs:111-128 | the focus stack after any number of steps of the cycle |
| `Floating.FullCycle` | crates/wrsrvd/src/wm/floating.rs:111-128 | `n` steps on `n >= 2` windows visit every window once and restore the stack |
| `Floating.ZOrderKept` | crates/wrsrvd/src/wm/floating.rs:131-274 | opening, closing, clicking and fullscreen keep the focus stack in z order |
| `Floating.CyclingKeepsZOrderIff` | crates/wrsrvd/src/wm/floating.rs:111-128 | cycling keeps it so if and only if there are at most two windows |
| `Floating.UncycledRunFocusesTop` | crates/wrsrvd/src/wm/floating.rs:164-274 | in every run without Alt+Tab the focused window is the one on top, also after windows close |
| `Floating.ClosingKeepsTopIff` | crates/wrsrvd/src/wm/floating.rs:206-209 | closing a window leaves the focused one on top if and only if it was not the focused one, or the next one is the highest of the rest |
| `Floating.FocusedNotOnTopAfterClose` | crates/wrsrvd/src/wm/floating.rs:206-209 | events after which the focused window is below another |
| `Floating.NewWindowPlaced` | crates/wrsrvd/src/wm/floating.rs:164-204 | a new window is focused, visible and above all others, meets its size hints unless they contradict each other, and its margins differ by at most one pixel both ways, also on an output smaller than it |
| `Floating.ArrowSnaps` | crates/wrsrvd/src/wm/floating.rs:237-265 | Super with an arrow makes the focused window cover exactly the points of that half of the output, changes nothing else and is taken |
| `Floating.PassedOnChangesNothing` | crates/wrsrvd/src/wm/floating.rs:237-265 | a key that is passed on changed nothing; Alt with F4 or Tab is never passed on |
| `Floating.PointingBringsUp` | crates/wrsrvd/src/wm/floating.rs:267-274 | pointing at a managed window focuses it above all others where it is, and leaves the others as they were |
| `Floating.FullscreenCovers` | crates/wrsrvd/src/wm/floating.rs:211-220 | a managed window that asks for it covers exactly the output, on top of all others |
| `Floating.ClosingTakesOne` | crates/wrsrvd/src/wm/floating.rs:206-209 | closing takes one window away and leaves the others, their order and the counter |
| `Framing.FrameThenTail` | crates/wayray-protocol/src/codec.rs:41-83 | a frame decodes to its message and length whatever follows it |
| `Framing.LowestByteFirst` | crates/wayray-protocol/src/codec.rs:41-48 | the lowest byte of the length comes first on the wire |
| `Framing.FrameRoundTripsIff` | crates/wayray-protocol/src/codec.rs:41-83 | encoding and decoding are inverse if and only if the payload length fits 32 bits |
| `Framing.LongFrameFails` | crates/wayray-protocol/src/codec.rs:41-48 | a message of 2^32 bytes, not read back |
| `Framing.StrictPrefixNeedsMore` | crates/wayray-protocol/src/codec.rs:67-83 | every strict prefix of a frame asks for more |
| `Framing.ReadAccepts` | crates/wrsrvd/src/network.rs:1055-1071 | the receiving side takes exactly the messages within the cap and refuses the others from their prefix |
| `Framing.ReadEnds` | crates/wrsrvd/src/network.rs:1055-1071 | a stream that ends within a frame is reported as ended, or as too large if its prefix says so |
| `Framing.GarbageReported` | crates/wayray-protocol/src/codec.rs:67-83 | a whole payload that cannot be decoded is reported, whatever follows it |
| `Framing.StreamRoundTrip` | crates/wayray-protocol/src/codec.rs:41-83 | concatenated frames come back in order and what follows them decodes as if it stood alone |
| `Framing.StreamUnambiguous` | crates/wayray-protocol/src/codec.rs:41-83 | all bytes are consumed and no two message lists have the same encoding |
| `Framing.ChunkingIsInvisible` | crates/wayray-protocol/src/codec.rs:67-83 | however any byte string, malformed or not, is cut into chunks, the decoded messages, the rest and the failure are the same |
| `Clipboard.CapClipboardPayload` | crates/wayray-protocol/src/messages.rs:196-216 | the truncating and popping loop, and when it reports truncation |
| `Clipboard.CappedWholeIff` | crates/wayray-protocol/src/messages.rs:196-199 | a payload is left whole if and only if it has at most 1 MiB |
| `Clipboard.TextMimes` | crates/wayray-protocol/src/messages.rs:166-172 | the text types, in any case of letters |
| `Clipboard.CharAt` | crates/wayray-protocol/src/messages.rs:192-195 | every byte of text that is valid by section 4 of RFC 3629 belongs to one character with valid text before it |
| `Clipboard.BackoffCuts` | crates/wayray-protocol/src/messages.rs:201-214 | cutting valid text anywhere and backing off removes exactly the character of the last byte left, whole or not, if that byte is not ASCII |
| `Clipboard.CappedTextValid` | crates/wayray-protocol/src/messages.rs:192-216 | a payload above the cap becomes a valid beginning of the same text of between MAX-4 and MAX bytes, of MAX exactly if byte MAX is ASCII |
| `Clipboard.LastWholeCharDropped` | crates/wayray-protocol/src/messages.rs:203-213 | a text whose last fitting character is dropped although it fits |
| `Clipboard.ReadSelection` | crates/wrsrvd/src/state.rs:708-743 | the bounded read loop with interruptions, errors and end of pipe |
| `Clipboard.SelectionExact` | crates/wrsrvd/src/state.rs:720-743 | without errors, the forwarded payload is the whole source cut to the cap, flagged truncated if and only if the source is above it, however it arrives |
| `Clipboard.SelectionLostIff` | crates/wrsrvd/src/state.rs:720-733 | a selection is lost if and only if the pipe breaks before its end and before more than the cap has come |
| `KnownHosts.NormalizeIdempotent` | crates/wayray-protocol/src/tls.rs:44-51 | normalising twice is normalising once |
| `KnownHosts.PrefixToleratedIff` | crates/wayray-protocol/src/tls.rs:41-57 | a prefix in any mixture of cases put before a fingerprint leaves it equal if and only if it is in lower case and the fingerprint carries none already |
| `KnownHosts.UpperCasePrefixKept` | crates/wayray-protocol/src/tls.rs:44-51 | a capital prefix that is not stripped |
| `KnownHosts.PinStore.VerifyOrRemember` | crates/wayray-protocol/src/tls.rs:112-135 | the outcome, the pins and the file, also when the file cannot be written |
| `KnownHosts.PinStore.Persist` | crates/wayray-protocol/src/tls.rs:138-152 | the file lists every pin once |
| `KnownHosts.ParseKnownHosts` | crates/wayray-protocol/src/tls.rs:156-168 | the loop over the lines |
| `KnownHosts.ParsedWellFormed` | crates/wayray-protocol/src/tls.rs:156-168 | whatever the file contains, the pins read from it are well formed |
| `KnownHosts.FileRoundTripsIff` | crates/wayray-protocol/src/tls.rs:138-168 | printing and parsing is the identity on a pin map if and only if every pin in it is well formed |
| `KnownHosts.SpacedIdentityChanges` | crates/wayray-protocol/src/tls.rs:138-168 | a pin that does not survive its own file |
| `KnownHosts.PinsStay` | crates/wayray-protocol/src/tls.rs:112-135 | over any sequence of calls a recorded pin never changes |
| `KnownHosts.FirstFingerprintDecides` | crates/wayray-protocol/src/tls.rs:112-135 | every later call for an identity matches if and only if it agrees with the first fingerprint up to formatting, and is refused with the first one otherwise |
| `Modifiers.Evdev` | crates/wrclient/src/input.rs:206-296 | the key table sends modifier keys, and no other key, to keycodes with a modifier bit on the server |
| `PhysicalKeys.CodeOfPlace` | crates/wrclient/src/input.rs:206-296 | every key but the modifiers has the code of its place in the rows of the keyboard |
| `PhysicalKeys.SidesKept` | crates/wrclient/src/input.rs:206-296 | left and right modifier keys keep their sides |
| `PhysicalKeys.CodesDistinct` | crates/wrclient/src/input.rs:206-296 | no two keys share a code |
| `Modifiers.App.OnWindowEvent` | crates/wrclient/src/main.rs:197-212 | the messages of a key or modifier event and the client's new state |
| `Modifiers.App.EmitModifiers` | crates/wrclient/src/input.rs:105-125 | one press or release for every modifier that changed, in the source's order |
| `Modifiers.WayRay.Mask` | crates/wrsrvd/src/state.rs:91-96 | the fold over the held keys is the mask of the held modifiers, left or right |
| `Modifiers.WayRay.InjectNetworkInput` | crates/wrsrvd/src/state.rs:528-600 | tracking, binding check and the seat, for a key message |
| `Modifiers.WayRay.ReleaseAllKeys` | crates/wrsrvd/src/state.rs:431-453 | every tracked key is released, nothing stays held |
| `ModifierRuns.MissingIs` | crates/wrclient/src/main.rs:203-212 | after any events of a connection the server misses a modifier if and only if the client has held it ever since before the connection (for Shift: and no letter was corrected since) |
| `ModifierRuns.MaskAgreesIff` | crates/wrclient/src/input.rs:100-125 | the server's mask is the client's modifier state if and only if nothing is missing, from any state of the client |
| `ModifierRuns.MaskFollowsClient` | crates/wrclient/src/input.rs:100-125 | a client that connects with nothing held is followed through every event |
| `ModifierRuns.LetterRightIff` | crates/wrclient/src/input.rs:67-97 | if no binding takes Shift, in every connection a letter is pressed on the seat with Shift as its case wants it, whatever caps lock, except exactly a capital typed with a Shift held since before the connection |
| `ModifierRuns.ShiftHeldOverReconnect` | crates/wrclient/src/main.rs:203-212 | a connection begun with Shift held: the masks differ and a capital comes out small |
| `ModifierRuns.TakingShiftSpoilsLetters` | crates/wrsrvd/src/state.rs:534-541 | and only then: for every other set of bindings there is a connection in which a letter comes out wrong |
| `PhysicalKeys.KeysMirrored` | crates/wrclient/src/input.rs:36-97 | in every connection, after any events, an ordinary key that no binding takes is down on the seat if and only if it is down at the client |
| `PhysicalKeys.CapsLockStaysHome` | crates/wrclient/src/input.rs:36-52 | caps lock is never forwarded |
| `PhysicalKeys.ModifierKeysSendNothing` | crates/wrclient/src/input.rs:36-52 | a modifier key's own event sends nothing |
| `PhysicalKeys.OnlyLettersBracketed` | crates/wrclient/src/input.rs:69-94 | only the press of a key that stands for one ASCII letter sends more than its own message |
| `PhysicalKeys.ReleaseIsPlain` | crates/wrclient/src/input.rs:69-97 | a release sends nothing but itself |
| `PhysicalKeys.ModifiersInOrder` | crates/wrclient/src/input.rs:105-125 | a change of modifiers sends at most one message for each, in the order Shift, Control, Alt, Super |
| `Modifiers.SeatIsTracked` | crates/wrsrvd/src/state.rs:594-600 | the keys to release on disconnect are always exactly those down on the seat |
| `Modifiers.SticksIff` | crates/wrsrvd/src/state.rs:534-600 | a message leaves a key down that the client let go of if and only if it releases a key that is down and a binding takes it |
| `Modifiers.NothingSticks` | crates/wrsrvd/src/state.rs:534-600 | if no binding takes a release, no key stays down on the seat after the client let go of it |
| `Modifiers.GrabbedReleaseSticks` | crates/wrsrvd/src/state.rs:534-541 | a chord binding that takes a release leaves a key down until disconnect |
| `Modifiers.Disconnect` | crates/wrsrvd/src/state.rs:425-453 | after any messages a disconnect returns the keyboard to the clean state a new connection assumes |

## Left out

- QUIC, TLS, sockets, threads and SQL: channels are sequences, the database is a map. A database write that fails is only logged by the source and is not modelled; after one the table need not be a past state.
- A write of a frame that `select!` cancels half way: the frame vanishes as a whole here, the corrupted stream is not modelled.
- Display.Relay.CheckCompositorCommands: control, audio and shutdown messages and failed writes are not modelled.
- Display.DisplayClient.Receive: the session ends where the source fails to send a request, an acknowledgement or a frame; those ends are not modelled.
- Sessions.SqliteStore.Flush: does not model the timeout after which the source stops waiting.
- Driver.CompositorDriver.DrainNetworkEvents: input, clipboard and acknowledgement messages and a closed channel are not modelled.
- KnownHosts.PinStore.Persist: does not fix the order of the lines, which the source sorts; `FileRoundTripsIff` holds for every order.
- Modifiers.WayRay.InjectNetworkInput: what a window manager does with a key it takes is not modelled, only which key events it takes.
- The failure of a send to the network thread.
- Display stream of one connection: a client's framebuffer size is the server's output; resizing and the announced output size are not modelled.
- Integer widths: frame counters, ids, z indices and coordinates are unbounded; the modelled widths are the 32-bit length prefix, the 64-bit checksum and the modifier mask.
- Rust's `u32` casts in the damage clamp: the values are non-negative where they are cast.
- Conversion between wall clock and monotone clock when a row is saved and restored; timestamps are excluded from what a restart preserves.
- Rows with an unreadable state: the theorems on crashes are for tables written by the registry, which have none; a restart leaves such rows where they are.
- `NullStore`, the launcher link, admin queries, and the state counts shown to administrators.
- Cluster probes: their answers are parameters of a connect. Loads are reals where the source has 32-bit floats. No uniqueness of sessions across servers is claimed, since probes may time out.
- The first pass of `apply_render_commands` (mapping, unmapping, visibility) and the external window manager's render hand-off.
- `WorkspaceState`: setters on maps and a lookup, which would only add easy members.
- The backing file's permissions and directory; a missing file is the empty text.
- Pointer, scroll and button input.
- Smithay's keyboard: the seat is the set of keys that are down, without keymaps and focus.
- NetworkLoop.Server.Wake: the shutdown of the loop and of the acceptor is not modelled.
