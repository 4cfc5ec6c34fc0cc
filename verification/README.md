# Proofs about OmniWork's transport, sessions, relay and codecs

This project models the parts of OmniWork that carry its hardest promises and
proves them for all inputs and all runs. It stands beside the TypeScript
sources; each module names the files it follows.

**Transport and session** (`strict_transport_*`, `secure_session_spec`,
`sealed_wire`, `transport_conservation`, `transport_lifecycle`, `mobile_transport`). The mobile transport is a step system:
sends, attaching and detaching peers, health events, pausing, reconnecting,
closing, and path switches cut in two at their await, so that any step can
fall into the drain window. The classes `MobileSessionTransport` and
`MobileRelaySession` are tied, method by method, to the functions of the step
system, and the theorems are about whole runs of it. (Here and in
`relay_gate` and `relay_store`, only the methods that hold a loop or an
argument of their own have a row below.) Every accepted message stays
accounted for in both modes, and windows let go in order. Strict mode keeps business
traffic off the relay path exactly when no step meets its leak guard; taking a
peer away inside the drain window is what makes the guard reachable.

**End-to-end session, handshake and relay gate** (`e2e_session`, `handshake`,
`handshake_runs`, `relay_gate*`). Cryptography is ideal: a box opens only under the key, nonce
and header that sealed it, Diffie-Hellman commutes, hashing and key derivation
are injective, a signature verifies what its key signed. The network drops,
repeats, reorders, forges, and respells base64url texts. The relay's readiness is read as a statement
about the past of every run.

**Line diff** (`line_diff_*`, `changed_lines_spec`). The table, the greedy walk
and the trimming loops, optimality of the script, and which line numbers the
editor marks.

**Codecs** (`websocket_*`, `utf8`, `base64url*`, `base32`, `identity_ids`,
`sha256*`, `json_text`, `canonical_*`). WebSocket framing under any
chunking, UTF-8 of any UTF-16 sequence, base64url, Crockford base32, identity
ids, SHA-256 and HMAC, and the canonical JSON that is signed.

**Stores and limiters** (`surface_*`, `token_bucket*`, `relay_store*`).
Stable-sort merges, a long-run rate bound and its converse, index integrity,
and counters that are tallies of the traffic.

Where the code falls short of what its documentation says, the exact condition
is proved: a peer taken away inside a drain window lets a strict transport send
over the relay (`StepLeaksExactly`, `RunIsCleanExactly`); the changed-line
numbers of the fallback diff ignore the common prefix
(`FallbackMarksIgnorePrefix`); a capacity below one breaks the rate bound
(`CapacityBelowOne`); a reused handshake id lets the relay call a pair ready on
an old reply (`ReadyHistoryExactly`, `ReusedHandshakeIdIsStale`); a signature
whose base64url text is respelled on the way still verifies, but the transcript
hash covers the text, so both ends succeed without being paired
(`CompletedPairsExactly`, `RespellingUnpairs`, `SpellingsOfBytes`); and a sync
orders ties unlike single events when ids change their times
(`BatchingExactly`, `TimesMustStay`). Link ids made by joining ids with
underscores could clash (`StepKeepsInverseExactly`), but not with the relay's
own connection ids, a prefix and a UUID (relay/server/src/runtime/topology.ts:48),
which all have one length (`EqualLengthsStayInverse`).

Conventions. Bytes are integers below 256, and shifts and masks of disjoint
bits are written as the division, remainder and sum they amount to; only the
32-bit words of SHA-256 are bit-vectors. `offered`, `relayCalls`, `sent`,
`wire` and `output` are observations: they record what a method was given or
handed on. A clock is a parameter. Sequences stand for JavaScript's strings,
arrays and insertion-ordered maps.

## Model

| member | source | states |
|---|---|---|
| `StrictTransportSafety.StrictSafety` | app/src/lib/transport/sessionTransport.ts:155-195 | In every run of a strict transport in which no peer is taken away inside a drain window (nor detached from under the P2P path), the relay path gets only `tunnel.upgrade.*` and `transport.*`, and an open transport on the P2P path has a peer |
| `StrictTransportSafety.RunIsCleanExactly` | app/src/lib/transport/sessionTransport.ts:483-589 | For every run: the relay path stays clean if and only if no step met its leak guard; the guard is a condition on the state before the step |
| `StrictTransportSafety.StepLeaksExactly` | app/src/lib/transport/sessionTransport.ts:501-531 | From every state that satisfies the invariant, any step keeps the invariant, and hands a gated message to the relay path if and only if its guard holds: a flush of the pending queue with no peer and something gated behind the head |
| `StrictTransportSafety.RunInvariant` | app/src/lib/transport/sessionTransport.ts:364-431 | After every run of a strict transport, hazards or not: a switch queue exists only on the relay path and holds control messages, all open windows lead to P2P, a force-closed transport is back on the relay path with nothing pending, and at most 256 messages wait |
| `StrictTransportSafety.FlushLeaks` | app/src/lib/transport/sessionTransport.ts:583-589 | One flush of the pending queue leaks exactly when there is no peer and its tail holds a gated message; with a peer it changes nothing but queue and session |
| `StrictTransportSafety.FlushOntoRelay` | app/src/lib/transport/sessionTransport.ts:534-563 | A flush that finds the path back at the relay hands all its messages to the relay session in order, or only the first when that session is closed and throws |
| `StrictTransportSafety.DetachInsideTheWindowLeaks` | app/src/lib/transport/sessionTransport.ts:502-506 | The hazard is real: for any two gated messages there is a run, with a reconnect inside the drain window, that ends with the second on the relay path |
| `StrictTransportAccounting.StrictAccounting` | app/src/lib/transport/sessionTransport.ts:510-531 | Under the same side condition, until close or force close, the gated messages given to the peer followed by those still pending are exactly the accepted ones, in order; never more than 256 are pending |
| `TransportConservation.NothingIsLost` | app/src/lib/transport/sessionTransport.ts:155-195 | Conservation, in either mode and for items of any kind: after every run, while the transport is neither closed nor force closed, no switch threw, no reset hit a window that held something, and (outside strict mode) the queue stayed under its limit, the envelopes that `send` accepted and the heartbeats are exactly those on the peer channel, those given to `relayPath.send`, those held by the open window and those pending, each once |
| `TransportConservation.WindowLeavesForPeer` | app/src/lib/transport/sessionTransport.ts:501-531 | From any open state with room, a window that ends on P2P gives the peer what it held in order, then what was pending in order; what the session refuses is pending afterwards in order, and the relay path gets nothing |
| `TransportConservation.WindowLeavesForRelay` | app/src/lib/transport/sessionTransport.ts:501-531 | A window that ends on the relay path, or with its peer gone outside strict mode, gives `relayPath.send` what it held in order, and only a window to P2P lets the pending messages follow |
| `TransportConservation.UpgradeDeliversWindow` | app/src/lib/transport/sessionTransport.ts:483-531 | From start to end of `switchPath('p2p')` with a ready session: the peer gets exactly what was sent during the wait, in order |
| `TransportConservation.ResetKeepsExactly` | app/src/lib/transport/sessionTransport.ts:469-481 | A path reset loses exactly what the window holds at that moment |
| `TransportConservation.FullQueueIsLost` | app/src/lib/transport/sessionTransport.ts:565-581 | Outside strict mode, queueing behind a full queue drops the queue and the message and leaves the transport open, so the limit is needed |
| `TransportLifecycle.FirstConnection` | app/src/lib/transport/sessionTransport.ts:155-195 | A strict transport from its first message on: everything sent before session and peer are there leaves for the peer in order once they are, and nothing was ever given to the relay path |
| `TransportLifecycle.DowngradeDeliversWindow` | app/src/lib/transport/sessionTransport.ts:770-785 | When health or peer is lost outside strict mode, what is sent until the switch back has ended goes to `relayPath.send` in order, and the pending messages stay |
| `TransportLifecycle.StrictDowngradeEnds` | app/src/lib/transport/sessionTransport.ts:770-785 | In strict mode the same loss force closes: peer, window and queue are gone, business messages are dropped, control messages go over the relay |
| `TransportLifecycle.BackgroundAndBack` | app/src/lib/transport/sessionTransport.ts:439-455 | A strict transport in the background sends nothing; what was pending and what is sent meanwhile leaves in order after the return |
| `TransportLifecycle.ClosedIsSilent` | app/src/lib/transport/sessionTransport.ts:233-253 | In every run, a closed transport holds and queues nothing, refuses every send, and never calls `relayPath.send` again |
| `SealedWire.WireSafety` | app/src/lib/relay-client/mobileRelaySession.ts:146-188 | In every run and either mode: no business type leaves unsealed on either path, sealed frames use the control channel, the frames of one session on both paths together are numbered 1, 2, 3 without gap or repeat, and until the session closes each business message given to it is sealed onto the relay once or still waiting |
| `SealedWire.FlushSendsPendingOnce` | app/src/lib/relay-client/mobileRelaySession.ts:408-414 | Messages queued before readiness leave once each, in their order, under consecutive numbers, and none stays behind |
| `Messages.FamiliesMatchPrefixTables` | packages/protocol-ts/src/e2eMessages.ts:8-26 | For every message type text, the families used in the model classify it as business or as strict-mode control exactly as the prefix tables do |
| `MobileTransport.MobileSessionTransport.FlushPendingP2pBusinessMessages` | app/src/lib/transport/sessionTransport.ts:583-589 | Empties the queue first, then dispatches each message in order until one throws |
| `MobileTransport.MobileSessionTransport.ResumeSwitchPath` | app/src/lib/transport/sessionTransport.ts:501-531 | The part after the await, for any of the open windows: abandoned when closed, else path, held messages, pending messages, in that order |
| `MobileTransport.MobileSessionTransport.HandleE2EReady` | app/src/lib/relay-client/mobileRelaySession.ts:374-390 | A ready that does not match clears the session; the first that does makes it ready, flushes the transport's queue when on P2P, then the session's own |
| `MobileTransport.MobileRelaySession.FlushPendingBusinessMessages` | app/src/lib/relay-client/mobileRelaySession.ts:408-414 | Empties the queue first, then sends each message in order until one throws |
| `E2ESessions.PrefixDelivery` | packages/e2e-noise/src/index.ts:240-320 | Over a network that drops, repeats, reorders and forges: what each side's decrypts return is always a prefix of what the other encrypted, and no two boxes share key and nonce |
| `E2ESessions.OnlyTheNextOpens` | packages/e2e-noise/src/index.ts:261-320 | After any such run and for anything the network can show, decrypt succeeds if and only if it is shown the payload that carries the other side's next message, up to the bits of the ciphertext's text that no byte uses |
| `E2ESessions.ReplayIsReportedExactly` | packages/e2e-noise/src/index.ts:261-299 | After any run, a replay is reported exactly for a payload of the session whose number is not one past what was returned so far |
| `E2ESessions.HeaderBinds` | packages/e2e-noise/src/index.ts:301-320 | Two headers are equal if and only if session, connection, direction and number are, as long as no session id holds a bar (base64url has none) |
| `E2ESessions.EveryRunCanComplete` | packages/e2e-noise/src/index.ts:240-320 | Whatever the network did, every run can be continued by deliveries alone until each side has returned all that the other encrypted |
| `E2ESessions.E2ESession.EncryptInner` | packages/e2e-noise/src/index.ts:240-259 | The counter advances, beyond the safe integers it sticks and the call fails, else the box is sealed under that number's nonce and a header that binds session, connection, direction and number |
| `E2ESessions.E2ESession.DecryptPayload` | packages/e2e-noise/src/index.ts:261-320 | Checks in the source's order, with its error codes; any failed decrypt leaves the session unchanged |
| `E2ESessions.WriteNonce` | packages/e2e-noise/src/index.ts:486-495 | Two 32-bit writes give four zero bytes and the number big-endian; unsafe numbers are refused |
| `E2ESessions.NonceInjective` | packages/e2e-noise/src/index.ts:486-495 | Different safe sequence numbers get different nonces |
| `Bytes.WriteUint32` | packages/e2e-noise/src/index.ts:486-495 | Four bytes are written big-endian at the offset and all others stay |
| `Handshakes.HonestExchangePairs` | packages/e2e-noise/src/index.ts:88-193 | Undisturbed, init, accept and complete succeed and give equal session ids and transcript hashes and crossed, different keys |
| `Handshakes.TranscriptAgreement` | packages/e2e-noise/src/index.ts:413-445 | Two transcript hashes are equal if and only if all fields of both payloads, signatures included, are equal |
| `Handshakes.TranscriptDecidesPairing` | packages/e2e-noise/src/index.ts:109-193 | Whatever arrived: an app that completed and an agent that accepted are paired if and only if their transcript hashes are equal, and if and only if neither payload was changed on the way |
| `Handshakes.InitFieldsCoverPayload` | packages/protocol-ts/src/authSignatures.ts:67-83 | Equal init field lists come from equal payloads, signature apart |
| `Handshakes.ReplyFieldsCoverPayload` | packages/protocol-ts/src/authSignatures.ts:85-107 | Equal reply field lists come from equal payloads, signature apart, and equal app keys |
| `HandshakeRuns.CompletedPairsExactly` | packages/e2e-noise/src/index.ts:88-193 | In every run in which the network shows only signatures that were made, spelled as it likes: when an app completes its own init between honest keys, some agent made that reply for that init, both up to the spelling of their signatures, and with every such agent the app is paired if and only if both signatures arrived with zero in the bits of their texts that no byte uses |
| `HandshakeRuns.RespellingUnpairs` | packages/protocol-ts/src/identity.ts:190-212 | The condition can fail: for every spelling of the two signatures there is such a run in which agent and app both succeed, and they are paired only if both are spelled as written |
| `HandshakeRuns.AcceptedReplyWasMade` | packages/e2e-noise/src/index.ts:373-411 | In every such run, a reply that an app accepts under an honest agent's key is, up to the spelling of its signature, one that the agent made, for this app's ephemeral key and handshake id, in a context with the same ids of agent and app and the same connections |
| `HandshakeRuns.AcceptedInitWasMade` | packages/e2e-noise/src/index.ts:338-371 | In every such run, an init that an agent accepts under an honest app's key is, up to the spelling of its signature, one that the app made before, for this very agent and app and these connections |
| `Handshakes.PairedSessionsDeliver` | packages/e2e-noise/src/index.ts:195-320 | The two sessions of a pair deliver prefixes in both directions over any network, and every run of them can be continued until all has arrived |
| `RelayGateHistory.ReadyHistoryExactly` | relay/server/src/relayE2EController.ts:268-288 | In every run: a pair called ready went through the whole exchange since the app's last accepted init (reply, then ready, from the current primary agent, and ready from the app, with one handshake id and one transcript hash) if and only if that agent has sent any reply to the app since that init |
| `RelayGateHistory.PairReadyHasHistory` | relay/server/src/relayE2EController.ts:268-288 | With fresh handshake ids that always holds: a pair is ready only after the whole exchange since the app's last accepted init |
| `RelayGateHistory.FrameNeedsHistory` | relay/server/src/relayE2EController.ts:126-149 | With fresh ids, after any run, a frame from an app is refused with no other effect, or sent on once to the current primary agent, and then the whole exchange with that agent lies behind the app's last init |
| `RelayGateApps.AppFrameReachesAgent` | relay/server/src/relayE2EController.ts:126-149 | After every run, a frame from an app is delivered once to its device's primary agent if and only if it names the app itself, the pair is ready and the frame keeps to the session of the frames accepted since the app's last init or failure; otherwise it is refused with no other effect |
| `RelayGateAgents.AgentFrameReachesApp` | relay/server/src/relayE2EController.ts:151-175 | After every run, a frame from an agent is delivered once to its app if and only if the app is live and of its device, the agent's last ready for it is behind its last reply and failure, and the frame keeps to the session of its frames since that reply; otherwise it is refused with no other effect |
| `RelayGateAgents.OneSessionPerReply` | relay/server/src/relayE2EController.ts:151-175 | In every run, two forwarded frames of an agent for an app with no reply between them carry one session id |
| `RelayGateAgents.WholeExchange` | relay/server/src/relayE2EController.ts:31-175 | For any ids: from a paired app and agent, init, reply, both readys and a frame each way are each delivered to the other end, once and in order, and the app is announced as authenticated |
| `RelayGateAgents.FailuresArePassedOn` | relay/server/src/relayE2EController.ts:177-202 | A failure that either end of a pair reports is delivered to the other, once |
| `RelayGateHistory.FramesOnlyFromReadyPairs` | relay/server/src/relayE2EController.ts:126-149 | With fresh ids, in every run, each sealed frame the relay ever sent to an agent was sent by its app at a moment when the app and that agent had completed the exchange begun by the app's last init |
| `RelayGateHistory.OneSessionPerHandshake` | relay/server/src/relayE2EController.ts:140-147 | In every run, two forwarded frames of an app with no init and no failure between them carry one session id |
| `RelayGateHistory.ReusedHandshakeIdIsStale` | relay/server/src/relayE2EController.ts:177-202 | The condition can fail: reusing a handshake id after a failure reaches a pair that is called ready without a new reply |
| `RelayGateController.RelayE2EController.IsPairReadyForApp` | relay/server/src/relayE2EController.ts:268-288 | Answers exactly the readiness of the specification, connection by connection and field by field |
| `LineDiffSpec.WalkReplays` | app/src/editor/codeMirrorWebViewEntry.ts:271-293 | Context and deleted lines rebuild the old text, context and added lines the new one, and as many lines are kept as the longest common subsequence has |
| `LineDiffSpec.WalkIsMinimal` | app/src/editor/codeMirrorWebViewEntry.ts:249-294 | No script between the two texts has fewer added and deleted lines |
| `LineDiffSpec.WalkKeepsLongest` | app/src/editor/codeMirrorWebViewEntry.ts:258-294 | The context lines are a common subsequence of both texts and no common subsequence is longer |
| `LineDiffSpec.DeletesComeFirst` | app/src/editor/codeMirrorWebViewEntry.ts:271-293 | No line is deleted right behind an added one: within a change, deletions come first |
| `LineDiffSpec.NoScriptKeepsMore` | app/src/editor/codeMirrorWebViewEntry.ts:258-269 | Every script keeps at most as many lines as the table's top left entry |
| `LineDiffSpec.FallbackTrims` | app/src/editor/codeMirrorWebViewEntry.ts:296-326 | Common prefix, deletes (or adds) and common suffix rebuild the old (or new) text, and no equal line is left to trim at either end |
| `LineDiff.FillTable` | app/src/editor/codeMirrorWebViewEntry.ts:258-269 | The table filled backwards holds the longest common subsequence length of every pair of tails |
| `LineDiff.WalkTable` | app/src/editor/codeMirrorWebViewEntry.ts:270-293 | The loops over the table push exactly the script of the specification |
| `LineDiff.CreatePrefixSuffixLineDiff` | app/src/editor/codeMirrorWebViewEntry.ts:296-326 | The trimming loops push exactly the fallback script |
| `LineDiff.CreateLineDiff` | app/src/editor/codeMirrorWebViewEntry.ts:249-294 | The table script up to 250000 cells and the fallback script above; no entry holds a newline, and in the table branch joining the old and the new side gives the two argument texts |
| `ChangedLinesSpec.ChangedLinesAreExact` | app/src/editor/codeMirrorWebViewEntry.ts:229-247 | Numbers lie between 1 and one past the last line, none is listed exactly when the texts are equal, and every line not listed is kept unchanged from the old text by a context entry |
| `ChangedLinesSpec.FallbackMarksIgnorePrefix` | app/src/editor/codeMirrorWebViewEntry.ts:233-246 | In the fallback branch the marks are 1, 2, ... whatever the common prefix: they are the changed lines if and only if that prefix is empty |
| `ChangedLinesSpec.JoinSplit` | app/src/editor/codeMirrorWebViewEntry.ts:253-254 | Splitting a text at newlines loses nothing |
| `ChangedLinesSpec.SplitGivesLines` | app/src/editor/codeMirrorWebViewEntry.ts:253-254 | No line of a split text holds a newline |
| `ChangedLinesSpec.SplitJoin` | app/src/editor/codeMirrorWebViewEntry.ts:253-254 | Every nonempty list of lines without newlines comes back from its joined text: a text is split at all of its newlines and nowhere else |
| `LineDiff.CreateChangedLineNumbers` | app/src/editor/codeMirrorWebViewEntry.ts:229-247 | Strictly increasing, and exactly the line numbers where the script shows a change; empty for equal texts |
| `WebSocketStream.ChunkingDoesNotMatter` | relay/server/src/websocket.ts:67-114 | For any split of a byte stream into chunks: the same events, the same reason to stop and the same leftover as in one chunk (after a Close frame, a prefix of it) |
| `WebSocketStream.StreamIsDelivered` | relay/server/src/websocket.ts:67-114 | However a stream of valid frames is cut, each frame acts once and in order and an unfinished frame at the end stays buffered |
| `WebSocketStream.OnlyFramesAreAccepted` | relay/server/src/websocket.ts:224-295 | Conversely, a stream on which the connection goes on is the encoding of valid client frames and an unfinished one |
| `WebSocketConnections.ConnectionIgnoresChunking` | relay/server/src/websocket.ts:67-114 | On the connection: same texts to the handlers and same frames to the socket in the same order, same closing, same buffer while open |
| `WebSocketConnections.StreamIsAnswered` | relay/server/src/websocket.ts:67-114 | However a stream of valid frames without a Close frame is cut: one text per text frame and one pong per ping, in frame order and nothing else; the wait for a pong ends exactly if a pong frame came; the connection stays open and keeps an unfinished frame |
| `WebSocketConnections.StreamIsClosed` | relay/server/src/websocket.ts:82-86 | Up to a Close frame, however cut: what came before is answered, then one Close frame leaves that a client reads as code 1000, and the connection is closed |
| `WebSocketConnections.StreamIsRefused` | relay/server/src/websocket.ts:104-113 | Up to bytes that are no frame, however cut: what came before is answered, then one Close frame leaves with the code of the error and its reason, and the connection is closed |
| `WebSocketConnections.WebSocketConnection.HandleData` | relay/server/src/websocket.ts:67-114 | One chunk does to buffer, closing, pong wait and output what processing the buffered bytes and the chunk does; the oversize guard never fires |
| `WebSocketConnections.WebSocketConnection.Close` | relay/server/src/websocket.ts:54-65 | Writes one Close frame with the code and the UTF-8 of the reason, and closes, once |
| `WebSocketConnections.ReadFrame` | relay/server/src/websocket.ts:224-295 | The reading code, unmasking in place, computes the reading function: errors, incomplete or frame |
| `WebSocketConnections.Unmask` | relay/server/src/websocket.ts:286-288 | The loop masks every byte of the array in place |
| `WebSocketConnections.EncodeFrame` | relay/server/src/websocket.ts:297-314 | The header and payload writes give the server frame |
| `WebSocketFrames.ReadInvertsEncode` | relay/server/src/websocket.ts:224-295 | Reading any valid masked client frame, in any length form, followed by any bytes gives back opcode, payload and length |
| `WebSocketFrames.ProperPrefixIsIncomplete` | relay/server/src/websocket.ts:245-282 | Every proper prefix of two or more bytes reads as incomplete |
| `WebSocketFrames.ReadsOnlyEncodings` | relay/server/src/websocket.ts:224-295 | Whatever reads as a frame is the encoding of a valid client frame |
| `WebSocketFrames.ReadIsStable` | relay/server/src/websocket.ts:224-295 | Once a frame or an error is seen, more bytes do not change it |
| `WebSocketFrames.ErrorsExactly` | relay/server/src/websocket.ts:224-282 | Code 1009 exactly for a good header that announces more than 8 MiB, 1002 exactly for a bad header or a control frame over 125 bytes, and no other code |
| `WebSocketFrames.IncompleteIsSmall` | relay/server/src/websocket.ts:71-80 | A buffer without a whole frame is under the payload limit plus 14 bytes |
| `WebSocketFrames.ServerFrameIsRead` | relay/server/src/websocket.ts:297-314 | A client reads opcode and payload back from every server frame |
| `Sha256.Hash` | app/src/features/auth/hmacSha256.ts:43-119 | The loops over words, rounds and blocks compute the recursive SHA-256 |
| `Sha256.PadMessage` | app/src/features/auth/hmacSha256.ts:44-53 | The padding writes give message, mark, zeros and 64-bit length, the length as two 32-bit halves |
| `Sha256Spec.PaddingIsMinimal` | app/src/features/auth/hmacSha256.ts:45-47 | The padding fills whole blocks, and no shorter whole number of blocks would hold it |
| `Sha256Spec.PadInjective` | app/src/features/auth/hmacSha256.ts:43-53 | Different messages have different paddings, whatever their lengths |
| `Sha256.FillWords` | app/src/features/auth/hmacSha256.ts:61-73 | The 64 words of a block are its message schedule |
| `Sha256.RunRounds` | app/src/features/auth/hmacSha256.ts:75-103 | The 64 in-place rounds compute the recursive rounds |
| `Sha256.HmacSha256Base64Url` | app/src/features/auth/hmacSha256.ts:18-37 | The text is the base64url of HMAC-SHA-256 (RFC 2104) of the two strings' bytes, long keys hashed first |
| `Sha256.TagDecodes` | app/src/features/auth/hmacSha256.ts:18-37 | The tag has 43 characters and decodes to the 32-byte HMAC |
| `Sha256Spec.KeysAlike` | app/src/features/auth/hmacSha256.ts:22-26 | Keys that fit in a block are used alike if and only if they differ in nothing but zero bytes at the end |
| `Sha256Words.ChoiceBits` | app/src/features/auth/hmacSha256.ts:198-200 | Each bit of the choose function is that of the second or the third word, as the first says |
| `Sha256Words.MajorityBits` | app/src/features/auth/hmacSha256.ts:202-204 | Each bit of the majority function is set exactly when two of the three words set it |
| `Sha256Words.RotateIsTurned` | app/src/features/auth/hmacSha256.ts:190-192 | Rotating by n is n turns by one place, the lowest bit coming in at the top |
| `Sha256Words.BigSigma0Turns` | app/src/features/auth/hmacSha256.ts:206-213 | The word turned by 2, 13 and 22 places, added bitwise (likewise `BigSigma1Turns`, `Sigma0Turns`, `Sigma1Turns`) |
| `Sha256Words.RoundConstants0` | app/src/features/auth/hmacSha256.ts:4-15 | The first eight round constants are the first 32 binary digits of the fractions of the cube roots of 2 to 19 (and so on up to `RoundConstants56` and 311) |
| `Sha256Words.InitialWords` | app/src/features/auth/hmacSha256.ts:43-60 | The initial words are those of the square roots of the first eight primes |
| `Utf8.Utf8Bytes` | app/src/features/auth/hmacSha256.ts:121-157 | The loop over code units gives the code points' bytes, pairs combined |
| `Utf8.DecodeInvertsEncode` | app/src/features/auth/hmacSha256.ts:121-157 | An explicit decoder gives every UTF-16 sequence back, lone surrogates included |
| `Utf8.EncodeInjective` | app/src/features/auth/hmacSha256.ts:121-157 | No two UTF-16 sequences have the same bytes |
| `Utf8.Utf8Exactly` | app/src/features/auth/hmacSha256.ts:121-157 | The bytes are UTF-8 in the sense of RFC 3629 if and only if every surrogate is paired |
| `Base64Url.ToBase64Url` | packages/protocol-ts/src/identity.ts:214-228 | The padded loop, the two replacements and the stripping give the base64url text |
| `Base64Url.Base64UrlEncode` | app/src/features/auth/hmacSha256.ts:159-177 | The unpadded loop gives the same base64url text: the two encoders agree on all inputs |
| `Base64Url.FromBase64Url` | packages/protocol-ts/src/identity.ts:231-255 | Succeeds if and only if the text is nonempty, over the alphabet and of length not 1 modulo 4, and then gives the decoded bytes |
| `Base64UrlSpec.DecodeInvertsEncode` | packages/protocol-ts/src/identity.ts:214-253 | Decoding inverts encoding on nonempty bytes; the text has ceil(4n/3) characters |
| `Base64UrlSpec.ReencodesExactly` | packages/protocol-ts/src/identity.ts:214-253 | Encoding a decoded text gives it back if and only if the bits of its last character that no byte uses are zero |
| `Base64UrlSpec.SpellingsOfBytes` | packages/protocol-ts/src/identity.ts:231-255 | Every number in those bits gives a text of its own that decodes to the same bytes: 16 texts for a 64-byte signature, 4 for a 32-byte key |
| `Base64UrlSpec.TextIsSpelled` | packages/protocol-ts/src/identity.ts:231-255 | There are no others: a decodable text is determined by its bytes and those bits |
| `Base32.ToCrockfordBase32` | packages/protocol-ts/src/identity.ts:277-294 | The carry-buffer loops emit the fixed-width base-32 numeral of the bytes' big-endian value shifted by the padding bits |
| `Base32.Digits32Value` | packages/protocol-ts/src/identity.ts:277-294 | The ceil(8n/5) digits have the bytes' value shifted by the padding bits |
| `Base32.EncodeInjective` | packages/protocol-ts/src/identity.ts:277-294 | Different bytes have different texts |
| `IdentityIds.NormalizeIsIdempotent` | packages/protocol-ts/src/identity.ts:93-123 | Normalising twice is normalising once |
| `IdentityIds.DerivedIdsAreNormal` | packages/protocol-ts/src/identity.ts:52-91 | Every id built from a role and a public key is its own normal form |
| `IdentityIds.ChecksumDecides` | packages/protocol-ts/src/identity.ts:93-123 | Prefix, body and checksum characters form an id if and only if the prefix is one of the two and the checksum is that of prefix and body |
| `IdentityIds.NormalizeIgnoresSeparators` | packages/protocol-ts/src/identity.ts:93-94 | A space or hyphen put anywhere makes no difference |
| `IdentityIds.NormalizeIgnoresCase` | packages/protocol-ts/src/identity.ts:93-94 | Characters with the same upper case make no difference, anywhere |
| `IdentityIds.FormatInjective` | packages/protocol-ts/src/identity.ts:259-265 | Two ids are written alike only when prefix and payload are the same |
| `CanonicalJson.CanonicalExactly` | packages/protocol-ts/src/authSignatures.ts:110-126 | Two values have the same signed text if and only if they are the same up to the order of members, at every depth, and undefined members |
| `CanonicalJson.NormalExactly` | packages/protocol-ts/src/authSignatures.ts:114-126 | Sorting at every depth identifies exactly the values that differ in member order and undefined members only |
| `CanonicalOrder.SignedInOrder` | packages/protocol-ts/src/authSignatures.ts:114-126 | What is signed lists the members of every object, at every depth, with array indexes first, by their numbers, and then the other keys by their code units |
| `JsonText.StringifyInjective` | packages/protocol-ts/src/authSignatures.ts:110-112 | No two values have the same JSON text, for strings of any code units, lone surrogates included |
| `SurfaceMerge.BatchingExactly` | app/src/features/agent/useAgentSurfaceController.ts:13-34 | For unique existing ids and a nonempty batch: events one at a time give the same list as one batch, ties included, if and only if of any two ids tied at the end, the one ahead in the Map was not behind when their times last differed |
| `SurfaceMerge.BatchingLaw` | app/src/features/agent/useAgentSurfaceController.ts:75-89 | In particular when each id keeps its time |
| `SurfaceMerge.TimesMustStay` | app/src/features/agent/useAgentSurfaceController.ts:13-34 | When an id changes its time and back, the two ways can order a tie differently |
| `SurfaceMerge.MergeKeeps` | app/src/features/agent/useAgentSurfaceController.ts:75-89 | A merge is sorted, has each id once, and holds for each id exactly its latest event |
| `SurfaceMerge.StableSortSorts` | app/src/features/agent/useAgentSurfaceController.ts:27-30 | The sort is ordered by time and keeps the order of the events of each moment |
| `SurfaceMerge.StableSortIsUnique` | app/src/features/agent/useAgentSurfaceController.ts:27-30 | There is only one such list, so any stable sort gives it |
| `SurfaceController.TimelinesAreGood` | app/src/features/agent/useAgentSurfaceController.ts:13-63 | In every run, every timeline is sorted and has each event id once |
| `SurfaceController.SyncIsOneByOneExactly` | app/src/features/agent/useAgentSurfaceController.ts:44-63 | After any run, a sync gives all timelines that its events give one at a time if and only if it keeps the ties of its own timeline |
| `SurfaceController.SyncIsOneByOne` | app/src/features/agent/useAgentSurfaceController.ts:44-63 | In particular when each id keeps its time |
| `SurfaceController.CursorIsLargest` | app/src/features/agent/useAgentSurfaceController.ts:44-67 | In every run, a cursor bounds every cursor that a sync of its surface brought since the last clearing, and is one of them or 0 |
| `SurfaceController.AgentSurfaceController.ApplyAgentSurfaceEvent` | app/src/features/agent/useAgentSurfaceController.ts:13-34 | Replaces by id or appends, sorts, and touches one timeline only |
| `SurfaceController.AgentSurfaceController.MergeAgentSurfaceEvents` | app/src/features/agent/useAgentSurfaceController.ts:75-89 | The two loops that fill the Map and the sort give the merge |
| `SurfaceController.AgentSurfaceController.ApplyAgentSurfaceSync` | app/src/features/agent/useAgentSurfaceController.ts:44-63 | Raises the cursor, and merges unless the batch is empty |
| `TokenBucketSpec.RateBound` | relay/server/src/tokenBucket.ts:45-83 | In any window of any run with a monotone clock and no reset of the key, at most capacity * (1 + floor(T / blockMs)) + rate * T attempts on it pass |
| `TokenBucketSpec.TokensInRange` | relay/server/src/tokenBucket.ts:45-83 | In every run the tokens of every bucket stay between 0 and the capacity |
| `TokenBucketSpec.CapacityBelowOne` | relay/server/src/tokenBucket.ts:45-56 | One attempt alone breaks the bound, and leaves a negative bucket, if and only if the capacity is below one |
| `TokenBucketSpec.BlockHolds` | relay/server/src/tokenBucket.ts:76-79 | Once an attempt finds less than one token, every attempt within the block time fails and changes nothing |
| `TokenBucketAnswers.AttemptFailsExactly` | relay/server/src/tokenBucket.ts:45-83 | With a monotone clock and sensible limits, an attempt fails if and only if its key is overdrawn (from some call on, with no refusal and no reset, more attempts passed than capacity less one token plus the refill since then), or was overdrawn at an attempt less than the block time ago with no reset since |
| `TokenBucketAnswers.RestedKeyPasses` | relay/server/src/tokenBucket.ts:45-83 | In particular an unblocked key whose last attempt is at least one token's refill ago passes |
| `TokenBucketAnswers.KeysAreIndependent` | relay/server/src/tokenBucket.ts:45-83 | What becomes of a key depends on the calls on that key alone |
| `TokenBucketAnswers.ResetStartsAfresh` | relay/server/src/tokenBucket.ts:97-103 | After a reset the key fares as one never used: the next attempt passes |
| `TokenBuckets.TokenBucketLimiter.Consume` | relay/server/src/tokenBucket.ts:45-83 | The in-place updates do what the step on buckets says, to this key only, and answer as it does |
| `TokenBuckets.TokenBucketLimiter.IsBlocked` | relay/server/src/tokenBucket.ts:89-95 | True exactly within the block time, when an attempt would fail and change nothing |
| `RelayStoreIndexes.StepKeepsInverseExactly` | relay/server/src/relayStateStore.ts:342-385 | A step keeps `links` and `linkByApp` mutually inverse if and only if it does not give an app the link id that another app's link has |
| `RelayStoreIndexes.EqualLengthsStayInverse` | relay/server/src/relayStateStore.ts:350-354 | When all app connection ids have one length, link ids never clash and the two maps are inverse in every run |
| `RelayStoreIndexes.UnderscoresClash` | relay/server/src/relayStateStore.ts:352-354 | Equal lengths are needed: for any x, y, z the links of agent x with app y_z and of agent x_y with app z have one id, and after both updates app z is shown the link of app y_z; none of the relay's own ids are of that shape |
| `RelayStoreIndexes.AlwaysKnownToDevices` | relay/server/src/relayStateStore.ts:228-385 | In every run, each link is in its device's set of links, and each agent and app in its device's sets |
| `RelayStoreIndexes.IndexesAgree` | relay/server/src/relayStateStore.ts:228-385 | In every run with stable device ids and app connection ids of one length, the maps are inverse and the sets of each device hold exactly its links, agents and apps |
| `RelayStoreCounters.CountersAlwaysAgree` | relay/server/src/relayStateStore.ts:879-907 | In every run and every counter record, the counts by type add up to the message totals, and a link's incoming bytes are the sum of its two directions |
| `RelayStoreTallies.RecordsAreTallies` | relay/server/src/relayStateStore.ts:694-731 | In every run, each counter record (of the relay, a device, an agent, an app or a link) holds bytes, messages and messages by type, each way, of exactly the traffic recorded for it since it came to be |
| `RelayStoreLinks.DirectionsCountTheirEnds` | relay/server/src/relayStateStore.ts:898-907 | In every run, each directional counter of a link is the number of bytes that came in from that end over the link since it was created |
| `RelayStoreTraffic.DeviceTrafficIsConserved` | relay/server/src/relayStateStore.ts:415-424 | In every run, what was handed to the status store for a device plus what is pending for it is all that was recorded for it |
| `RelayStores.RelayStateStore.FlushDeviceStatus` | relay/server/src/relayStateStore.ts:415-424 | The loop hands every pending delta over once, or drops all when there is no status store |

## Left out

- Reentrant handlers and sends that throw: handlers of path changes, events and messages do not call back into the transport, and `peer.send`, `client.send` and `socket.write` throw only where the source checks for a closed session.
- Ping and pong counters, buffered-amount sampling, ICE timers and emitted events of the transport: they reach the model only as the health step they lead to.
- Order between frames in flight on the relay and on the peer-to-peer path at a switch: the code relies on a delay and promises nothing there.
- The upgrade coordinator, admission, authentication and the choice of the primary agent: arbitrary environment steps.
- Real cryptography (Ed25519, X25519, ChaCha20-Poly1305, HKDF) and random ids: ideal functions and parameters; a session's sequence counter is unbounded inside the transport and saturates in `E2ESessions`.
- Handshakes.HonestExchangePairs: normal identity ids in the handshake are derived symbolically, one to one from the decoded bytes of a public key, and a number stands for which spelling of that normal form a text is; `IdentityIds` has the concrete derivation and normalisation without the handshake.
- MobileTransport.MobileRelaySession.EncodeOutgoing: does not model the encrypt call that throws beyond the safe integers.
- MobileTransport.MobileRelaySession.HandleHandshakeReply: models a reply that passes validation while a handshake is pending; the other replies leave the session as it is or clear it, which the session-lost step covers.
- WebSocketConnections.WebSocketConnection.Close: codes above 65535, on which the source throws, are excluded.
- WebSocket behaviour after a Close frame or a frame error: later chunks are parsed again by the source; the theorems reach up to the first stop.
- WebSocketConnections.WebSocketConnection.HandleData: messages are the payload bytes; decoding them to text is the runtime's.
- StrictTransportSafety.StrictSafety: the side condition also excludes a bare `detachP2pPeer` on the P2P path, after which the next send force closes.
- The second copy of the diff, in `CodeEditorView.web.tsx`, and `goToChange`.
- SurfaceMerge.BatchingLaw: an empty batch is outside the law, since a sync with no events leaves the list as it is; times are integers, so `created_at` texts that do not parse are not covered.
- TokenBucketSpec.RateBound: arithmetic is over the reals, without floating-point rounding.
- IdentityIds.NormalizeIgnoresCase: what `toUpperCase` and `\s` do outside ASCII is a parameter with three stated laws.
- JsonText.StringifyInjective: a number stands as the text the runtime gives it; numbers that JSON writes as null, and undefined array items, are excluded.
- `canonicalScopes` and the field lists of `agentRelay*` and `auth.*` signatures: only the handshake's lists are modelled.
- Times, addresses, device status (online, degraded, offline), snapshots and the traffic map of the relay's store; the SQL behind the status store.
- User interface, storage, SMTP, HTTP handlers, configuration, schema tables, message factories and the dispatcher.
