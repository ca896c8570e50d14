# Access gateway and agent broker: a verified model

A Dafny model of the parts of a privileged-access gateway whose correctness is
hard to see by reading: the broker that shares agent tunnels between gateway
replicas, the session recorder and its replay store, the wire codecs the
protocol proxies rewrite, and the proxies' gating loops. `dafny verify
dfyconfig.toml` checks all of it.

- **Broker.** `SessionDirectory` (ownership rows with an epoch compare-and-set),
  `RedisDirectory` (the write-through cache in front of them, call by call),
  `CacheRaces` (the same with every call's operations landing in any order),
  `AgentStore` (agent rows and audit events), `Relay` (one replica's tunnel table),
  `Broker` (any number of replicas, control loops, dials and revocations,
  interleaved), `BrokerOwnership` (its rows as a run of the directory) and
  `Enrolment` (tokens and racing redemptions).
- **Recorder.** `Frames` (the framed log and its decoder), `Recorder` (the capped
  log), `PauseGate` (the condition-variable protocol between pausing and reading)
  and `ReplayStore` (encryption at rest and the verifying decode).
- **Codecs.** `RespReply`, `RespCommand` and `Decimal` (Redis), `Tds`, `Utf16`,
  `Bits` and `Login7` (SQL Server), `AvPairs` (NTLM), `RdpPdu` and `RdpChannels`
  (RDP), over the byte and stream primitives in `Bytes` and `Streams`.
- **Gates.** `RedisPump`, `RdpRelay`, `PgSplice` and `PgReplyOrder` (the order of a
  PostgreSQL client's answers); `Policies` is what they ask of the policy, which is
  arbitrary.

Stateful code is a class or a method with loops, proved against a function of
its input; what the system promises is then proved of that function. Concurrent
code is a state machine whose steps are single store, lock or socket operations,
and its theorems are about every run. Database calls are atomic steps on maps.
Clocks, random ids, the policy, the tokeniser of inline Redis commands, SHA-256 and
the envelope cipher are parameters; of the cipher only that opening inverts
sealing, and for `MovedBlobIsRefused` that nothing opens under other associated
data, is used.

## Where the code and its comments differ

The model follows the code. Each difference has a concrete run and, beside it, the
exact condition under which the comment's promise holds.

- An operator's replies stay paired with its commands only while no denial's reason
  holds a line feed, since the reason goes into the error line as it is
  (redis_handler.go:274-284 and :298-302 say the order always matches):
  `TwoLineReasonShiftsReplies`, `OperatorReadsItsAnswers`.
- A pipelining PostgreSQL client can read the answer to a denied query before the
  reply to an earlier one it was allowed (pg_handler.go:456-457 says the client stays
  in sync): `DenialOvertakesReply`, `AnswersKeepOrderExactly`.
- A read can start while the session is paused, when its reader passed the gate just
  before (recorder.go:251-254 and :331-333 say nothing is pulled then):
  `ReadStartsWhilePaused`, `ReadStartsInPauseExactly`.
- A late release can delete a live owner's row, because deleting the row restarts
  the epoch at 1 (session_directory.go:31-33 and :182-184 say it cannot):
  `LateReleaseCanDeleteLiveClaim`, `OnlyLatestClaimantHolds`; and in the broker as a
  whole, where relay.go:208-210 says the same: `LateReleaseHidesLiveTunnel`,
  `OnlyLatestConnectionOwns`. The live connection then drops its tunnel as migrated
  though it has no successor (relay.go:192-199 says it has):
  `LateReleaseLosesTheTunnel`, `LostTunnelHasSuccessorExactly`.
- The cache can name a wrong owner when a claim's cache put is lost or overtaken,
  and can show a stale owner as fresh within the skew of one call
  (redis_directory.go:20-28 says never): `LostClaimPutNamesOldOwner`,
  `CrossedPutsNameOldOwner`, `FoldKeepsOldOwner` and `SkewShowsStaleOwnerAsFresh`,
  with `CacheNamesOwnerExactly` for calls whose operations land in any order, and
  `ClaimNeedsItsPut`, `ReleaseNeedsItsDelete` and `ClaimShowsStaleExactlyBySkew` for
  atomic ones.
- A token that lapses between the read and the transaction is still redeemed,
  because the transaction compares with the instant captured on entry
  (enroll.go:219-222 says it cannot): `LapsedTokenStillEnrolls`,
  `RecheckRefusesOnlyEquality`.
- The decoder reports `Truncated` only for bytes cut inside a frame, so it is false
  when the recorder's size cap was hit (recorder_index.go:23 and :36-38):
  `CappedSessionLooksWhole`, `TruncationFlagsAgree`.
- The recorder accepts frames the decoder refuses, beyond 32 MiB (replay_read.go:53-57
  says it never writes one): `LongRecordIsKeptAndRefused`,
  `BufferDecodesToTranscript`.

## Model

| member | source | states |
|---|---|---|
| SessionDirectory.GormSessionDirectory.Claim | internal/broker/session_directory.go:120-163 | the upsert as a function of the old rows; the epoch returned is the row's and is above any epoch the row had |
| SessionDirectory.GormSessionDirectory.Refresh | internal/broker/session_directory.go:168-180 | true exactly when the row carries the caller's node and epoch; only that row's last-seen moves |
| SessionDirectory.GormSessionDirectory.Release | internal/broker/session_directory.go:185-189 | the row goes exactly when it carries the caller's node and epoch; every other row stays |
| SessionDirectory.GormSessionDirectory.Lookup | internal/broker/session_directory.go:192-210 | the stored entry, and whether its last-seen is within the stale window, boundary included |
| SessionDirectory.GormSessionDirectory.OnlineCount | internal/broker/session_directory.go:213-224 | the number of rows of the workspace that Lookup would call fresh |
| SessionDirectory.RunKeepsInv | internal/broker/session_directory.go:120-189 | over every run, the row carries node, address and epoch of the last claim of its current incarnation, and claims of one incarnation have increasing epochs |
| SessionDirectory.OnlyLatestClaimantHolds | internal/broker/session_directory.go:168-189 | in every reachable state a connection can refresh, and its release changes the row, if and only if it is the latest claimant, or the row was deleted since and the same node has reached the same epoch again |
| SessionDirectory.SupersededLosesOwnership | internal/broker/session_directory.go:165-189 | within one incarnation an earlier claimant has a smaller epoch, its refresh reports ownership lost and neither its refresh nor its release changes anything |
| SessionDirectory.EpochCountsClaims | internal/broker/session_directory.go:120-163 | while the row is not deleted its epoch has grown by exactly the number of claims made |
| SessionDirectory.LateReleaseCanDeleteLiveClaim | internal/broker/session_directory.go:182-189 | a four-step run after which an old connection's release deletes the live owner's row |
| RedisDirectory.RedisSessionDirectory.DoClaim | internal/broker/redis_directory.go:130-142 | rows and cache after a claim and its cache put, taken or lost |
| RedisDirectory.RedisSessionDirectory.DoRefresh | internal/broker/redis_directory.go:147-173 | rows and cache after a refresh: the cached entry folded forward, or deleted when ownership was lost |
| RedisDirectory.RedisSessionDirectory.DoRelease | internal/broker/redis_directory.go:177-184 | rows and cache after a release, its database write and its cache delete each taken or lost |
| RedisDirectory.RedisSessionDirectory.DoLookup | internal/broker/redis_directory.go:189-212 | the cached entry when the get hits, otherwise the directory's, which is then cached; freshness recomputed either way |
| RedisDirectory.RedisSessionDirectory.CachePut | internal/broker/redis_directory.go:254-268 | an entry without a forward address is never cached, and a lost put changes nothing |
| RedisDirectory.CallKeepsCoherence | internal/broker/redis_directory.go:130-212 | every atomic call whose claim put and release delete take effect keeps each cached entry naming the row's node, address and epoch, its last-seen at most the skew of one call ahead, whatever the clocks of different replicas show |
| RedisDirectory.CachedLookupNamesTheOwner | internal/broker/redis_directory.go:189-228 | after every run of such calls, with any evictions, failed gets and lost refresh or lookup puts and any drift between replicas, a cached lookup names the row's owner, and calls it fresh only if the row is, up to the skew |
| RedisDirectory.CachedLookupEqualsInner | internal/broker/redis_directory.go:189-228 | with no put lost and no skew, a lookup through the cache and one past it give the same entry and freshness |
| RedisDirectory.ClaimNeedsItsPut | internal/broker/redis_directory.go:130-142 | a claim leaves the cache coherent if and only if its put takes effect or the agent was not cached |
| RedisDirectory.ReleaseNeedsItsDelete | internal/broker/redis_directory.go:177-184 | a release leaves the cache coherent if and only if it removed no row, its delete takes effect, or the agent was not cached |
| RedisDirectory.LostClaimPutNamesOldOwner | internal/broker/redis_directory.go:20-33 | a takeover whose cache put is lost leaves a lookup naming the old owner as fresh |
| RedisDirectory.SkewShowsStaleOwnerAsFresh | internal/broker/redis_directory.go:130-142 | two clock readings one tick apart inside a claim make a stale owner look fresh for that tick |
| RedisDirectory.ClaimShowsStaleExactlyBySkew | internal/broker/redis_directory.go:130-142 | a claim leaves an instant at which its cached entry is fresh and its row stale if and only if its second clock reading is past its first |
| CacheRaces.LandingPutKeepsCoherence | internal/broker/redis_directory.go:254-268 | with calls split at their operations: a put that lands on a coherent cache keeps it coherent if and only if it has no address, or the row still has the owner it names and its last-seen is within the skew |
| CacheRaces.MoveKeepsSound | internal/broker/redis_directory.go:130-276 | each database, cache or loss step, of any call, keeps every cached or pending entry traced to the claims whose endpoint and epoch it carries |
| CacheRaces.CacheNamesOwnerExactly | internal/broker/redis_directory.go:130-276 | for every run of such steps, in any order and with any lost: a cached entry names the directory's owner if and only if the last put landed for the key took node and address from a claim at the owner's endpoint, and its epoch from the row's current claim or one of a deleted incarnation with that epoch |
| CacheRaces.CacheNamesOwnerOfItsClaim | internal/broker/redis_directory.go:130-276 | while the row was never deleted and the put was not folded over another claim's entry, that is: if and only if the last put landed belongs to the current claim |
| CacheRaces.CacheIsNoFresherThanRow | internal/broker/redis_directory.go:226-228 | for every such run with each replica's own clock moving forward, an entry stamped by the row's current claim, or any claim of its node, is at most the skew of one call ahead of the row, and looks fresh only while the row is within that of being fresh |
| CacheRaces.CrossedPutsNameOldOwner | internal/broker/redis_directory.go:130-142 | a run of two claims whose puts land in the other order and leave the loser cached |
| CacheRaces.FoldKeepsOldOwner | internal/broker/redis_directory.go:155-163 | a run in which, after a takeover whose put was lost, the new owner's refresh stores the old owner's node and address under the new epoch |
| AgentStore.GormStore.AuthorizeConnect | internal/broker/store.go:76-97 | true exactly for a known, unrevoked agent presenting its own fingerprint before its certificate lapses |
| AgentStore.GormStore.OnRegister | internal/broker/store.go:104-154 | succeeds exactly for an unrevoked agent: marked online with its version and platform, its advertised destinations replaced by the reported ones, one audit event; otherwise nothing changes |
| AgentStore.GormStore.OnHeartbeat | internal/broker/store.go:162-174 | reports the agent unavailable exactly when it is unknown or revoked, and then changes nothing |
| AgentStore.GormStore.OnDisconnect | internal/broker/store.go:178-194 | an unrevoked row goes offline, a revoked one stays; one audit event either way |
| AgentStore.GormStore.AuthorizeDial | internal/broker/store.go:198-209 | true exactly for a known, unrevoked agent |
| AgentStore.GormStore.AuditBrokerOpen | internal/broker/store.go:212-223 | appends one broker-open event and touches no row |
| AgentStore.GormStore.Revoke | internal/broker/enroll.go:265-303 | the three outcomes, each with its exact condition; a second revoke succeeds and changes nothing |
| AgentStore.RevocationIsPermanent | internal/broker/enroll.go:261-303 | over every run of register, heartbeat, disconnect, dial audit and revoke, a revoked agent's row and destinations are never changed, it is never authorized again, and it has exactly one revoke event |
| Relay.Relay.Register | internal/broker/relay.go:319-329 | afterwards the connection stands under its own identity, every other entry is as before, and the table stays sound |
| Relay.Relay.Deregister | internal/broker/relay.go:331-347 | removes exactly the entries that are this very connection, and drops a workspace left empty |
| Relay.Relay.Lookup | internal/broker/relay.go:441-445 | a connection returned has the requested workspace and agent as its identity |
| Broker.StepKeepsInv | internal/broker/relay.go:188-436 | every step of control loops, dials and revocations keeps tunnels under their own identity, dials on their own tunnel and each stream and audit tied to one dial |
| Broker.DialsAreSafe | internal/broker/forwarder.go:83-169 | in every reachable state a returned connection belongs to the requested workspace and agent; a dial opened at most one stream, audited exactly as often at the replica that opened it (except between the two calls); it was forwarded at most once, to another replica |
| Broker.RunCommits | internal/broker/store.go:104-223 | every run of the whole broker acts on the store as a run of its transactions |
| Broker.RevokedRowIsFrozen | internal/broker/enroll.go:265-303 | so over every run of the broker a revoked row never changes and each revoked agent has exactly one revoke event |
| Broker.RevokedAgentOpensNoNewStream | internal/broker/relay.go:392-407 | over every run, a stream open for an agent revoked at the start belongs to a dial that had passed its authorization before |
| Broker.HeartbeatTearsDownRevoked | internal/broker/relay.go:251-262 | the first heartbeat that reaches the store after a revoke takes the loop out of service for good, and once deregistered the connection is in no table again |
| Broker.SlotEmptiesOnlyByItsOwner | internal/broker/relay.go:331-347 | over every run a taken slot is emptied only by the teardown of the very connection in it, never by that of one it replaced |
| Broker.MigratedTunnelTouchesNothing | internal/broker/relay.go:192-210 | over every run, a loop that lost its ownership stays in its teardown and none of its steps changes the store or the directory |
| BrokerOwnership.StepIsEvent | internal/broker/relay.go:263-286 | each broker step acts on the ownership rows as one event of the session directory, or none, and each connection's epoch is that of the claim it made |
| BrokerOwnership.RunTracks | internal/broker/relay.go:188-317 | every run of the broker acts on the rows as the directory run of its own events does, each connection holding the claim its own step made |
| BrokerOwnership.HeldIsLastClaim | internal/broker/relay.go:296-317 | the claim a connection holds is the last one in the order of all claims that it made itself |
| BrokerOwnership.OnlyLatestConnectionOwns | internal/broker/relay.go:263-286 | in every reachable state, with the directory run of the broker's own events, a connection passes the row's condition if and only if its own last claim is the row's current one, or the row was deleted since and its node reached the same epoch again |
| BrokerOwnership.LostTunnelHasSuccessorExactly | internal/broker/relay.go:192-200 | a loop's maintenance takes it into the lost-ownership teardown exactly when it fails that condition, and its tunnel has then gone to a later claim of another connection if and only if its key is still in the rows |
| BrokerOwnership.LateReleaseHidesLiveTunnel | internal/broker/relay.go:208-216 | a broker run in which an old connection's release deletes the row of a connection that is registered and in service, whose tunnel stays in the table |
| BrokerOwnership.LateReleaseLosesTheTunnel | internal/broker/relay.go:192-207 | the same run up to that connection's next heartbeat, after which no table holds a tunnel and the agent is still marked online |
| Enrolment.EnrollmentService.MintToken | internal/broker/enroll.go:95-140 | validation outcomes, the pending row and its event, and an expiry at most one hour ahead whatever lifetime is asked for |
| Enrolment.EnrollmentService.ReadToken | internal/broker/enroll.go:174-189 | admits a redemption exactly while the token is pending and not past its expiry, keeping the instant it entered |
| Enrolment.EnrollmentService.Redeem | internal/broker/enroll.go:208-247 | the transaction commits exactly for a new agent id and a pending token whose expiry is after the captured instant, writing the agent row with its certificate; otherwise all three tables are as before |
| Enrolment.EnrollmentService.Enroll | internal/broker/enroll.go:167-259 | uninterrupted redemption succeeds exactly when the request is complete, signs for the agent id and the token's workspace, and the token is pending and strictly before expiry; the whole new state is given, and a failure changes nothing |
| Enrolment.EnrolmentIsConserved | internal/broker/enroll.go:167-259 | under every interleaving of mints, reads and transactions: equally many consumed tokens, agents, enroll events and successes; no token and no agent in two successes; each captured instant before the expiry; no expiry over an hour after minting |
| Enrolment.ConsumedForGood | internal/broker/enroll.go:219-236 | a consumed token's row never changes again |
| Enrolment.RecheckRefusesOnlyEquality | internal/broker/enroll.go:219-236 | for an admitted redemption of a still pending token the in-transaction expiry check refuses if and only if it entered at the very expiry instant |
| Enrolment.LapsedTokenStillEnrolls | internal/broker/enroll.go:219-236 | a run in which a token lapses between the read and the transaction and is redeemed all the same |
| Frames.ParseReplay | internal/gateway/replay_read.go:65-101 | the decoder loop gives the frames and the ending of its specification on any byte string |
| Frames.DecodesExactlyWithinBound | internal/gateway/replay_read.go:53-101 | decoding inverts recording if and only if every payload is at most 32 MiB |
| Frames.OversizeFrameStopsDecoding | internal/gateway/replay_read.go:84-87 | a longer frame stops the decoder, which keeps exactly the frames before it |
| Frames.DecodesUpToFirstOversize | internal/gateway/replay_read.go:65-101 | a recording whose lengths fit their field decodes up to its first frame over the bound, whose length is reported, and whole when there is none |
| Frames.CutRecordingReplaysItsPrefix | internal/gateway/replay_read.go:65-101 | a recording cut after any number of bytes replays its whole frames and reports an unexpected end exactly when the cut is inside a frame |
| Frames.FitCountIsMaximal | internal/gateway/replay_read.go:65-101 | those are all the frames that fit in the cut, and no more would |
| Frames.ParsedPayloadsAreBounded | internal/gateway/replay_read.go:84-87 | no decoded payload, on any input, exceeds the bound |
| Recorder.IORecorder.WriteFrameLocked | internal/gateway/recorder.go:310-317 | appends exactly one encoded frame |
| Recorder.IORecorder.AppendLocked | internal/gateway/recorder.go:289-305 | the cap decision and the single truncation marker, as a state change |
| Recorder.IORecorder.RecordFrame | internal/gateway/recorder.go:264-285 | empty payloads and closed or truncated logs record nothing |
| Recorder.IORecorder.PauseInput | internal/gateway/recorder.go:181-199 | a pause of a running session writes one marker; a repeated one writes none |
| Recorder.IORecorder.ResumeInput | internal/gateway/recorder.go:203-217 | a resume of a paused session writes one marker; otherwise none |
| Recorder.IORecorder.Abort | internal/gateway/recorder.go:230-235 | an interrupt and a cancelled context leave the same state |
| Recorder.IORecorder.Close | internal/gateway/recorder.go:421-434 | closes once; only the first call hands out bytes, all of them |
| Recorder.RunWritesTranscript | internal/gateway/recorder.go:264-317 | after every sequence of operations the buffer is the encoding of the offered frames that fit, then one truncation marker if one did not, where the offered frames are defined without the buffer |
| Recorder.BufferDecodesToTranscript | internal/gateway/recorder.go:264-317 | decoding that buffer gives the transcript and a clean end if and only if every frame of the transcript is within 32 MiB, and the truncated flag is set exactly when some offered frame did not fit |
| Recorder.LongRecordIsKeptAndRefused | internal/gateway/recorder.go:289-305 | at the default cap a single payload over 32 MiB that fits is recorded whole, and the decoder refuses the recording |
| Recorder.BufferIsBounded | internal/gateway/recorder.go:289-305 | the buffer never exceeds the cap by more than one marker frame |
| Recorder.TruncatedStays | internal/gateway/recorder.go:289-305 | once the cap was hit nothing is written again |
| Recorder.MarkersAlternate | internal/gateway/recorder.go:181-217 | in every order of operations, and wherever the cap cuts, the pause and resume markers offered so far alternate, paused first |
| Recorder.TranscriptMarkersAlternate | internal/gateway/recorder.go:181-217 | so do the markers of the transcript the buffer encodes |
| PauseGate.NoReaderIsStranded | internal/gateway/recorder.go:163-246 | in every interleaving a parked reader is parked because the gate is shut at that moment: no wake-up is lost |
| PauseGate.TornDownGateNeverBlocks | internal/gateway/recorder.go:240-246 | once aborted or closed, no reader is parked and each one at the gate passes it at its next test |
| PauseGate.AtMostOneReadInPause | internal/gateway/recorder.go:485-498 | while a session stays paused a reader loop starts a read exactly when it had passed the gate for it before and takes that step, once; it completes at most that read or the one it had in flight; and no other reader gets past the gate |
| PauseGate.OneReadPerPause | internal/gateway/recorder.go:485-498 | over every run each reader loop starts at most one read while the gate is shut per pause, and completes at most one |
| PauseGate.ReadStartsInPauseExactly | internal/gateway/recorder.go:240-258 | a read can start while a pause is in force if and only if its reader had passed the gate before the pause |
| PauseGate.ReadStartsWhilePaused | internal/gateway/recorder.go:346-349 | a run of three steps in which a read starts while the session is paused |
| ReplayStore.EncryptingReplayStore.PutReplay | internal/gateway/replay_encrypt.go:98-121 | success conditions, and the envelope stored under the session; a failure stores nothing |
| ReplayStore.EncryptingReplayStore.GetReplay | internal/gateway/replay_encrypt.go:127-133 | resolves the workspace and fetches for it, failing closed |
| ReplayStore.EncryptingReplayStore.GetReplayForWorkspace | internal/gateway/replay_encrypt.go:138-156 | missing, plaintext, opened or failed, each from the stored bytes |
| ReplayStore.Flush | internal/gateway/recorder.go:421-459 | the digest and size cover exactly the bytes handed to the store; it fails exactly when the store does, and the descriptor says stored only if it did not |
| ReplayStore.DecodeAndVerify | internal/gateway/recorder_index.go:64-100 | the decode of the whole stream, refusing one byte over 256 MiB, with the digest compared case-insensitively after trimming |
| ReplayStore.EnvelopeOpens | internal/gateway/replay_encrypt.go:98-172 | what is put opens again, through magic, key version and ciphertext |
| ReplayStore.MovedBlobIsRefused | internal/gateway/replay_encrypt.go:88-94 | a blob moved to another session or workspace does not open |
| ReplayStore.AadIsInjective | internal/gateway/replay_encrypt.go:92-94 | the associated data determines workspace and session as long as workspace ids hold no colon |
| ReplayStore.AadCollidesThroughColon | internal/gateway/replay_encrypt.go:92-94 | two different pairs that share their associated data when they do |
| ReplayStore.LegacyRecordingPassesThrough | internal/gateway/replay_encrypt.go:160-178 | no run of the recorder produces bytes that look encrypted, so a recording stored before encryption comes back unchanged |
| ReplayStore.StoredSessionVerifies | internal/gateway/recorder_index.go:64-100 | every session, recorded, sealed and opened, gives back its bytes, and decoding them gives its transcript with the digest verified if and only if they are within the decode limit and every frame within its bound; the two refusals are exact |
| ReplayStore.TruncationFlagsAgree | internal/gateway/recorder_index.go:36-39 | the decoder's truncated flag equals the recorder's if and only if the session fitted under the recorder's cap |
| ReplayStore.CappedSessionLooksWhole | internal/gateway/recorder_index.go:36-39 | a run whose recorder hit its cap and whose recording decodes as not truncated |
| ReplayStore.FlushAndReplay | internal/gateway/recorder.go:421-459 | calling flush, fetch and decode in turn on any recorder state a session can reach gives that result, exactly when the workspace resolves to a non-empty id and sealing succeeds |
| RespReply.ReadReply | internal/gateway/redis_handler.go:484-513 | the recursive reader over a stateful stream returns what its specification says and leaves the rest; it terminates |
| RespReply.ReadBlobReply | internal/gateway/redis_handler.go:517-538 | blob header, null, bound and payload with its terminator |
| RespReply.ReadAggregateReply | internal/gateway/redis_handler.go:543-567 | nested replies, twice the count for a map |
| RespReply.ReplyIsExact | internal/gateway/redis_handler.go:480-567 | on any input, the bytes returned followed by the bytes left are the input |
| RespReply.ReadsOneValue | internal/gateway/redis_handler.go:480-567 | for every value of the supported types the reader returns exactly its serialisation and leaves what follows, if and only if the value is within the depth, size and count limits |
| RespReply.ReplyExtends | internal/gateway/redis_handler.go:480-567 | more input never changes a completed read |
| RespReply.CutReplyIsRejected | internal/gateway/redis_handler.go:480-567 | a reply cut anywhere before its end is never taken for a whole one |
| RespCommand.ReadCommand | internal/gateway/redis_handler.go:392-464 | array and inline forms off a stateful stream: arguments, raw bytes and rest |
| RespCommand.EncodeCommand | internal/gateway/redis_handler.go:571-584 | the encoder's loop gives the encoding |
| RespCommand.ReadInvertsEncode | internal/gateway/redis_handler.go:392-464 | reading an encoded command gives back its parts and raw bytes and leaves what follows, if and only if it is within the reader's bounds |
| Decimal.LengthRoundTrip | internal/gateway/redis_handler.go:571-584 | a written length line reads back if and only if it fits 64 bits |
| RedisPump.Serve | internal/gateway/redis_handler.go:303-357 | one turn of the loop: read, gate, answer or forward and relay |
| RedisPump.Pump | internal/gateway/redis_handler.go:303-341 | the loop writes exactly the trace of its specification on any two streams |
| RedisPump.RunIsAligned | internal/gateway/redis_handler.go:303-357 | the loop's writes, from any position and for any policy, are one answer per non-empty command and the raw bytes of the allowed ones |
| RedisPump.PumpKeepsRepliesAligned | internal/gateway/redis_handler.go:303-357 | for every command sequence and policy, the j-th write to the operator is the upstream's reply to the j-th non-empty command if it was allowed and the gateway's error otherwise, and the upstream is sent exactly the raw bytes of the allowed commands in order |
| RedisPump.OperatorReadsItsAnswers | internal/gateway/redis_handler.go:274-284 | for every command sequence and policy, an operator reading as many replies as it issued commands off the byte stream gets exactly those answers, one each, with nothing left over, if and only if no denial's reason holds a line feed |
| RedisPump.TwoLineReasonShiftsReplies | internal/gateway/redis_handler.go:326-332 | a run in which a reason of two lines is read as two replies and leaves the second command's own reply unread |
| RedisPump.UpstreamReadsTheAllowed | internal/gateway/redis_handler.go:303-341 | the upstream, reading commands off its byte stream, gets exactly the allowed commands in order and nothing else |
| RedisPump.EncodedCommandsAreDelimited | internal/gateway/redis_handler.go:571-584 | every encoded command is a unit that theorem speaks about |
| RedisPump.SerialisedRepliesAreDelimited | internal/gateway/redis_handler.go:480-567 | so is every serialised value within the limits |
| Tds.ReadMessage | internal/gateway/mssql_handler.go:518-552 | the reassembly loop gives type, payload and rest of its specification on any stream |
| Tds.WriteMessage | internal/gateway/mssql_handler.go:560-588 | the packetising loop, packet ids wrapping at 256 |
| Tds.PacketsAreValid | internal/gateway/mssql_handler.go:560-588 | every packet written is at most 4096 bytes and its length fits its field |
| Tds.ReadsAnyPacketisation | internal/gateway/mssql_handler.go:518-552 | however a payload is cut into packets it reads back whole, stopping right behind the message, if and only if it is at most 32 MiB |
| Tds.ReadInvertsWrite | internal/gateway/mssql_handler.go:518-588 | reading inverts writing for every payload up to the cap and no other |
| Tds.StreamRoundTrip | internal/gateway/mssql_handler.go:518-588 | a stream of written messages reads back as the same messages, to its very end, if and only if each is within the cap |
| Utf16.Utf16LEBytes | internal/gateway/mssql_handler.go:835-842 | the encoding loop, two bytes per code unit |
| Utf16.TextRoundTrip | internal/gateway/mssql_handler.go:835-853 | decoding inverts encoding for every text of Unicode scalar values, surrogate pairs included |
| Login7.ObfuscatePassword | internal/gateway/mssql_handler.go:792-800 | the loop obfuscates the UTF-16 bytes in order |
| Login7.ClearInvertsObfuscate | internal/gateway/mssql_handler.go:686-691 | clearing undoes the XOR and nibble swap on every byte string |
| Login7.BuildLogin7 | internal/gateway/mssql_handler.go:716-788 | the message with its fixed part, offset table and data, offsets truncated to 16 bits |
| Login7.TokenFromLogin7 | internal/gateway/mssql_handler.go:668-693 | the password field through the offset table, or an error when missing, empty or out of range |
| Login7.TokenRoundTrip | internal/gateway/mssql_handler.go:668-800 | for every user, password and database whose password offset and length fit 16 bits the token read from the built message is the password; an empty one is refused |
| Login7.UserAndDatabaseReadBack | internal/gateway/mssql_handler.go:716-788 | the same table leads to the user and database fields |
| AvPairs.Find | internal/gateway/credssp.go:166-183 | the first pair with the id before the list's end, for well-formed and malformed lists |
| AvPairs.CopyWithMicFlag | internal/gateway/credssp.go:188-219 | the rewriting loop gives its specification on any byte string |
| AvPairs.CopyReparses | internal/gateway/credssp.go:188-227 | the copy is a well-formed list of the original pairs, the flags marked or added |
| AvPairs.CopyPreservesLookups | internal/gateway/credssp.go:166-219 | for every byte string, the lookup of every other id is preserved, and the flags lookup gives the original word (zero if absent or short) with bit 0x2 |
| AvPairs.MicBitOnly | internal/gateway/credssp.go:201-208 | setting the bit leaves the other bits as they were |
| AvPairs.CopyIsIdempotent | internal/gateway/credssp.go:188-219 | copying a copy changes nothing |
| RdpPdu.ReadTpkt | internal/gateway/rdp_handler.go:567-585 | one framed PDU off a stream, or an error |
| RdpPdu.PerRoundTrip | internal/gateway/rdp_handler.go:759-778 | a length determinant reads back the length written if and only if it is below 0x8000 |
| RdpPdu.InjectClientInfo | internal/gateway/rdp_handler.go:794-858 | the rewrite with its refusals, on any PDU accepted as Send Data |
| RdpPdu.FixedHeader | internal/gateway/rdp_handler.go:833-836 | the fixed part with the three string lengths overwritten and the rest kept |
| RdpPdu.SpellRoundTrip | internal/gateway/rdp_handler.go:794-858 | a Client Info spelled out parses to itself |
| RdpPdu.RewrapParses | internal/gateway/rdp_handler.go:706-778 | rewrapped user data parses to the same channel and that data if and only if it is below 0x8000 bytes |
| RdpPdu.RewrapKeepsChannel | internal/gateway/rdp_handler.go:844-857 | at any length, whatever a rewrapped PDU parses to is on the original's channel |
| RdpPdu.RewrapIsFramed | internal/gateway/rdp_handler.go:567-585 | its frame length covers exactly the PDU |
| RdpPdu.InjectionReplacesOnlyCredentials | internal/gateway/rdp_handler.go:794-858 | injection into any Unicode Client Info changes the three credential strings and nothing else, with consistent framing, when the new user data is below 0x8000 bytes; at and above that the PDU does not parse to its own data |
| RdpChannels.LocateBlock | internal/gateway/rdp_handler.go:883-910 | the walk finds what its specification says on any PDU |
| RdpChannels.LookupReadsBehindFirstKey | internal/gateway/rdp_handler.go:883-910 | in any PDU the lookup reads behind the first occurrence of the key, and nothing before it or at a later one plays a part |
| RdpChannels.BlockOfConnectPdu | internal/gateway/rdp_handler.go:883-910 | in a connect PDU the lookup returns the first settings block of the wanted type, whatever the other payloads hold, unless the key's bytes occur before the key, when it reads behind those |
| RdpChannels.EarlierKeyHidesSettings | internal/gateway/rdp_handler.go:883-933 | a PDU that starts with the key's bytes and a zero teaches no channel names, whatever settings follow |
| RdpChannels.ParseClientNetworkData | internal/gateway/rdp_handler.go:915-933 | the requested names, the declared count cut to the definitions present |
| RdpChannels.ParseServerNetworkData | internal/gateway/rdp_handler.go:938-955 | the assigned ids, likewise |
| RdpChannels.ClientNamesOfConnectInitial | internal/gateway/rdp_handler.go:915-933 | the names a client asks for are learned in order when its key comes first, and otherwise what stands behind the earlier occurrence |
| RdpChannels.ServerIdsOfConnectResponse | internal/gateway/rdp_handler.go:938-955 | the ids a server assigns are learned in order when its key comes first, and otherwise what stands behind the earlier occurrence |
| RdpRelay.StepKeepsInv | internal/gateway/rdp_handler.go:480-562 | each step of either loop keeps announced redirection ids gated, gates nothing else and keeps passed PDUs in order |
| RdpRelay.AnnouncedRedirectionIsBlocked | internal/gateway/rdp_handler.go:480-562 | with redirection denied, in every interleaving, no operator PDU that reaches the gate after the assignment was relayed passes on a redirection channel's id |
| RdpRelay.OutgoingKeepsChannel | internal/gateway/rdp_handler.go:519-528 | the credential rewrite never moves a PDU to another channel |
| RdpRelay.NoRedirectionReachesUpstream | internal/gateway/rdp_handler.go:480-562 | so nothing written upstream for PDUs gated after that, rewritten or not, parses to a redirection channel's id |
| RdpRelay.EveryReachableStateIsSound | internal/gateway/rdp_handler.go:480-562 | the upstream was sent exactly the passed PDUs, rewritten and in order, and only ids assigned to a redirection channel are gated |
| RdpRelay.NothingElseIsLost | internal/gateway/rdp_handler.go:480-535 | the passed PDUs are the inspected ones minus those the gate dropped, in order |
| RdpRelay.AllowedRedirectionPasses | internal/gateway/rdp_handler.go:480-535 | with redirection allowed nothing is dropped |
| RdpRelay.EarlyAssignmentGatesNothing | internal/gateway/rdp_handler.go:539-562 | an assignment inspected before any channel list gates nothing |
| PgSplice.DrainUntilSync | internal/gateway/pg_handler.go:485-498 | the loop consumes exactly the window through the next Sync, and fails on Terminate or the end of input |
| PgSplice.StepDelivers | internal/gateway/pg_handler.go:397-522 | no step changes what was written plus what is owed, upstream, in errors and in ready messages |
| PgSplice.StepIsTruthful | internal/gateway/pg_handler.go:347-362 | each ready message carries a status recorded when its removal was decided, in order, and errors and readies alternate |
| PgSplice.UpstreamGetsInputMinusDenials | internal/gateway/pg_handler.go:397-522 | for every input, policy and interleaving the upstream gets the input minus denied queries and denied-Parse windows, and the operator one error per removal and one ready per completed removal with the latest recorded status |
| PgSplice.DeniedParseRemovesItsWindow | internal/gateway/pg_handler.go:469-498 | a denied Parse takes everything through the next Sync and nothing after it |
| PgSplice.UpstreamIsRelayedInOrder | internal/gateway/pg_handler.go:503-522 | upstream messages reach the operator verbatim and in order |
| PgReplyOrder.AnswersKeepOrderExactly | internal/gateway/pg_handler.go:397-522 | for every input, policy and interleaving with an upstream that answers only what it was sent, the ready messages the operator reads come in the order of its requests, each from the side that must answer it, if and only if the gateway sends none of its own while a forwarded request is unanswered |
| PgReplyOrder.RunOwesFates | internal/gateway/pg_handler.go:397-439 | the requests disposed of so far and those still owed are always those of the operator's input |
| PgReplyOrder.DenialOvertakesReply | internal/gateway/pg_handler.go:456-463 | a run in which a pipelined second query is denied and answered before the reply to the first arrives |

## Left out

- TLS, certificates, CSR signing, yamux, SSH, Kerberos, SCRAM and the cipher and hash internals: library code.
- SQL, Redis, object-store and filesystem failures, except where a step or a parameter says an operation may be lost.
- HTTP handlers, command wiring, configuration, the agent program and the user interface: plumbing.
- VNC, MySQL, MongoDB, web and Kubernetes proxies: the same proof shapes as the framings modelled here.
- Leases, command policy, the audit hash chain, billing and rate limiting: policy is an arbitrary decision function, audit a list of events.
- Live monitors of a recording, deadlines, back-off, logging and metrics.
- The rendering of Redis commands for policy and log, and the text extraction of keystrokes.
- The online status of an agent as an invariant: an older connection's disconnect may mark it offline until the next heartbeat.
- Control loops, dials and the forwarder as sequential methods: they are the steps of `Broker`, so that every interleaving is covered.
- Failed socket writes in the gating loops: a run then stops at the step before.
- RedisDirectory.CachedLookupNamesTheOwner: each call is one atomic step and each replica's own clock moves forward; CacheRaces.CacheNamesOwnerExactly and CacheRaces.CacheIsNoFresherThanRow are the results for calls that overlap.
- PgSplice.UpstreamGetsInputMinusDenials: a send on the backend both loops share is taken as atomic, though nothing in the source serialises it (pg_handler.go:460-462 against :517-518).
- Broker.DialsAreSafe: a directory answer is arbitrary, but the replica listening at an entry's address is the entry's node.
- SessionDirectory.GormSessionDirectory.Claim: the epoch is unbounded, not a 64-bit integer.
- ReplayStore.DecodeAndVerify: trims ASCII white space only, and compares hex digests by ASCII case.
- RespCommand.ReadCommand: inline commands go through an arbitrary tokeniser in place of the library's.
- Enrolment.EnrollmentService.Enroll: certificate signing is a parameter that gives a certificate for an agent id and workspace, or fails.
- PgReplyOrder.AnswersKeepOrderExactly: the upstream is taken to send at most one ready message per query and sync it was sent.
- AgentStore.GormStore.OnRegister: the kind a pattern suggests is a parameter.
